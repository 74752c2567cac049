/** The password file line of a backup: its fields can be told apart again. */
module PgPass {
  import opened Prelude

  /** `str.replace` of one character. */
  function Replace(s: string, c: char, put: string): string {
    if s == "" then "" else (if s[0] == c then put else [s[0]]) + Replace(s[1..], c, put)
  }

  /** `_escape_pgpass` */
  function Escape(s: string): string {
    Replace(Replace(s, '\\', "\\\\"), ':', "\\:")
  }

  /** The fields between colons, each escaped. */
  function Line(fields: seq<string>): string {
    if fields == [] then "" else if |fields| == 1 then Escape(fields[0]) else Escape(fields[0]) + ":" + Line(fields[1..])
  }

  /**
   * How PostgreSQL reads such a line ("The Password File" in its documentation): a backslash takes the
   * next character as it is, a colon ends the field. `field` is what has been read of the current one.
   */
  function Fields(line: string, field: string): seq<string>
    decreases |line|
  {
    if line == "" then [field]
    else if line[0] == '\\' && |line| > 1 then Fields(line[2..], field + [line[1]])
    else if line[0] == ':' then [field] + Fields(line[1..], "")
    else Fields(line[1..], field + [line[0]])
  }

  lemma {:induction false} ReplaceJoins(s: string, t: string, c: char, put: string)
    ensures Replace(s + t, c, put) == Replace(s, c, put) + Replace(t, c, put)
  {
    if s == "" {
      assert s + t == t;
    } else {
      assert (s + t)[1..] == s[1..] + t;
      ReplaceJoins(s[1..], t, c, put);
    }
  }

  /** Escaping works character by character. */
  lemma EscapeHead(s: string)
    requires s != ""
    ensures Escape(s) == (if s[0] == '\\' then "\\\\" else if s[0] == ':' then "\\:" else [s[0]]) + Escape(s[1..])
  {
    var head := if s[0] == '\\' then "\\\\" else [s[0]];
    var rest := Replace(s[1..], '\\', "\\\\");
    ReplaceJoins(head, rest, ':', "\\:");
    if s[0] == '\\' {
      assert head[1..] == "\\" && head[1..][1..] == "";
      assert Replace("\\", ':', "\\:") == "\\";
      assert Replace(head, ':', "\\:") == "\\\\";
    } else {
      assert head[1..] == "";
      assert Replace(head, ':', "\\:") == if s[0] == ':' then "\\:" else [s[0]];
    }
  }

  /** An escaped text is read back into the current field. */
  lemma {:induction false} EscapedIsRead(s: string, rest: string, field: string)
    ensures Fields(Escape(s) + rest, field) == Fields(rest, field + s)
    decreases |s|
  {
    if s == "" {
      assert Escape(s) + rest == rest && field + s == field;
    } else {
      EscapeHead(s);
      EscapedIsRead(s[1..], rest, field + [s[0]]);
      assert field + [s[0]] + s[1..] == field + s;
      var tail := Escape(s[1..]) + rest;
      if s[0] == '\\' || s[0] == ':' {
        assert Escape(s) + rest == ['\\', s[0]] + tail;
        assert (['\\', s[0]] + tail)[2..] == tail;
      } else {
        assert Escape(s) + rest == [s[0]] + tail;
        assert ([s[0]] + tail)[1..] == tail;
      }
    }
  }

  /** Whatever colons and backslashes are in the fields, they are read back as they were. */
  lemma {:induction false} LineRoundTrip(fields: seq<string>)
    requires fields != []
    ensures Fields(Line(fields), "") == fields
  {
    EscapedIsRead(fields[0], if |fields| == 1 then "" else ":" + Line(fields[1..]), "");
    assert "" + fields[0] == fields[0];
    if |fields| == 1 {
      assert Line(fields) + "" == Line(fields);
    } else {
      LineRoundTrip(fields[1..]);
      var rest := ":" + Line(fields[1..]);
      assert rest[1..] == Line(fields[1..]);
      assert Line(fields) == Escape(fields[0]) + rest;
    }
  }
}
