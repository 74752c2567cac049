/**
 * POSIX paths as the verifier normalises them: splitting and joining, what is kept of a path, and which
 * paths are in canonical form already.
 */
module PosixPath {
  import opened Prelude

  /** The text up to the first slash. */
  function Head(s: string): (n: nat)
    ensures n <= |s| && '/' !in s[..n] && (n < |s| ==> s[n] == '/')
  {
    if s == "" || s[0] == '/' then 0
    else
      var n := 1 + Head(s[1..]);
      assert s[..n] == [s[0]] + s[1..][..n - 1];
      n
  }

  /** `split("/")` */
  function Split(s: string): (parts: seq<string>)
    ensures parts != []
  {
    var n := Head(s);
    if n == |s| then [s] else [s[..n]] + Split(s[n + 1..])
  }

  /** `"/".join(parts)` */
  function Join(parts: seq<string>): string {
    if parts == [] then "" else if |parts| == 1 then parts[0] else parts[0] + "/" + Join(parts[1..])
  }

  predicate IsControl(c: char) {
    c < ' ' || c == '\U{7F}'
  }

  predicate NoControl(s: string) {
    forall i | 0 <= i < |s| :: !IsControl(s[i])
  }

  predicate IsPart(part: string) {
    part != "" && part != "."
  }

  /** What a path object keeps of the parts. */
  function Kept(parts: seq<string>): seq<string> {
    if parts == [] then []
    else if IsPart(parts[0]) then [parts[0]] + Kept(parts[1..])
    else Kept(parts[1..])
  }

  function Text(parts: seq<string>): string {
    if parts == [] then "." else Join(parts)
  }

  /** A relative path in the form in which a path object prints it, without parent steps. */
  predicate Canonical(s: string) {
    s != "" && s[0] != '/' && Kept(Split(s)) == Split(s) && ".." !in Split(s)
  }

  lemma {:induction false} KeptAll(parts: seq<string>)
    ensures |Kept(parts)| <= |parts|
    ensures Kept(parts) == parts <==> forall i | 0 <= i < |parts| :: parts[i] != "" && parts[i] != "."
  {
    if parts != [] {
      KeptAll(parts[1..]);
      assert forall i | 0 < i < |parts| :: parts[i] == parts[1..][i - 1];
      if IsPart(parts[0]) {
        assert parts == [parts[0]] + parts[1..];
        assert Kept(parts)[1..] == Kept(parts[1..]);
      }
    }
  }

  lemma EmptyHead(s: string)
    requires s == "" || s[0] == '/'
    ensures Split(s)[0] == ""
  {
    assert Head(s) == 0;
    assert s[..0] == "";
  }

  /** A path is in canonical form exactly when every part of it is a name that stands for itself. */
  lemma CanonicalExactly(s: string)
    ensures Canonical(s) <==> forall i | 0 <= i < |Split(s)| :: Split(s)[i] != "" && Split(s)[i] != "." && Split(s)[i] != ".."
  {
    var parts := Split(s);
    KeptAll(parts);
    if s == "" || s[0] == '/' {
      EmptyHead(s);
    }
    assert ".." in parts <==> exists i | 0 <= i < |parts| :: parts[i] == "..";
  }

  /** `_safe_relative` */
  function SafeRelative(value: string): Result<string> {
    var s := if "./" <= value then value[2..] else value;
    if s == "" || s[0] == '/' || ".." in Kept(Split(s)) then Err("RELEASE_PATH_INVALID")
    else Ok(Text(Kept(Split(s))))
  }

  lemma CutAt(s: string, n: nat)
    requires n < |s|
    ensures s == s[..n] + [s[n]] + s[n + 1..]
  {
  }

  lemma JoinOfMore(part: string, parts: seq<string>)
    requires parts != []
    ensures Join([part] + parts) == part + "/" + Join(parts)
  {
    assert ([part] + parts)[1..] == parts;
  }

  lemma {:induction false} JoinInvertsSplit(s: string)
    ensures Join(Split(s)) == s
  {
    var n := Head(s);
    if n < |s| {
      JoinInvertsSplit(s[n + 1..]);
      JoinOfMore(s[..n], Split(s[n + 1..]));
      CutAt(s, n);
    }
  }

  /** A canonical path is left as it is. */
  lemma CanonicalIsSafe(s: string)
    requires Canonical(s)
    ensures SafeRelative(s) == Ok(s)
  {
    JoinInvertsSplit(s);
    if "./" <= s {
      assert Head(s) == 1 by { assert s[0] == '.' && s[1] == '/' && Head(s[1..]) == 0; }
      assert Split(s)[0] == s[..1] == ".";
      KeptStarts(Split(s));
      assert false;
    }
  }

  lemma {:induction false} KeptShrinks(parts: seq<string>)
    ensures |Kept(parts)| <= |parts|
    ensures Kept(parts) == parts ==> forall i | 0 <= i < |parts| :: IsPart(parts[i])
  {
    if parts != [] {
      KeptShrinks(parts[1..]);
    }
  }

  lemma KeptStarts(parts: seq<string>)
    requires Kept(parts) == parts && parts != []
    ensures IsPart(parts[0])
  {
    KeptShrinks(parts);
  }

  /** Normalising only removes characters. */
  lemma {:induction false} KeptIsShorter(parts: seq<string>)
    ensures |Join(Kept(parts))| <= |Join(parts)|
    ensures Kept(parts) != [] ==> Join(Kept(parts)) != ""
    ensures forall c :: c in Join(Kept(parts)) ==> c in Join(parts)
  {
    if parts != [] {
      KeptIsShorter(parts[1..]);
      assert Join(parts) == if |parts| == 1 then parts[0] else parts[0] + "/" + Join(parts[1..]);
      var rest := Kept(parts[1..]);
      if IsPart(parts[0]) {
        assert Kept(parts) == [parts[0]] + rest;
        assert ([parts[0]] + rest)[1..] == rest;
        assert |parts| == 1 ==> rest == [];
      }
    }
  }

  lemma SafeIsShorter(value: string)
    ensures SafeRelative(value).Ok? ==> |SafeRelative(value).value| <= |value|
    ensures SafeRelative(value).Ok? ==> forall c :: c in SafeRelative(value).value ==> c == '.' || c in value
  {
    var s := if "./" <= value then value[2..] else value;
    JoinInvertsSplit(s);
    KeptIsShorter(Split(s));
    assert forall c :: c in s ==> c in value;
  }
}
