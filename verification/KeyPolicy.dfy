/** Which field names of a policy are refused. */
module KeyPolicy {
  import opened Prelude
  import opened SetSizes

  /** A value of the program: something without parts, or a reference to a dictionary or list. */
  datatype Value = Atom | At(id: nat)

  /** A key that may be no text. */
  datatype Key = Text(text: string) | NotText

  /** A dictionary has a key for each part, a list none. */
  datatype Container = Dict(keys: seq<Key>, parts: seq<Value>) | List(parts: seq<Value>)

  type Heap = map<nat, Container>

  /** Every reference leads to a container; cycles and sharing are possible. */
  predicate Proper(h: Heap) {
    forall id | id in h ::
      && (h[id].Dict? ==> |h[id].keys| == |h[id].parts|)
      && forall i | 0 <= i < |h[id].parts| :: h[id].parts[i].At? ==> h[id].parts[i].id in h
  }

  predicate InHeap(h: Heap, v: Value) {
    v.At? ==> v.id in h
  }

  /** What is at the end of a path of positions. */
  function Follow(h: Heap, v: Value, path: seq<nat>): Option<Value>
    decreases |path|
  {
    if path == [] then Some(v)
    else if v.Atom? || v.id !in h || path[0] >= |h[v.id].parts| then None
    else Follow(h, h[v.id].parts[path[0]], path[1..])
  }

  /** Each container is reached by one path only; this also excludes cycles. */
  ghost predicate IsTree(h: Heap, v: Value) {
    forall p, q | Follow(h, v, p).Some? && Follow(h, v, p) == Follow(h, v, q) && Follow(h, v, p).value.At? :: p == q
  }

  /** No key at any depth is forbidden. */
  ghost predicate KeysAllowed(h: Heap, v: Value, forbidden: string -> bool) {
    forall p | Follow(h, v, p).Some? && Follow(h, v, p).value.At? && Follow(h, v, p).value.id in h ::
      KeysFine(h[Follow(h, v, p).value.id], forbidden)
  }

  predicate KeyFine(k: Key, forbidden: string -> bool) {
    k.Text? && !forbidden(k.text)
  }

  predicate KeysFine(c: Container, forbidden: string -> bool) {
    c.Dict? ==> forall i | 0 <= i < |c.keys| :: KeyFine(c.keys[i], forbidden)
  }

  const FORBIDDEN_KEY_FRAGMENTS := [
    "password", "token", "secret", "credential", "databaseurl", "database_url", "otp", "cookie", "accesskey", "access_key",
    "secretkey", "secret_key", "connectionstring", "connection_string", "dsn"]

  /** `character.isalnum() or character == "_"` on the lower-case text. */
  function Normalized(key: string, lower: string -> string, isAlnum: char -> bool): string {
    Filtered(lower(key), isAlnum)
  }

  function Filtered(s: string, isAlnum: char -> bool): string {
    if s == "" then ""
    else (if isAlnum(s[0]) || s[0] == '_' then [s[0]] else "") + Filtered(s[1..], isAlnum)
  }

  predicate Occurs(fragment: string, s: string) {
    exists i | 0 <= i <= |s| :: fragment <= s[i..]
  }

  /** Whether one of the fragments is in the normalised key. */
  function ForbiddenBy(fragments: seq<string>, lower: string -> string, isAlnum: char -> bool): string -> bool {
    (key: string) => exists i | 0 <= i < |fragments| :: Occurs(fragments[i], Normalized(key, lower, isAlnum))
  }

  lemma {:induction false} FilteredJoins(s: string, t: string, isAlnum: char -> bool)
    ensures Filtered(s + t, isAlnum) == Filtered(s, isAlnum) + Filtered(t, isAlnum)
  {
    if s == "" {
      assert s + t == t;
    } else {
      var first := if isAlnum(s[0]) || s[0] == '_' then [s[0]] else "";
      FilteredJoins(s[1..], t, isAlnum);
      assert (s + t)[1..] == s[1..] + t;
      assert first + (Filtered(s[1..], isAlnum) + Filtered(t, isAlnum))
          == first + Filtered(s[1..], isAlnum) + Filtered(t, isAlnum);
    }
  }

  /**
   * Characters that normalising drops cannot hide a fragment, wherever they stand in the key; `lower`
   * has to work on the three parts one by one, which the final sigma of Greek words need not.
   */
  lemma SeparatorsHideNothing(fragments: seq<string>, lower: string -> string, isAlnum: char -> bool,
                              head: string, dropped: string, tail: string)
    requires lower(head + dropped + tail) == lower(head) + lower(dropped) + lower(tail)
    requires lower(head + tail) == lower(head) + lower(tail)
    requires Normalized(dropped, lower, isAlnum) == ""
    ensures var forbidden := ForbiddenBy(fragments, lower, isAlnum);
            forbidden(head + dropped + tail) <==> forbidden(head + tail)
  {
    FilteredJoins(lower(head) + lower(dropped), lower(tail), isAlnum);
    FilteredJoins(lower(head), lower(dropped), isAlnum);
    FilteredJoins(lower(head), lower(tail), isAlnum);
    SameNormalized(fragments, lower, isAlnum, head + dropped + tail, head + tail);
  }

  lemma {:induction false} KeptWhole(s: string, isAlnum: char -> bool)
    requires forall i | 0 <= i < |s| :: isAlnum(s[i]) || s[i] == '_'
    ensures Filtered(s, isAlnum) == s
  {
    if s != "" {
      KeptWhole(s[1..], isAlnum);
    }
  }

  lemma {:induction false} FilteredCharacters(s: string, isAlnum: char -> bool)
    ensures |Filtered(s, isAlnum)| <= |s|
    ensures forall c :: c in Filtered(s, isAlnum) <==> c in s && (isAlnum(c) || c == '_')
  {
    if s != "" {
      FilteredCharacters(s[1..], isAlnum);
    }
  }

  /** The fragment begins at some position of the text. */
  predicate StandsIn(fragment: string, text: string) {
    exists at | 0 <= at <= |text| - |fragment| :: StandsAt(fragment, text, at)
  }

  predicate StandsAt(fragment: string, text: string, at: nat)
    requires at + |fragment| <= |text|
  {
    forall i | 0 <= i < |fragment| :: text[at + i] == fragment[i]
  }

  lemma OccursWhereItStands(fragment: string, text: string)
    ensures Occurs(fragment, text) <==> StandsIn(fragment, text)
  {
    if Occurs(fragment, text) {
      var at :| 0 <= at <= |text| && fragment <= text[at..];
      assert StandsAt(fragment, text, at);
    }
    if StandsIn(fragment, text) {
      var at :| 0 <= at <= |text| - |fragment| && StandsAt(fragment, text, at);
      assert fragment <= text[at..];
    }
  }

  /** A key is refused exactly when a fragment stands at some position of what is left of it. */
  lemma RefusedExactly(fragments: seq<string>, lower: string -> string, isAlnum: char -> bool, key: string)
    ensures ForbiddenBy(fragments, lower, isAlnum)(key) <==>
              exists k | 0 <= k < |fragments| :: StandsIn(fragments[k], Normalized(key, lower, isAlnum))
  {
    forall k | 0 <= k < |fragments|
      ensures var left := Normalized(key, lower, isAlnum); Occurs(fragments[k], left) <==> StandsIn(fragments[k], left)
    {
      OccursWhereItStands(fragments[k], Normalized(key, lower, isAlnum));
    }
  }

  /** A fragment of letters, digits and underscores is found at any position of the lower-case key. */
  lemma FragmentIsFound(fragments: seq<string>, lower: string -> string, isAlnum: char -> bool, key: string,
                        k: nat, head: string, tail: string)
    requires k < |fragments| && lower(key) == head + fragments[k] + tail
    requires forall i | 0 <= i < |fragments[k]| :: isAlnum(fragments[k][i]) || fragments[k][i] == '_'
    ensures ForbiddenBy(fragments, lower, isAlnum)(key)
  {
    var fragment, before := fragments[k], Filtered(head, isAlnum);
    FilteredJoins(head + fragment, tail, isAlnum);
    FilteredJoins(head, fragment, isAlnum);
    KeptWhole(fragment, isAlnum);
    assert StandsAt(fragment, before + fragment + Filtered(tail, isAlnum), |before|);
    RefusedExactly(fragments, lower, isAlnum, key);
  }

  lemma SameNormalized(fragments: seq<string>, lower: string -> string, isAlnum: char -> bool, a: string, b: string)
    requires Normalized(a, lower, isAlnum) == Normalized(b, lower, isAlnum)
    ensures ForbiddenBy(fragments, lower, isAlnum)(a) == ForbiddenBy(fragments, lower, isAlnum)(b)
  {
  }

  lemma {:induction false} FollowSnoc(h: Heap, v: Value, p: seq<nat>, i: nat)
    ensures Follow(h, v, p + [i]) ==
            if Follow(h, v, p).None? then None
            else Follow(h, Follow(h, v, p).value, [i])
    decreases |p|
  {
    if p == [] {
      assert p + [i] == [i];
    } else if v.At? && v.id in h && p[0] < |h[v.id].parts| {
      assert (p + [i])[1..] == p[1..] + [i];
      FollowSnoc(h, h[v.id].parts[p[0]], p[1..], i);
    }
  }

  lemma {:induction false} FollowStays(h: Heap, v: Value, p: seq<nat>)
    requires Proper(h) && InHeap(h, v)
    ensures Follow(h, v, p).Some? ==> InHeap(h, Follow(h, v, p).value)
    decreases |p|
  {
    if p != [] && v.At? && p[0] < |h[v.id].parts| {
      FollowStays(h, h[v.id].parts[p[0]], p[1..]);
    }
  }
}
