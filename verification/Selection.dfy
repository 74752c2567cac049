/**
 * Selecting the elements of a list that match, and telling whether there is exactly one: what changes
 * when an element is appended or updated, and that one selection can be made after another.
 */
module Selection {

  datatype Found<+T> = Missing | One(value: T) | Many

  /** The elements that match, in order. */
  function Matching<T>(values: seq<T>, matches: T -> bool): seq<T> {
    if values == [] then []
    else if matches(values[0]) then [values[0]] + Matching(values[1..], matches)
    else Matching(values[1..], matches)
  }

  /** `exactOne` */
  function ExactOne<T>(values: seq<T>, matches: T -> bool): Found<T> {
    var selected := Matching(values, matches);
    if |selected| > 1 then Many else if |selected| == 1 then One(selected[0]) else Missing
  }

  lemma {:induction false} MatchingSound<T>(values: seq<T>, matches: T -> bool)
    ensures forall v | v in Matching(values, matches) :: v in values && matches(v)
    ensures forall v | v in values && matches(v) :: v in Matching(values, matches)
  {
    if values != [] {
      MatchingSound(values[1..], matches);
    }
  }

  /** The value is in the list, matches, and is the only element that does. */
  predicate IsOnly<T(==)>(values: seq<T>, matches: T -> bool, value: T) {
    exists i | 0 <= i < |values| ::
      values[i] == value && matches(value) && forall j | 0 <= j < |values| && j != i :: !matches(values[j])
  }

  predicate HasNone<T>(values: seq<T>, matches: T -> bool) {
    forall i | 0 <= i < |values| :: !matches(values[i])
  }

  lemma {:induction false} MatchingOfNone<T>(values: seq<T>, matches: T -> bool)
    ensures Matching(values, matches) == [] <==> HasNone(values, matches)
  {
    if values != [] {
      MatchingOfNone(values[1..], matches);
      assert forall i | 0 < i < |values| :: values[i] == values[1..][i - 1];
    }
  }

  lemma OnlyHead<T>(values: seq<T>, matches: T -> bool, value: T)
    requires values != [] && matches(values[0])
    ensures IsOnly(values, matches, value) <==> value == values[0] && HasNone(values[1..], matches)
  {
    if IsOnly(values, matches, value) {
      var i :| 0 <= i < |values| && values[i] == value
               && forall j | 0 <= j < |values| && j != i :: !matches(values[j]);
      assert i == 0;
    }
    if value == values[0] && HasNone(values[1..], matches) {
      forall j | 0 < j < |values|
        ensures !matches(values[j])
      {
        assert values[j] == values[1..][j - 1];
      }
    }
  }

  lemma OnlyInTail<T>(values: seq<T>, matches: T -> bool, value: T)
    requires values != [] && !matches(values[0])
    ensures IsOnly(values, matches, value) <==> IsOnly(values[1..], matches, value)
  {
    var tail := values[1..];
    if IsOnly(values, matches, value) {
      var i :| 0 <= i < |values| && values[i] == value && matches(value)
               && forall j | 0 <= j < |values| && j != i :: !matches(values[j]);
      assert tail[i - 1] == value;
    }
    if IsOnly(tail, matches, value) {
      var i :| 0 <= i < |tail| && tail[i] == value && matches(value)
               && forall j | 0 <= j < |tail| && j != i :: !matches(tail[j]);
      assert values[i + 1] == value;
      forall j | 0 <= j < |values| && j != i + 1
        ensures !matches(values[j])
      {
        assert j > 0 ==> values[j] == tail[j - 1];
      }
    }
  }

  lemma ConsIsOne<T>(first: T, rest: seq<T>, value: T)
    ensures [first] + rest == [value] <==> first == value && rest == []
  {
    if [first] + rest == [value] {
      assert ([first] + rest)[0] == first && |[first] + rest| == 1 + |rest|;
    }
  }

  lemma {:induction false} MatchingOfOne<T>(values: seq<T>, matches: T -> bool, value: T)
    ensures Matching(values, matches) == [value] <==> IsOnly(values, matches, value)
  {
    if values != [] {
      MatchingOfOne(values[1..], matches, value);
      if matches(values[0]) {
        MatchingOfNone(values[1..], matches);
        OnlyHead(values, matches, value);
        ConsIsOne(values[0], Matching(values[1..], matches), value);
      } else {
        OnlyInTail(values, matches, value);
      }
    }
  }

  /** What is selected: nothing if nothing matches, and a value exactly if it is the only one that does. */
  lemma ExactOneExactly<T>(values: seq<T>, matches: T -> bool)
    ensures ExactOne(values, matches).Missing? <==> HasNone(values, matches)
    ensures forall value :: ExactOne(values, matches) == One(value) <==> IsOnly(values, matches, value)
  {
    MatchingOfNone(values, matches);
    forall value
      ensures ExactOne(values, matches) == One(value) <==> IsOnly(values, matches, value)
    {
      MatchingOfOne(values, matches, value);
    }
  }

  lemma OnlySame<T>(values: seq<T>, f: T -> bool, g: T -> bool, value: T)
    requires forall v :: f(v) == g(v)
    ensures IsOnly(values, f, value) <==> IsOnly(values, g, value)
    ensures HasNone(values, f) <==> HasNone(values, g)
  {
  }

  /** What one selection gives, for another way of writing the test. */
  lemma SelectedExactly<T>(values: seq<T>, f: T -> bool, g: T -> bool)
    requires forall v :: f(v) == g(v)
    ensures ExactOne(values, f).Missing? <==> HasNone(values, g)
    ensures forall value :: ExactOne(values, f) == One(value) <==> IsOnly(values, g, value)
  {
    ExactOneExactly(values, f);
    forall value
      ensures IsOnly(values, f, value) <==> IsOnly(values, g, value)
    {
      OnlySame(values, f, g, value);
    }
    assert HasNone(values, f) <==> HasNone(values, g);
  }

  lemma {:induction false} MatchingAppend<T>(values: seq<T>, more: seq<T>, matches: T -> bool)
    ensures Matching(values + more, matches) == Matching(values, matches) + Matching(more, matches)
  {
    if values == [] {
      assert values + more == more;
    } else {
      assert (values + more)[1..] == values[1..] + more;
      MatchingAppend(values[1..], more, matches);
    }
  }

  lemma {:induction false} MatchingSame<T>(values: seq<T>, f: T -> bool, g: T -> bool)
    requires forall v | v in values :: f(v) == g(v)
    ensures Matching(values, f) == Matching(values, g)
  {
    if values != [] {
      MatchingSame(values[1..], f, g);
    }
  }

  /** Selecting among what was already selected. */
  lemma {:induction false} MatchingTwice<T>(values: seq<T>, outer: T -> bool, inner: T -> bool, both: T -> bool)
    requires forall v | v in values :: both(v) == (outer(v) && inner(v))
    ensures Matching(Matching(values, outer), inner) == Matching(values, both)
  {
    if values != [] {
      MatchingTwice(values[1..], outer, inner, both);
    }
  }

  lemma {:induction false} MatchingNone<T>(values: seq<T>, matches: T -> bool)
    requires forall v | v in values :: !matches(v)
    ensures Matching(values, matches) == []
  {
    if values != [] {
      MatchingNone(values[1..], matches);
    }
  }

  /** Replacing an element by one that matches exactly when the old one did. */
  lemma {:induction false} MatchingUpdate<T>(values: seq<T>, i: nat, v: T, matches: T -> bool)
    requires i < |values| && matches(v) == matches(values[i])
    ensures |Matching(values[i := v], matches)| == |Matching(values, matches)|
    ensures !matches(v) ==> Matching(values[i := v], matches) == Matching(values, matches)
    ensures |Matching(values, matches)| == 1 && matches(v) ==> Matching(values[i := v], matches) == [v]
  {
    if i == 0 {
      assert values[0 := v][1..] == values[1..];
    } else {
      assert values[i := v][1..] == values[1..][i - 1 := v];
      MatchingUpdate(values[1..], i - 1, v, matches);
      if |Matching(values, matches)| == 1 && matches(v) {
        MatchingSound(values[1..], matches);
        assert values[1..][i - 1] in values[1..];
      }
    }
  }
}
