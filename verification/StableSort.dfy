/**
 * Insertion sort as a specification of a stable sort: the result holds the same elements, and if the
 * comparison goes by a key then the keys descend.
 */
module StableSort {

  /** `larger(a, b)`: the key of `a` is larger than that of `b`. */
  function Insert<T>(x: T, sorted: seq<T>, larger: (T, T) -> bool): (r: seq<T>)
    ensures multiset(r) == multiset{x} + multiset(sorted)
  {
    if sorted == [] then [x]
    else
      assert sorted == [sorted[0]] + sorted[1..];
      if larger(sorted[0], x) then [sorted[0]] + Insert(x, sorted[1..], larger) else [x] + sorted
  }

  function Sorted<T>(s: seq<T>, larger: (T, T) -> bool): (r: seq<T>)
    ensures multiset(r) == multiset(s)
  {
    if s == [] then []
    else
      assert s == [s[0]] + s[1..];
      Insert(s[0], Sorted(s[1..], larger), larger)
  }

  ghost predicate Descending<T>(s: seq<T>, key: T -> int) {
    forall i, j | 0 <= i < j < |s| :: key(s[i]) >= key(s[j])
  }

  ghost predicate AtMost<T>(s: seq<T>, key: T -> int, bound: int) {
    forall i | 0 <= i < |s| :: key(s[i]) <= bound
  }

  lemma Prepend<T>(x: T, s: seq<T>, key: T -> int)
    requires Descending(s, key) && AtMost(s, key, key(x))
    ensures Descending([x] + s, key)
  {
  }

  lemma {:induction false} InsertDescends<T(!new)>(x: T, sorted: seq<T>, larger: (T, T) -> bool, key: T -> int, bound: int)
    requires forall a, b :: larger(a, b) <==> key(a) > key(b)
    requires Descending(sorted, key) && AtMost(sorted, key, bound) && key(x) <= bound
    ensures Descending(Insert(x, sorted, larger), key) && AtMost(Insert(x, sorted, larger), key, bound)
  {
    if sorted != [] {
      if larger(sorted[0], x) {
        InsertDescends(x, sorted[1..], larger, key, key(sorted[0]));
        Prepend(sorted[0], Insert(x, sorted[1..], larger), key);
      } else {
        Prepend(x, sorted, key);
      }
    }
  }

  function Largest<T>(s: seq<T>, key: T -> int): int {
    if s == [] then 0 else if key(s[0]) >= Largest(s[1..], key) then key(s[0]) else Largest(s[1..], key)
  }

  lemma {:induction false} SortedDescends<T(!new)>(s: seq<T>, larger: (T, T) -> bool, key: T -> int)
    requires forall a, b :: larger(a, b) <==> key(a) > key(b)
    ensures Descending(Sorted(s, larger), key) && AtMost(Sorted(s, larger), key, Largest(s, key))
  {
    if s != [] {
      SortedDescends(s[1..], larger, key);
      InsertDescends(s[0], Sorted(s[1..], larger), larger, key, Largest(s, key));
    }
  }
}
