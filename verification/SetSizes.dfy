/**
 * Sizes of finite sets: a part is never larger than the whole, a one-to-one image has the same size, and
 * one element or key more changes the size by one.
 */
module SetSizes {

  lemma {:induction false} Subsets<T>(a: set<T>, b: set<T>)
    requires a <= b
    ensures |a| <= |b|
  {
    if a != {} {
      var x :| x in a;
      Subsets(a - {x}, b - {x});
    }
  }

  /** A set that another one is mapped onto, one to one, is as large. */
  lemma {:induction false} OneToOne<A, B>(from: set<A>, onto: set<B>, f: A -> B)
    requires forall a | a in from :: f(a) in onto
    requires forall b | b in onto :: exists a :: a in from && f(a) == b
    requires forall a, b | a in from && b in from && f(a) == f(b) :: a == b
    ensures |from| == |onto|
  {
    if from == {} {
      assert onto == {};
    } else {
      var a :| a in from;
      OneToOne(from - {a}, onto - {f(a)}, f);
    }
  }

  /** One element more leaves fewer of the others. */
  lemma OneFewer<T>(all: set<T>, some: set<T>, x: T)
    requires x in all && x !in some
    ensures |all - (some + {x})| < |all - some|
  {
    assert all - some == (all - (some + {x})) + {x};
  }

  lemma OneMoreKey<K, V>(m: map<K, V>, k: K, v: V)
    requires k !in m
    ensures |m[k := v]| == |m| + 1
  {
    assert m[k := v].Keys == m.Keys + {k};
    assert |m| == |m.Keys| && |m[k := v]| == |m[k := v].Keys|;
  }
}
