/** The walk over a policy value: it accepts exactly clean trees. */
module KeyWalk {
  import opened Prelude
  import opened SetSizes
  import opened KeyPolicy

  type Path = seq<nat>

  /** The parts of a value. */
  function Parts(h: Heap, v: Value): seq<Value> {
    if v.At? && v.id in h then h[v.id].parts else []
  }

  function Children(p: Path, n: nat): seq<Path> {
    seq(n, i => p + [i])
  }

  function Parent(p: Path): Path {
    if p == [] then [] else p[..|p| - 1]
  }

  /** The pending values with the paths that lead to them. */
  ghost predicate Leads(h: Heap, root: Value, paths: seq<Path>, pending: seq<Value>) {
    |paths| == |pending| && forall i | 0 <= i < |paths| :: Follow(h, root, paths[i]) == Some(pending[i])
  }

  ghost predicate Different(paths: seq<Path>) {
    forall i, j | 0 <= i < j < |paths| :: paths[i] != paths[j]
  }

  /** Every path that is done or pending continues one that is done. */
  ghost predicate Rooted(done: set<Path>, paths: seq<Path>) {
    && (forall p {:trigger Parent(p)} | p in done && p != [] :: Parent(p) in done)
    && (forall i | 0 <= i < |paths| && paths[i] != [] :: Parent(paths[i]) in done)
    && (forall i | 0 <= i < |paths| :: paths[i] !in done)
  }

  /** Everything below the paths that are done is done or pending. */
  ghost predicate Covered(h: Heap, root: Value, done: set<Path>, paths: seq<Path>) {
    && ([] in done || [] in paths)
    && forall p, i: nat | p in done && Follow(h, root, p + [i]).Some? :: p + [i] in done || p + [i] in paths
  }

  /** The containers that have been seen are those at the ends of the paths that are done, each of one path. */
  ghost predicate SeenOnce(h: Heap, root: Value, done: set<Path>, seen: set<nat>) {
    && (forall p | p in done && Follow(h, root, p).Some? && Follow(h, root, p).value.At? :: Follow(h, root, p).value.id in seen)
    && (forall x | x in seen :: exists p :: p in done && Follow(h, root, p) == Some(At(x)))
    && (forall p, q | p in done && q in done && Follow(h, root, p).Some? && Follow(h, root, p).value.At?
                      && Follow(h, root, p) == Follow(h, root, q) :: p == q)
  }

  ghost predicate FineSoFar(h: Heap, root: Value, done: set<Path>, forbidden: string -> bool) {
    forall p | p in done && Follow(h, root, p).Some? && Follow(h, root, p).value.At? && Follow(h, root, p).value.id in h ::
      KeysFine(h[Follow(h, root, p).value.id], forbidden)
  }

  ghost predicate Walking(h: Heap, root: Value, forbidden: string -> bool, done: set<Path>, paths: seq<Path>,
                          pending: seq<Value>, seen: set<nat>)
  {
    && Leads(h, root, paths, pending) && Different(paths) && Rooted(done, paths) && Covered(h, root, done, paths)
    && SeenOnce(h, root, done, seen) && FineSoFar(h, root, done, forbidden)
  }

  lemma ChildrenLead(h: Heap, root: Value, p: Path, v: Value)
    requires Follow(h, root, p) == Some(v)
    ensures Leads(h, root, Children(p, |Parts(h, v)|), Parts(h, v))
    ensures forall i: nat :: Follow(h, root, p + [i]).Some? ==> i < |Parts(h, v)|
  {
    forall i: nat
      ensures Follow(h, root, p + [i]) == if i < |Parts(h, v)| then Some(Parts(h, v)[i]) else None
    {
      FollowSnoc(h, root, p, i);
      assert [i][1..] == [];
    }
  }

  lemma LeadsJoin(h: Heap, root: Value, a: seq<Path>, x: seq<Value>, b: seq<Path>, y: seq<Value>)
    requires Leads(h, root, a, x) && Leads(h, root, b, y)
    ensures Leads(h, root, a + b, x + y)
  {
  }

  /** A path before a child, and the child itself. */
  lemma ChildAt(p: Path, n: nat, i: nat)
    requires i < n
    ensures Parent(Children(p, n)[i]) == p && |Children(p, n)[i]| == |p| + 1 && Children(p, n)[i][|p|] == i
  {
  }

  lemma BeforeLast(paths: seq<Path>, p: Path, i: nat)
    requires i < |paths|
    ensures (paths + [p])[i] == paths[i] && (paths + [p])[|paths|] == p
  {
  }

  lemma IndexJoined(paths: seq<Path>, children: seq<Path>, i: nat)
    requires i < |paths| + |children|
    ensures (paths + children)[i] == if i < |paths| then paths[i] else children[i - |paths|]
  {
  }

  /** The children of a path that is done now are new. */
  lemma RootedOn(done: set<Path>, paths: seq<Path>, p: Path, n: nat)
    requires Rooted(done, paths + [p]) && Different(paths + [p])
    ensures Rooted(done + {p}, paths + Children(p, n)) && Different(paths + Children(p, n))
  {
    var next := paths + Children(p, n);
    assert (paths + [p])[|paths|] == p;
    forall q {:trigger Parent(q)} | q in done + {p} && q != []
      ensures Parent(q) in done + {p}
    {
    }
    forall i | 0 <= i < |next|
      ensures next[i] !in done + {p} && (next[i] != [] ==> Parent(next[i]) in done + {p})
    {
      IndexJoined(paths, Children(p, n), i);
      if i < |paths| {
        BeforeLast(paths, p, i);
      } else {
        ChildAt(p, n, i - |paths|);
      }
    }
    forall i, j | 0 <= i < j < |next|
      ensures next[i] != next[j]
    {
      IndexJoined(paths, Children(p, n), i);
      IndexJoined(paths, Children(p, n), j);
      if j < |paths| {
        BeforeLast(paths, p, i);
        BeforeLast(paths, p, j);
      } else {
        ChildIsNew(done, paths, p, n, i, j - |paths|);
      }
    }
  }

  lemma ChildIsNew(done: set<Path>, paths: seq<Path>, p: Path, n: nat, i: nat, k: nat)
    requires Rooted(done, paths + [p]) && k < n && i < |paths| + k
    ensures (paths + Children(p, n))[i] != Children(p, n)[k]
  {
    IndexJoined(paths, Children(p, n), i);
    ChildAt(p, n, k);
    if i < |paths| {
      BeforeLast(paths, p, i);
    } else {
      ChildAt(p, n, i - |paths|);
    }
  }

  lemma CoveredOn(h: Heap, root: Value, done: set<Path>, paths: seq<Path>, p: Path, v: Value)
    requires Covered(h, root, done, paths + [p]) && Follow(h, root, p) == Some(v)
    ensures Covered(h, root, done + {p}, paths + Children(p, |Parts(h, v)|))
  {
    var n := |Parts(h, v)|;
    var next := paths + Children(p, n);
    ChildrenLead(h, root, p, v);
    assert forall q | q in paths :: q in next;
    forall q, i: nat | q in done + {p} && Follow(h, root, q + [i]).Some?
      ensures q + [i] in done + {p} || q + [i] in next
    {
      if q == p {
        assert Children(p, n)[i] == p + [i];
        assert next[|paths| + i] == p + [i];
      } else {
        assert q + [i] in done || q + [i] in paths + [p];
      }
    }
  }

  lemma SeenOn(h: Heap, root: Value, done: set<Path>, seen: set<nat>, p: Path, v: Value)
    requires SeenOnce(h, root, done, seen) && Follow(h, root, p) == Some(v) && (v.At? ==> v.id !in seen)
    ensures SeenOnce(h, root, done + {p}, if v.At? then seen + {v.id} else seen)
  {
    forall x | x in (if v.At? then seen + {v.id} else seen)
      ensures exists q :: q in done + {p} && Follow(h, root, q) == Some(At(x))
    {
      if v.At? && x == v.id {
        assert p in done + {p} && Follow(h, root, p) == Some(At(x));
      } else {
        var q :| q in done && Follow(h, root, q) == Some(At(x));
        assert q in done + {p};
      }
    }
  }

  /** One value is taken from the end of the stack, and its parts are put there. */
  lemma StepOn(h: Heap, root: Value, forbidden: string -> bool, done: set<Path>, paths: seq<Path>, p: Path,
               pending: seq<Value>, v: Value, seen: set<nat>)
    requires Walking(h, root, forbidden, done, paths + [p], pending + [v], seen)
    requires v.At? ==> v.id !in seen && (v.id in h ==> KeysFine(h[v.id], forbidden))
    ensures Walking(h, root, forbidden, done + {p}, paths + Children(p, |Parts(h, v)|), pending + Parts(h, v),
                    if v.At? then seen + {v.id} else seen)
  {
    LastLeads(h, root, paths, p, pending, v);
    ChildrenLead(h, root, p, v);
    LeadsJoin(h, root, paths, pending, Children(p, |Parts(h, v)|), Parts(h, v));
    RootedOn(done, paths, p, |Parts(h, v)|);
    CoveredOn(h, root, done, paths, p, v);
    SeenOn(h, root, done, seen, p, v);
  }

  lemma LastLeads(h: Heap, root: Value, paths: seq<Path>, p: Path, pending: seq<Value>, v: Value)
    requires Leads(h, root, paths + [p], pending + [v])
    ensures Leads(h, root, paths, pending) && Follow(h, root, p) == Some(v)
  {
    var all, values := paths + [p], pending + [v];
    assert all[|paths|] == p && values[|pending|] == v;
    assert forall i | 0 <= i < |paths| :: all[i] == paths[i] && values[i] == pending[i];
  }

  lemma Begin(h: Heap, root: Value, forbidden: string -> bool)
    ensures Walking(h, root, forbidden, {}, [[]], [root], {})
  {
  }

  /** When nothing is pending, every path is done. */
  lemma {:induction false} AllDone(h: Heap, root: Value, done: set<Path>, p: Path)
    requires Covered(h, root, done, []) && Follow(h, root, p).Some?
    ensures p in done
    decreases |p|
  {
    if p != [] {
      var init, i := p[..|p| - 1], p[|p| - 1];
      assert p == init + [i];
      FollowSnoc(h, root, init, i);
      AllDone(h, root, done, init);
    }
  }

  /** Every path of the document is done. */
  ghost predicate WholeDone(h: Heap, root: Value, done: set<Path>) {
    forall p | Follow(h, root, p).Some? :: p in done
  }

  lemma EndIsWhole(h: Heap, root: Value, done: set<Path>)
    requires Covered(h, root, done, [])
    ensures WholeDone(h, root, done)
  {
    forall p | Follow(h, root, p).Some?
      ensures p in done
    {
      AllDone(h, root, done, p);
    }
  }

  /** What holds for all paths that are done holds for the document. */
  lemma WholeIsClean(h: Heap, root: Value, forbidden: string -> bool, done: set<Path>, seen: set<nat>)
    requires WholeDone(h, root, done) && SeenOnce(h, root, done, seen) && FineSoFar(h, root, done, forbidden)
    ensures IsTree(h, root) && KeysAllowed(h, root, forbidden)
  {
  }

  /** A container that has been seen is reached by a second path. */
  lemma SecondPath(h: Heap, root: Value, forbidden: string -> bool, done: set<Path>, paths: seq<Path>, p: Path,
                   pending: seq<Value>, v: Value, seen: set<nat>)
    requires Walking(h, root, forbidden, done, paths + [p], pending + [v], seen) && v.At? && v.id in seen
    ensures !IsTree(h, root)
  {
    LastLeads(h, root, paths, p, pending, v);
    var q :| q in done && Follow(h, root, q) == Some(At(v.id));
    assert (paths + [p])[|paths|] == p;
  }

  lemma BadKey(h: Heap, root: Value, forbidden: string -> bool, done: set<Path>, paths: seq<Path>, p: Path,
               pending: seq<Value>, v: Value, seen: set<nat>, i: nat)
    requires Walking(h, root, forbidden, done, paths + [p], pending + [v], seen) && v.At? && v.id in h && h[v.id].Dict?
    requires i < |h[v.id].keys| && !KeyFine(h[v.id].keys[i], forbidden)
    ensures !KeysAllowed(h, root, forbidden)
  {
    LastLeads(h, root, paths, p, pending, v);
  }

  /** The loop over the keys of one dictionary. */
  method CheckKeys(c: Container, forbidden: string -> bool) returns (bad: Option<nat>, error: string)
    ensures bad.None? <==> KeysFine(c, forbidden)
    ensures bad.Some? ==> c.Dict? && bad.value < |c.keys| && !KeyFine(c.keys[bad.value], forbidden)
  {
    if c.Dict? {
      for i := 0 to |c.keys|
        invariant forall k | 0 <= k < i :: KeyFine(c.keys[k], forbidden)
      {
        if c.keys[i].NotText? {
          return Some(i), "POLICY_KEY_INVALID";
        }
        if forbidden(c.keys[i].text) {
          return Some(i), "POLICY_SECRET_FIELD_FORBIDDEN";
        }
      }
    }
    return None, "";
  }

  /** What is done for one value from the stack. */
  method Visit(h: Heap, ghost root: Value, forbidden: string -> bool, ghost done: set<Path>, ghost paths: seq<Path>,
               ghost p: Path, ghost pending: seq<Value>, v: Value, seen: set<nat>)
    returns (error: Option<string>, after: set<nat>)
    requires Walking(h, root, forbidden, done, paths + [p], pending + [v], seen) && InHeap(h, v)
    ensures error.Some? ==> !(IsTree(h, root) && KeysAllowed(h, root, forbidden))
    ensures error.None? ==> Walking(h, root, forbidden, done + {p}, paths + Children(p, |Parts(h, v)|),
                                    pending + Parts(h, v), after)
    ensures error.None? ==> after == if v.At? then seen + {v.id} else seen
    ensures error.None? && v.At? ==> v.id !in seen
  {
    after := seen;
    if v.At? {
      if v.id in seen {
        SecondPath(h, root, forbidden, done, paths, p, pending, v, seen);
        return Some("POLICY_SHAPE_INVALID"), seen;
      }
      var bad, code := CheckKeys(h[v.id], forbidden);
      if bad.Some? {
        BadKey(h, root, forbidden, done, paths, p, pending, v, seen, bad.value);
        return Some(code), seen;
      }
      after := seen + {v.id};
    }
    StepOn(h, root, forbidden, done, paths, p, pending, v, seen);
    error := None;
  }

  lemma Top(h: Heap, root: Value, paths: seq<Path>, pending: seq<Value>)
    requires Proper(h) && InHeap(h, root) && Leads(h, root, paths, pending) && pending != []
    ensures |paths| == |pending|
    ensures paths == paths[..|paths| - 1] + [paths[|paths| - 1]]
    ensures pending == pending[..|pending| - 1] + [pending[|pending| - 1]]
    ensures InHeap(h, pending[|pending| - 1])
  {
    SplitLast(paths);
    SplitLast(pending);
    assert Follow(h, root, paths[|paths| - 1]) == Some(pending[|pending| - 1]);
    FollowStays(h, root, paths[|paths| - 1]);
  }

  /** The walk of `_reject_forbidden_keys`, for any test of a key. */
  method RejectForbiddenKeys(h: Heap, root: Value, forbidden: string -> bool) returns (error: Option<string>)
    requires Proper(h) && InHeap(h, root)
    ensures error.None? <==> IsTree(h, root) && KeysAllowed(h, root, forbidden)
  {
    var pending := [root];
    var seen: set<nat> := {};
    ghost var done: set<Path>, paths: seq<Path> := {}, [[]];
    Begin(h, root, forbidden);
    while pending != []
      invariant Walking(h, root, forbidden, done, paths, pending, seen) && seen <= h.Keys
      decreases |h.Keys - seen|, |pending|
    {
      Top(h, root, paths, pending);
      var v, rest := pending[|pending| - 1], pending[..|pending| - 1];
      ghost var p, others := paths[|paths| - 1], paths[..|paths| - 1];
      var after;
      error, after := Visit(h, root, forbidden, done, others, p, rest, v, seen);
      if error.Some? {
        return;
      }
      if v.At? {
        OneFewer(h.Keys, seen, v.id);
      }
      done, paths := done + {p}, others + Children(p, |Parts(h, v)|);
      seen, pending := after, rest + Parts(h, v);
    }
    NothingLeads(h, root, paths);
    EndIsWhole(h, root, done);
    WholeIsClean(h, root, forbidden, done, seen);
    return None;
  }

  /** `_reject_forbidden_keys` with its own fragments. */
  method RejectSecretKeys(h: Heap, root: Value, lower: string -> string, isAlnum: char -> bool) returns (error: Option<string>)
    requires Proper(h) && InHeap(h, root)
    ensures error.None? <==>
              IsTree(h, root) && KeysAllowed(h, root, ForbiddenBy(FORBIDDEN_KEY_FRAGMENTS, lower, isAlnum))
  {
    error := RejectForbiddenKeys(h, root, ForbiddenBy(FORBIDDEN_KEY_FRAGMENTS, lower, isAlnum));
  }

  lemma NothingLeads(h: Heap, root: Value, paths: seq<Path>)
    requires Leads(h, root, paths, [])
    ensures paths == []
  {
  }

  /** The map has exactly the first pairs, and their keys differ. */
  ghost predicate Holds<V>(pairs: seq<(string, V)>, n: nat, m: map<string, V>)
    requires n <= |pairs|
  {
    && |m| == n
    && (forall k | 0 <= k < n :: pairs[k].0 in m && m[pairs[k].0] == pairs[k].1)
    && (forall key | key in m :: exists k :: 0 <= k < n && pairs[k].0 == key)
    && (forall j, k | 0 <= j < k < n :: pairs[j].0 != pairs[k].0)
  }

  lemma HoldsOneMore<V>(pairs: seq<(string, V)>, n: nat, m: map<string, V>)
    requires n < |pairs| && Holds(pairs, n, m) && pairs[n].0 !in m
    ensures Holds(pairs, n + 1, m[pairs[n].0 := pairs[n].1])
  {
    OneMoreKey(m, pairs[n].0, pairs[n].1);
    assert pairs[n].0 == pairs[n].0;
  }

  /** `_object_without_duplicate_keys` */
  method ObjectWithoutDuplicateKeys<V>(pairs: seq<(string, V)>) returns (r: Result<map<string, V>>)
    ensures r.Ok? <==> forall i, j | 0 <= i < j < |pairs| :: pairs[i].0 != pairs[j].0
    ensures r.Ok? ==> Holds(pairs, |pairs|, r.value)
  {
    var result: map<string, V> := map[];
    for i := 0 to |pairs|
      invariant Holds(pairs, i, result)
    {
      if pairs[i].0 in result {
        return Err("POLICY_JSON_DUPLICATE_KEY");
      }
      HoldsOneMore(pairs, i, result);
      result := result[pairs[i].0 := pairs[i].1];
    }
    return Ok(result);
  }
}
