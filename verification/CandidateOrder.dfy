/** The order in which the candidate files are walked. */
module CandidateOrder {
  import opened Prelude
  import opened CandidateRecords
  import opened CandidateRuns

  /** Every file has its own name. */
  predicate NamesDiffer(store: Store) {
    forall i, j | 0 <= i < j < |store| :: store[i].identity.candidateId != store[j].identity.candidateId
  }

  /** The same files, walked in any order. */
  ghost predicate SameFiles(store: Store, other: Store) {
    NamesDiffer(store) && NamesDiffer(other) && forall r :: r in store <==> r in other
  }

  lemma SameFilesConsistent(store: Store, other: Store)
    requires SameFiles(store, other) && Consistent(store)
    ensures Consistent(other)
  {
    forall i, j | 0 <= i < j < |other| && Active(other[i]) && Active(other[j])
      ensures Digest(other[i]) != Digest(other[j])
    {
      assert other[i] in store && other[j] in store;
      var k, l :| 0 <= k < |store| && 0 <= l < |store| && store[k] == other[i] && store[l] == other[j];
      assert k != l;
    }
    forall i | 0 <= i < |other| && Active(other[i])
      ensures WellFormed(other[i])
    {
      assert other[i] in store;
    }
  }

  lemma SameTwin(store: Store, other: Store, sha: string)
    requires SameFiles(store, other) && Consistent(store)
    ensures var i, j := Twin(store, -1, sha), Twin(other, -1, sha);
            (i < |store| <==> j < |other|) && (i < |store| ==> store[i] == other[j])
  {
    SameFilesConsistent(store, other);
    var i, j := Twin(store, -1, sha), Twin(other, -1, sha);
    if i < |store| {
      assert store[i] in other;
      var k :| 0 <= k < |other| && other[k] == store[i];
    }
    if j < |other| {
      assert other[j] in store;
      var k :| 0 <= k < |store| && store[k] == other[j];
    }
  }

  lemma SameFind(store: Store, other: Store, id: string)
    requires SameFiles(store, other)
    ensures var i, j := Find(store, id), Find(other, id);
            (i < |store| <==> j < |other|) && (i < |store| ==> store[i] == other[j])
  {
    var i, j := Find(store, id), Find(other, id);
    if i < |store| {
      assert store[i] in other;
      var k :| 0 <= k < |other| && other[k] == store[i];
    }
    if j < |other| {
      assert other[j] in store;
      var k :| 0 <= k < |store| && store[k] == other[j];
    }
  }

  lemma SameWithdrawn(store: Store, other: Store, sha: string)
    requires SameFiles(store, other) && WithdrawnBefore(store, sha)
    ensures WithdrawnBefore(other, sha)
  {
    var i :| 0 <= i < |store| && !Active(store[i]) && Digest(store[i]) == sha;
    assert store[i] in other;
  }

  /** Of two results one is an error exactly when the other is, the same one; else they agree on record and files. */
  ghost predicate SameResult(a: Result<Stored>, b: Result<Stored>) {
    if a.Err? then b == Err(a.code)
    else b.Ok? && b.value.record == a.value.record && SameFiles(a.value.store, b.value.store)
  }

  lemma AppendSameFiles(store: Store, other: Store, r: Record)
    requires SameFiles(store, other)
    requires Find(store, r.identity.candidateId) == |store| && Find(other, r.identity.candidateId) == |other|
    ensures SameFiles(store + [r], other + [r])
  {
  }

  lemma SameConsistency(store: Store, other: Store)
    requires SameFiles(store, other)
    ensures Consistent(store) == Consistent(other)
  {
    if Consistent(store) {
      SameFilesConsistent(store, other);
    } else if Consistent(other) {
      SameFilesConsistent(other, store);
    }
  }

  lemma SameHistory(store: Store, other: Store, sha: string)
    requires SameFiles(store, other)
    ensures WithdrawnBefore(store, sha) == WithdrawnBefore(other, sha)
  {
    if WithdrawnBefore(store, sha) {
      SameWithdrawn(store, other, sha);
    } else if WithdrawnBefore(other, sha) {
      SameWithdrawn(other, store, sha);
    }
  }

  lemma RegisterInAnyOrder(store: Store, other: Store, actor: string, proposal: Record, bytesMatch: bool)
    requires SameFiles(store, other)
    ensures SameResult(Registered(store, actor, proposal, bytesMatch), Registered(other, actor, proposal, bytesMatch))
  {
    SameConsistency(store, other);
    if Consistent(store) {
      SameTwin(store, other, Digest(proposal));
      SameFind(store, other, proposal.identity.candidateId);
      SameHistory(store, other, Digest(proposal));
      if Find(store, proposal.identity.candidateId) == |store| {
        AppendSameFiles(store, other, proposal);
      }
    }
  }

  lemma NoTwin(store: Store, i: nat)
    requires Consistent(store) && i < |store| && Active(store[i])
    ensures Twin(store, i, Digest(store[i])) == |store|
  {
  }

  lemma ReplaceSameFiles(store: Store, other: Store, i: nat, j: nat, r: Record)
    requires SameFiles(store, other) && i < |store| && j < |other| && store[i] == other[j]
    requires r.identity == store[i].identity
    ensures SameFiles(store[i := r], other[j := r])
  {
    NamesStay(store, i, r);
    NamesStay(other, j, r);
    var after, otherAfter := store[i := r], other[j := r];
    forall x
      ensures x in after <==> x in otherAfter
    {
      InReplaced(store, i, r, x);
      InReplaced(other, j, r, x);
    }
  }

  lemma NamesStay(store: Store, i: nat, r: Record)
    requires NamesDiffer(store) && i < |store| && r.identity == store[i].identity
    ensures NamesDiffer(store[i := r])
  {
  }

  lemma InReplaced(store: Store, i: nat, r: Record, x: Record)
    requires NamesDiffer(store) && i < |store| && r.identity == store[i].identity
    ensures x in store[i := r] <==> x == r || (x in store && x != store[i])
  {
    var after := store[i := r];
    assert after[i] == r;
    if x in store && x != store[i] {
      var k :| 0 <= k < |store| && store[k] == x;
      assert after[k] == x;
    }
    if x in after && x != r {
      var k :| 0 <= k < |after| && after[k] == x;
      assert store[k] == x;
    }
  }

  lemma RewriteInAnyOrder(store: Store, other: Store, i: nat, j: nat, proposal: Record, actor: string,
                          review: Option<Review>, proven: bool)
    requires SameFiles(store, other) && i < |store| && j < |other| && store[i] == other[j]
    requires proposal.identity == store[i].identity
    ensures SameResult(Rewritten(store, i, proposal, actor, review, proven, false),
                       Rewritten(other, j, proposal, actor, review, proven, false))
  {
    var done := Rewritten(store, i, proposal, actor, review, proven, false);
    if done.Ok? {
      ReplaceSameFiles(store, other, i, j, done.value.record);
    }
  }

  lemma UpdateInAnyOrder(store: Store, other: Store, actor: string, proposal: Record, bytesMatch: bool,
                         review: Option<Review>, proven: bool)
    requires SameFiles(store, other) && Consistent(store)
    ensures SameResult(Updated(store, actor, proposal, bytesMatch, review, proven),
                       Updated(other, actor, proposal, bytesMatch, review, proven))
  {
    SameFilesConsistent(store, other);
    SameFind(store, other, proposal.identity.candidateId);
    var i, j := Find(store, proposal.identity.candidateId), Find(other, proposal.identity.candidateId);
    if WellFormed(proposal) && bytesMatch && i < |store| {
      UpdatedAt(store, i, actor, proposal, review, proven);
      UpdatedAt(other, j, actor, proposal, review, proven);
      if Refusal(store[i], proposal, actor).None? {
        RewriteInAnyOrder(store, other, i, j, proposal, actor, review, proven);
      }
    }
  }

  lemma UpdatedAt(store: Store, i: nat, actor: string, proposal: Record, review: Option<Review>, proven: bool)
    requires Consistent(store) && i < |store| && i == Find(store, proposal.identity.candidateId) && WellFormed(proposal)
    ensures var refusal := Refusal(store[i], proposal, actor);
            Updated(store, actor, proposal, true, review, proven) ==
            if refusal.Some? then Err(refusal.value) else Rewritten(store, i, proposal, actor, review, proven, false)
  {
    if Active(store[i]) {
      NoTwin(store, i);
    }
  }

  /**
   * On a consistent store the order in which the files are walked decides nothing: register and update give
   * the same record or error, and leave the same files.
   */
  lemma OrderDecidesNothing(store: Store, other: Store, op: Operation)
    requires SameFiles(store, other) && Consistent(store)
    ensures SameResult(Perform(store, op), Perform(other, op))
  {
    match op
    case Register(actor, proposal, bytesMatch) => RegisterInAnyOrder(store, other, actor, proposal, bytesMatch);
    case Update(actor, proposal, bytesMatch, review, proven) =>
      UpdateInAnyOrder(store, other, actor, proposal, bytesMatch, review, proven);
  }
}
