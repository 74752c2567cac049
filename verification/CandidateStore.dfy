/** The operations of the candidate store as they read and rewrite its files. */
module CandidateStore {
  import opened Prelude
  import opened CandidateRecords

  /** The active records of some files, each under its digest. */
  ghost predicate Collected(store: Store, found: map<string, Record>) {
    && (forall i | 0 <= i < |store| :: Active(store[i]) ==> Digest(store[i]) in found)
    && (forall sha | sha in found :: exists i | 0 <= i < |store| ::
          Active(store[i]) && Digest(store[i]) == sha && found[sha] == store[i])
  }

  /** The next record fits a consistent store exactly when it is withdrawn, or well formed under a new digest. */
  predicate Fits(r: Record, found: map<string, Record>) {
    Active(r) ==> WellFormed(r) && Digest(r) !in found
  }

  function With(r: Record, found: map<string, Record>): map<string, Record> {
    if Active(r) then found[Digest(r) := r] else found
  }

  lemma ConsistentNext(store: Store, r: Record, found: map<string, Record>)
    requires Consistent(store) && Collected(store, found)
    ensures Consistent(store + [r]) <==> Fits(r, found)
  {
    var after := store + [r];
    if Active(r) && Digest(r) in found {
      var i :| 0 <= i < |store| && Active(store[i]) && Digest(store[i]) == Digest(r);
      assert after[i] == store[i] && after[|store|] == r;
    } else {
      assert after[|store|] == r;
    }
  }

  lemma CollectedNext(store: Store, r: Record, found: map<string, Record>)
    requires Collected(store, found) && Fits(r, found)
    ensures Collected(store + [r], With(r, found))
  {
    var after, next := store + [r], With(r, found);
    forall sha | sha in next
      ensures exists i | 0 <= i < |after| :: Active(after[i]) && Digest(after[i]) == sha && next[sha] == after[i]
    {
      if sha in found {
        var i :| 0 <= i < |store| && Active(store[i]) && Digest(store[i]) == sha && found[sha] == store[i];
        assert after[i] == store[i];
      } else {
        assert after[|store|] == r;
      }
    }
  }

  lemma PrefixConsistent(store: Store, n: nat)
    requires n <= |store| && Consistent(store)
    ensures Consistent(store[..n])
  {
  }

  lemma OneActive(store: Store, i: nat, j: nat)
    requires Consistent(store) && i < |store| && j < |store|
    requires Active(store[i]) && Active(store[j]) && Digest(store[i]) == Digest(store[j])
    ensures i == j
  {
  }

  /** The collected record of a digest is the first active one. */
  lemma FoundIsTwin(store: Store, found: map<string, Record>, sha: string)
    requires Consistent(store) && Collected(store, found)
    ensures sha in found <==> Twin(store, -1, sha) < |store|
    ensures sha in found ==> found[sha] == store[Twin(store, -1, sha)]
  {
    var twin := Twin(store, -1, sha);
    if twin < |store| {
      assert sha in found;
      var i :| 0 <= i < |store| && Active(store[i]) && Digest(store[i]) == sha && found[sha] == store[i];
      OneActive(store, i, twin);
    }
  }

  class CandidateStore {
    // The records in the order in which the files are walked.
    var records: seq<Record>

    constructor ()
      ensures records == []
    {
      records := [];
    }

    /** `inspect`: walk the files and collect the active records under their digests. */
    method Inspect() returns (active: Option<map<string, Record>>)
      ensures active.Some? <==> Consistent(records)
      ensures active.Some? ==> Collected(records, active.value)
    {
      var found: map<string, Record> := map[];
      for n := 0 to |records|
        invariant Consistent(records[..n])
        invariant Collected(records[..n], found)
      {
        assert records[..n + 1] == records[..n] + [records[n]];
        ConsistentNext(records[..n], records[n], found);
        if !Fits(records[n], found) {
          if Consistent(records) {
            PrefixConsistent(records, n + 1);
          }
          return None;
        }
        CollectedNext(records[..n], records[n], found);
        found := With(records[n], found);
      }
      assert records[..|records|] == records;
      active := Some(found);
    }

    /** `_has_active_artifact_duplicate`, with the position of the file that settles it. */
    method FindTwin(skip: int, sha: string) returns (twin: nat)
      ensures twin == Twin(records, skip, sha)
    {
      twin := 0;
      while twin < |records|
        invariant twin <= |records|
        invariant Twin(records, skip, sha) == twin + Twin(records[twin..], skip - twin, sha)
      {
        if twin != skip && Active(records[twin]) && Digest(records[twin]) == sha {
          return;
        }
        assert records[twin..][1..] == records[twin + 1..];
        twin := twin + 1;
      }
    }

    /** The search of `register` through all files for a withdrawn record of the artifact. */
    method FindWithdrawn(sha: string) returns (withdrawn: bool)
      ensures withdrawn <==> WithdrawnBefore(records, sha)
    {
      for n := 0 to |records|
        invariant forall i | 0 <= i < n :: Active(records[i]) || Digest(records[i]) != sha
      {
        if !Active(records[n]) && Digest(records[n]) == sha {
          return true;
        }
      }
      withdrawn := false;
    }

    /** `register`: a known active artifact keeps its record; a new one gets a PREPARING record. */
    method Register(actor: string, proposal: Record, bytesMatch: bool) returns (result: Result<Record>)
      modifies this
      ensures var done := Registered(old(records), actor, proposal, bytesMatch);
              if done.Ok? then result == Ok(done.value.record) && records == done.value.store
              else result == Err(done.code) && records == old(records)
    {
      if !WellFormed(proposal) || !bytesMatch {
        return Err("CANDIDATE_INVALID");
      }
      if !IsRole(actor) || proposal.role != actor {
        return Err("DELIVERY_OWNER_MISMATCH");
      }
      var active := Inspect();
      if active.None? {
        return Err("DUPLICATE_ACTIVE_ARTIFACT");
      }
      FoundIsTwin(records, active.value, Digest(proposal));
      if Digest(proposal) in active.value {
        var existing := active.value[Digest(proposal)];
        if || existing.identity.version != proposal.identity.version
           || existing.identity.sourceSha != proposal.identity.sourceSha
           || existing.identity.artifactBytes != proposal.identity.artifactBytes {
          return Err("ARTIFACT_IDENTITY_CONFLICT");
        }
        return Ok(existing);
      }
      var withdrawn := FindWithdrawn(Digest(proposal));
      if withdrawn {
        return Err("WITHDRAWN_ARTIFACT_REQUIRES_NEW_REVIEW");
      }
      if !proposal.readiness.PREPARING? {
        return Err("NEW_CANDIDATE_REQUIRES_REVIEW_TRANSITION");
      }
      if Find(records, proposal.identity.candidateId) < |records| {
        return Err("CANDIDATE_ID_ALREADY_USED");
      }
      records := records + [proposal];
      result := Ok(proposal);
    }

    /** `update`: rewrite one record under the rules on owner, identity, review and evidence. */
    method Update(actor: string, proposal: Record, bytesMatch: bool, review: Option<Review>, proven: bool)
      returns (result: Result<Record>)
      modifies this
      ensures var done := Updated(old(records), actor, proposal, bytesMatch, review, proven);
              if done.Ok? then result == Ok(done.value.record) && records == done.value.store
              else result == Err(done.code) && records == old(records)
    {
      if !WellFormed(proposal) || !bytesMatch {
        return Err("CANDIDATE_INVALID");
      }
      var i := Find(records, proposal.identity.candidateId);
      if i == |records| {
        return Err("CANDIDATE_FILE_MISSING");
      }
      var current := records[i];
      if actor != current.role {
        return Err("ONLY_DELIVERY_OWNER_MAY_UPDATE");
      }
      if proposal.identity != current.identity {
        return Err("CANDIDATE_IDENTITY_IMMUTABLE");
      }
      if current.readiness.WITHDRAWN? {
        return Err("WITHDRAWN_HISTORY_IMMUTABLE");
      }
      if proposal.role != current.role {
        if proposal.readiness != current.readiness {
          return Err("OWNERSHIP_TRANSFER_MUST_BE_SEPARATE");
        }
        if !TransferOnly(current, proposal) {
          return Err("OWNERSHIP_TRANSFER_MUTATION_FORBIDDEN");
        }
      }
      var recovery := false;
      if current.readiness.PREPARING? && proposal.readiness.WITHDRAWN? {
        var twin := FindTwin(i, Digest(current));
        recovery := twin < |records|;
        if recovery && !WellFormed(records[twin]) {
          return Err("CANDIDATE_INVALID");
        }
      }
      if !recovery {
        var active := Inspect();
        if active.None? {
          return Err("DUPLICATE_ACTIVE_ARTIFACT");
        }
      } else if !RecoveryOnly(current, proposal) {
        return Err("WITHDRAWAL_RECOVERY_MUTATION_FORBIDDEN");
      }
      result := Rewrite(i, proposal, actor, review, proven, recovery);
    }

    /** The end of `update`: the review is judged, nothing accepted is lost, and the record is written. */
    method Rewrite(i: nat, proposal: Record, actor: string, review: Option<Review>, proven: bool, recovery: bool)
      returns (result: Result<Record>)
      requires i < |records|
      modifies this
      ensures var done := Rewritten(old(records), i, proposal, actor, review, proven, recovery);
              if done.Ok? then result == Ok(done.value.record) && records == done.value.store
              else result == Err(done.code) && records == old(records)
    {
      var current := records[i];
      var judged := Judged(current, proposal, actor, review, proven, recovery);
      if judged.Err? {
        return Err(judged.code);
      }
      if || !Preserves(current.evidenceRefs, proposal.evidenceRefs)
         || !Preserves(current.checkedScenarios, proposal.checkedScenarios) {
        return Err("ACCEPTED_EVIDENCE_MUST_BE_PRESERVED");
      }
      var merged := Revised(current, proposal, actor, judged.value);
      records := records[i := merged];
      result := Ok(merged);
    }
  }
}
