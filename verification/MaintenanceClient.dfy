/** The client's request operation, run against the server's grant over an unreliable network. */
module MaintenanceClient {
  import opened Prelude
  import opened MaintenanceToken
  import opened MaintenanceProtocol

  /** What becomes of one HTTP exchange. */
  datatype Fate = Answered | ReplyLost | NotDelivered

  /** A rotate message posted at any earlier time, arriving now. */
  datatype Delivery = Delivery(message: Rotation, at: int)

  /**
   * The circumstances of one call: the client's clock, the nonce it would draw, the fate and the
   * server time of each exchange, late messages arriving before the exchanges, and the point, if
   * any, at which the process dies.
   */
  datatype Call = Call(
    now: int, nonce: string,
    probe: Fate, probeAt: int, beforeProbe: seq<Delivery>,
    rotate: Fate, rotateAt: int, beforeRotate: seq<Delivery>,
    business: Fate, crash: Option<nat>)

  datatype Outcome = Done | Failed(code: string) | Crashed

  /** A call during which the network works: it takes less than the replay window from `start` on. */
  predicate Works(call: Call, start: int) {
    && call.crash.None? && call.probe.Answered? && call.rotate.Answered? && call.business.Answered?
    && start <= call.probeAt < start + REPLAY_SECONDS && start <= call.rotateAt < start + REPLAY_SECONDS
    && call.now < start + LEASE_SECONDS
    && (forall d | d in call.beforeProbe + call.beforeRotate :: start <= d.at < start + REPLAY_SECONDS)
    && NonceShape(call.nonce)
  }

  /** A lease that outlives the call, and a file whose clock and nonce the client accepts. */
  predicate Alive(disk: Credential, grant: Grant, call: Call, start: int) {
    && !grant.revoked && grant.expiresAt > call.now && grant.expiresAt >= start + REPLAY_SECONDS
    && disk.rotatedAt <= call.now + 300
    && (disk.pendingNonce.Some? ==> NonceShape(disk.pendingNonce.value))
  }

  /** The server's record after late messages, of which only those arrive that were ever posted. */
  function GrantAfter(grant: Grant, posted: set<Rotation>, late: seq<Delivery>): Grant {
    if late == [] then grant
    else
      var before, last := GrantAfter(grant, posted, late[..|late| - 1]), late[|late| - 1];
      if last.message in posted then Rotate(before, last.message, last.at).1 else before
  }

  class MaintenanceClient {
    var disk: Credential
    var grant: Grant
    var posted: set<Rotation>
    var sent: seq<Token>
    ghost var held: map<Token, int>
    // The run of the protocol that led from the installed credential to the present state.
    ghost const origin: World
    ghost var steps: seq<Step>

    ghost function Now(): World
      reads this
    {
      World(disk, grant, posted, held, sent)
    }

    ghost predicate Valid()
      reads this
    {
      Initial(origin) && Run(origin, steps) && After(origin, steps) == Now()
    }

    constructor (serial: nat, expiresAt: int, rotatedAt: int)
      ensures Valid()
      ensures disk == Credential(Issued(serial), expiresAt, rotatedAt, None)
    {
      disk := Credential(Issued(serial), expiresAt, rotatedAt, None);
      grant := Grant(Issued(serial), None, None, 0, expiresAt, false);
      posted := {};
      sent := [];
      held := map[Issued(serial) := expiresAt];
      origin := World(Credential(Issued(serial), expiresAt, rotatedAt, None),
                      Grant(Issued(serial), None, None, 0, expiresAt, false), {},
                      map[Issued(serial) := expiresAt], []);
      steps := [];
    }

    /** One step of the protocol; every change of state below is one of these. */
    ghost method Record(step: Step, before: World)
      requires Initial(origin) && Run(origin, steps) && After(origin, steps) == before
      requires Enabled(before, step) && Now() == Next(before, step)
      modifies this`steps
      ensures steps == old(steps) + [step] && Valid()
    {
      steps := steps + [step];
      assert steps[..|steps| - 1] == old(steps);
    }

    /** The atomic replacement of the credential file by one with a pending nonce. */
    method SaveNonce(nonce: string)
      requires Valid() && disk.pendingNonce.None?
      modifies this`disk, this`steps
      ensures Valid() && steps == old(steps) + [Arm(nonce)]
      ensures disk == old(disk).(pendingNonce := Some(nonce))
    {
      ghost var before := Now();
      disk := disk.(pendingNonce := Some(nonce));
      Record(Arm(nonce), before);
    }

    /** The atomic replacement of the credential file by its confirmed successor. */
    method SaveSuccessor(data: Credential)
      requires Valid() && disk.pendingNonce.Some?
      requires data.token == Successor(disk) && data.token in held && data.expiresAt == held[data.token]
      requires data.pendingNonce.None?
      modifies this`disk, this`steps
      ensures Valid() && steps == old(steps) + [Adopt(data.rotatedAt)]
      ensures disk == data
    {
      ghost var before := Now();
      disk := data;
      Record(Adopt(data.rotatedAt), before);
    }

    /** The rotate message of the pending nonce goes out. */
    method PostPending()
      requires Valid() && disk.pendingNonce.Some?
      modifies this`posted, this`steps
      ensures Valid() && steps == old(steps) + [Post]
      ensures posted == old(posted) + {Rotation(disk.token, disk.pendingNonce.value)}
    {
      ghost var before := Now();
      posted := posted + {Rotation(disk.token, disk.pendingNonce.value)};
      Record(Post, before);
    }

    /** The server handles one rotate message and answers with a token or a refusal. */
    method Handle(message: Rotation, at: int) returns (accepted: bool)
      requires Valid() && message in posted
      modifies this`grant, this`held, this`steps
      ensures Valid() && steps == old(steps) + [Deliver(message, at)]
      ensures (accepted, grant) == Rotate(old(grant), message, at)
      ensures held == old(held)[grant.current := grant.expiresAt]
    {
      ghost var before := Now();
      var handled := Rotate(grant, message, at);
      accepted := handled.0;
      grant := handled.1;
      held := held[grant.current := grant.expiresAt];
      Record(Deliver(message, at), before);
    }

    /** Rotate messages that were posted long ago arrive at last. */
    method Arrive(late: seq<Delivery>, ghost start: int)
      requires Valid()
      modifies this`grant, this`held, this`steps
      ensures Valid() && old(steps) <= steps
      ensures Settled(old(grant), disk, grant, start, late)
      ensures grant == GrantAfter(old(grant), posted, late)
    {
      for i := 0 to |late|
        invariant Valid() && old(steps) <= steps
        invariant Settled(old(grant), disk, grant, start, late)
        invariant grant == GrantAfter(old(grant), posted, late[..i])
      {
        assert late[..i + 1][..i] == late[..i];
        if late[i].message in posted {
          RunKeepsInv(origin, steps);
          var _ := Handle(late[i].message, late[i].at);
          RunKeepsInv(origin, steps);
        }
      }
      assert late[..|late|] == late;
    }

    /** The effect of late messages while the lease is alive: nothing, or the pending rotation. */
    ghost predicate Settled(before: Grant, file: Credential, after: Grant, start: int, late: seq<Delivery>) {
      (!before.revoked && before.expiresAt >= start + REPLAY_SECONDS
       && forall d | d in late :: start <= d.at < start + REPLAY_SECONDS) ==>
        || after == before
        || (&& before.current == file.token && file.pendingNonce.Some? && after.current == Successor(file)
            && after.previous == Some(file.token) && after.nonce == file.pendingNonce && !after.revoked
            && after.replayUntil >= start + REPLAY_SECONDS && after.expiresAt >= start + LEASE_SECONDS)
    }

    /** The facts about file and server that the operations below rely on. */
    ghost predicate Paired()
      reads this
    {
      && Recoverable(Now())
      && grant.current in held && held[grant.current] == grant.expiresAt
      && (grant.current == disk.token ==> grant.expiresAt == disk.expiresAt)
    }

    lemma ValidIsPaired()
      requires Valid()
      ensures Paired()
    {
      RunKeepsInv(origin, steps);
    }

    /** The server knows the successor, and says so in time for it to be saved. */
    predicate Recovers(file: Credential, server: Grant, call: Call)
      requires file.pendingNonce.Some?
    {
      && call.probe.Answered? && call.crash != Some(0)
      && server.current == Successor(file) && !server.revoked
      && server.expiresAt > call.probeAt && server.expiresAt > call.now
    }

    /** How a probe ends the call: without an answer, with one that has expired by now, or by a crash. */
    function Probed(file: Credential, server: Grant, call: Call): Option<Outcome>
      requires file.pendingNonce.Some?
    {
      if !call.probe.Answered? then Some(Failed("REQUEST_OUTCOME_UNKNOWN"))
      else if server.current != Successor(file) || server.revoked || server.expiresAt <= call.probeAt then None
      else if server.expiresAt <= call.now then Some(Failed("ROTATION_READBACK_INVALID"))
      else if call.crash == Some(0) then Some(Crashed)
      else None
    }

    /**
     * Recover from an earlier call: with a nonce pending, ask the server whether the derived
     * successor is already its token, and save it if so. A failure ends the call.
     */
    method Probe(call: Call, ghost start: int) returns (failure: Option<Outcome>)
      requires Valid()
      modifies this`disk, this`grant, this`held, this`steps
      ensures Valid() && old(steps) <= steps
      ensures Works(call, start) && Alive(old(disk), old(grant), call, start) ==>
                && failure.None? && Alive(disk, grant, call, start)
                && grant.current == disk.token
      ensures failure != Some(Done)
      ensures old(disk).pendingNonce.None? ==> failure.None? && Now() == old(Now())
      ensures old(disk).pendingNonce.Some? && !NonceShape(old(disk).pendingNonce.value) ==>
                failure == Some(Failed("CREDENTIAL_FORMAT_INVALID")) && Now() == old(Now())
      ensures old(disk).pendingNonce.Some? && NonceShape(old(disk).pendingNonce.value) ==>
                && grant == GrantAfter(old(grant), posted, call.beforeProbe)
                && failure == Probed(old(disk), grant, call)
                && disk == if Recovers(old(disk), grant, call) then Credential(Successor(old(disk)), grant.expiresAt, call.now, None)
                           else old(disk)
      ensures disk == old(disk) || (disk.pendingNonce.None? && disk.rotatedAt == call.now && call.now < disk.expiresAt)
    {
      ValidIsPaired();
      if disk.pendingNonce.None? {
        return None;
      }
      var nonce := disk.pendingNonce.value;
      if !NonceShape(nonce) {
        return Some(Failed("CREDENTIAL_FORMAT_INVALID"));
      }
      var candidate := Derived(disk.token, nonce);
      Arrive(call.beforeProbe, start);
      ValidIsPaired();
      if !call.probe.Answered? {
        return Some(Failed("REQUEST_OUTCOME_UNKNOWN"));
      }
      if !Authenticates(grant, candidate, call.probeAt) {
        return None;
      }
      if grant.expiresAt <= call.now {
        return Some(Failed("ROTATION_READBACK_INVALID"));
      }
      var data := Credential(candidate, grant.expiresAt, call.now, None);
      if call.crash == Some(0) { return Some(Crashed); }
      SaveSuccessor(data);
      failure := None;
    }

    /** Rotate under a nonce that is made durable before anything is posted. */
    method Renew(call: Call, ghost start: int) returns (failure: Option<Outcome>)
      requires Valid()
      modifies this`disk, this`grant, this`held, this`posted, this`steps
      ensures Valid() && old(steps) <= steps
      ensures failure.None? ==>
                disk.pendingNonce.None? && disk.rotatedAt == call.now && call.now < disk.expiresAt
      ensures failure != Some(Done)
      ensures var nonce := if old(disk).pendingNonce.Some? then old(disk).pendingNonce.value else call.nonce;
              var armed := old(disk).(pendingNonce := Some(nonce));
              if call.crash == Some(2) || !NonceShape(nonce) then
                && failure == Some(if call.crash == Some(2) then Crashed else Failed("CREDENTIAL_FORMAT_INVALID"))
                && disk == armed && posted == old(posted) && grant == old(grant)
              else
                && posted == old(posted) + {Rotation(armed.token, nonce)}
                && (call.crash == Some(3) ==> failure == Some(Crashed) && disk == armed && grant == old(grant))
                && (call.crash != Some(3) ==> AnswerTaken(armed, old(grant), call, posted, failure, disk, grant))
      ensures Works(call, start) ==>
                (Alive(old(disk), old(grant), call, start) && old(grant).current == old(disk).token ==>
                   failure.None?)
    {
      ValidIsPaired();
      if disk.pendingNonce.None? {
        SaveNonce(call.nonce);
      }
      if call.crash == Some(2) { return Some(Crashed); }
      var nonce := disk.pendingNonce.value;
      if !NonceShape(nonce) {
        return Some(Failed("CREDENTIAL_FORMAT_INVALID"));
      }
      failure := Exchange(call, start);
    }

    /** The pending rotation is posted, and its answer taken unless the process dies in between. */
    method Exchange(call: Call, ghost start: int) returns (failure: Option<Outcome>)
      requires Valid() && disk.pendingNonce.Some? && NonceShape(disk.pendingNonce.value)
      modifies this`disk, this`grant, this`held, this`posted, this`steps
      ensures Valid() && old(steps) <= steps
      ensures failure.None? ==>
                disk.pendingNonce.None? && disk.rotatedAt == call.now && call.now < disk.expiresAt
      ensures failure != Some(Done)
      ensures posted == old(posted) + {Rotation(old(disk).token, old(disk).pendingNonce.value)}
      ensures call.crash == Some(3) ==> failure == Some(Crashed) && disk == old(disk) && grant == old(grant)
      ensures call.crash != Some(3) ==> AnswerTaken(old(disk), old(grant), call, posted, failure, disk, grant)
      ensures Works(call, start) ==>
                (Alive(old(disk), old(grant), call, start) && old(grant).current == old(disk).token ==>
                   failure.None?)
    {
      PostPending();
      if call.crash == Some(3) { return Some(Crashed); }
      failure := AwaitReply(call, start);
    }

    /**
     * What comes of a posted rotation: only an accepted one whose answer arrives in time changes the file, into
     * the credential that the server then holds; any other keeps the file with its nonce and ends the call.
     */
    ghost predicate AnswerTaken(armed: Credential, server: Grant, call: Call, posted: set<Rotation>,
                                failure: Option<Outcome>, file: Credential, after: Grant)
      requires armed.pendingNonce.Some?
    {
      var arrived := GrantAfter(server, posted, call.beforeRotate);
      var handled := Rotate(arrived, Rotation(armed.token, armed.pendingNonce.value), call.rotateAt);
      && after == (if call.rotate.NotDelivered? then arrived else handled.1)
      && (failure.None? <==> call.rotate.Answered? && handled.0 && after.expiresAt > call.now && call.crash != Some(4))
      && file == (if failure.None? then Credential(after.current, after.expiresAt, call.now, None) else armed)
      && (!call.rotate.Answered? ==> failure == Some(Failed("REQUEST_OUTCOME_UNKNOWN")))
      && (call.rotate.Answered? && !handled.0 ==> failure == Some(Failed("HTTP_401")))
      && (call.rotate.Answered? && handled.0 && after.expiresAt <= call.now ==>
            failure == Some(Failed("ROTATION_RESPONSE_INVALID")))
      && (failure == Some(Crashed) ==> call.crash == Some(4))
    }

    /** The posted rotation reaches the server, perhaps after late messages, and is answered. */
    method AwaitReply(call: Call, ghost start: int) returns (failure: Option<Outcome>)
      requires Valid() && disk.pendingNonce.Some? && NonceShape(disk.pendingNonce.value)
      requires Rotation(disk.token, disk.pendingNonce.value) in posted
      modifies this`disk, this`grant, this`held, this`steps
      ensures Valid() && old(steps) <= steps
      ensures failure.None? ==>
                disk.pendingNonce.None? && disk.rotatedAt == call.now && call.now < disk.expiresAt
      ensures failure != Some(Done)
      ensures AnswerTaken(old(disk), old(grant), call, posted, failure, disk, grant)
      ensures Works(call, start) ==>
                (Alive(old(disk), old(grant), call, start) && old(grant).current == old(disk).token ==>
                   failure.None?)
    {
      Arrive(call.beforeRotate, start);
      if call.rotate.NotDelivered? {
        return Some(Failed("REQUEST_OUTCOME_UNKNOWN"));
      }
      var accepted := Handle(Rotation(disk.token, disk.pendingNonce.value), call.rotateAt);
      if call.rotate.ReplyLost? {
        return Some(Failed("REQUEST_OUTCOME_UNKNOWN"));
      }
      if !accepted {
        return Some(Failed("HTTP_401"));
      }
      if grant.expiresAt <= call.now {
        return Some(Failed("ROTATION_RESPONSE_INVALID"));
      }
      ValidIsPaired();
      var data := Credential(grant.current, grant.expiresAt, call.now, None);
      if call.crash == Some(4) { return Some(Crashed); }
      SaveSuccessor(data);
      failure := None;
    }

    /** How a business request goes out: alone and last, with the server's current, unexpired, recent token. */
    twostate predicate SendsAtMostOnce(call: Call)
      reads this
    {
      || sent == old(sent)
      || (&& sent == old(sent) + [disk.token]
          && disk.pendingNonce.None? && disk.token == grant.current
          && call.now - disk.rotatedAt < ROTATION_SECONDS && call.now < disk.expiresAt)
    }

    /** Only the token in the file is rotated, with its pending nonce if it has one, and not without an answer. */
    twostate predicate RotatesAtMostOnce(call: Call, outcome: Outcome)
      reads this
    {
      var nonce := if old(disk).pendingNonce.Some? then old(disk).pendingNonce.value else call.nonce;
      && (posted == old(posted)
          || (posted == old(posted) + {Rotation(old(disk).token, nonce)} && old(disk).expiresAt > call.now))
      && (posted != old(posted) && !call.rotate.Answered? ==>
            && sent == old(sent) && disk == old(disk).(pendingNonce := Some(nonce))
            && (outcome.Crashed? || outcome == Failed("REQUEST_OUTCOME_UNKNOWN")))
    }

    /** How a call ends: done exactly after an answered business request, and a crash sends nothing. */
    twostate predicate EndsTruly(call: Call, outcome: Outcome)
      reads this
    {
      && (outcome.Done? <==> sent != old(sent) && call.business.Answered?)
      && (sent != old(sent) && !outcome.Done? ==> outcome == Failed("REQUEST_OUTCOME_UNKNOWN"))
      && (outcome.Crashed? ==> call.crash.Some? && sent == old(sent))
    }

    /** The rest of a call, after the recovery: rotate if that is due, then send. */
    method Proceed(call: Call, ghost start: int) returns (outcome: Outcome)
      requires Valid()
      modifies this
      ensures Valid() && old(steps) <= steps
      ensures SendsAtMostOnce(call) && RotatesAtMostOnce(call, outcome) && EndsTruly(call, outcome)
      ensures old(disk).pendingNonce.None? && call.now - old(disk).rotatedAt < ROTATION_SECONDS ==>
                posted == old(posted) && disk == old(disk) && grant == old(grant)
      ensures old(disk).expiresAt <= call.now ==>
                Now() == old(Now()) && (outcome.Crashed? || outcome == Failed("CREDENTIAL_EXPIRED"))
      ensures (Works(call, start) && Alive(old(disk), old(grant), call, start)
               && old(grant).current == old(disk).token) ==> outcome.Done?
    {
      if call.crash == Some(1) { return Crashed; }
      ValidIsPaired();
      if disk.expiresAt <= call.now {
        return Failed("CREDENTIAL_EXPIRED");
      }
      if disk.pendingNonce.Some? || call.now - disk.rotatedAt >= ROTATION_SECONDS {
        var failure := Renew(call, start);
        if failure.Some? {
          return failure.value;
        }
      }
      if call.crash == Some(5) { return Crashed; }
      ValidIsPaired();
      ghost var before := Now();
      sent := sent + [disk.token];
      Record(Send, before);
      outcome := if call.business.Answered? then Done else Failed("REQUEST_OUTCOME_UNKNOWN");
    }

    /**
     * One call. Whatever happens during it, the state remains one that the protocol reaches; the
     * business request is sent at most once, as the very last action, with no nonce pending and
     * with the server's current token, unexpired and less than a day old; a token that is not due
     * is not rotated; and a call during which the network works succeeds from any
     * reachable state whose lease is alive. A file that is refused, or expired with nothing to recover, changes
     * and sends nothing, and an exchange that is not answered ends the call.
     */
    method Request(call: Call, ghost start: int) returns (outcome: Outcome)
      requires Valid()
      modifies this
      ensures Valid() && old(steps) <= steps
      ensures SendsAtMostOnce(call) && RotatesAtMostOnce(call, outcome) && EndsTruly(call, outcome)
      ensures old(disk).pendingNonce.None? && call.now - old(disk).rotatedAt < ROTATION_SECONDS ==>
                posted == old(posted) && disk == old(disk) && grant == old(grant)
      ensures old(disk).rotatedAt > call.now + 300 ==>
                outcome == Failed("CREDENTIAL_CLOCK_INVALID") && Now() == old(Now())
      ensures (old(disk).rotatedAt <= call.now + 300
               && old(disk).pendingNonce.Some? && !NonceShape(old(disk).pendingNonce.value)) ==>
                outcome == Failed("CREDENTIAL_FORMAT_INVALID") && Now() == old(Now())
      ensures old(disk).pendingNonce.Some? && !call.probe.Answered? ==>
                outcome.Failed? && posted == old(posted) && disk == old(disk) && sent == old(sent)
      ensures (old(disk).rotatedAt <= call.now + 300
               && old(disk).pendingNonce.Some? && NonceShape(old(disk).pendingNonce.value) && !call.probe.Answered?) ==>
                outcome == Failed("REQUEST_OUTCOME_UNKNOWN")
      ensures (old(disk).rotatedAt <= call.now + 300
               && old(disk).pendingNonce.None? && old(disk).expiresAt <= call.now) ==>
                Now() == old(Now()) && (outcome.Crashed? || outcome == Failed("CREDENTIAL_EXPIRED"))
      ensures sent != old(sent) ==>
                && (old(disk).pendingNonce.Some? ==> call.probe.Answered?)
                && (posted != old(posted) ==> call.rotate.Answered?)
      ensures Works(call, start) && Alive(old(disk), old(grant), call, start) ==> outcome.Done?
    {
      if disk.rotatedAt > call.now + 300 {
        return Failed("CREDENTIAL_CLOCK_INVALID");
      }
      var failure := Probe(call, start);
      if failure.Some? {
        return failure.value;
      }
      outcome := Proceed(call, start);
    }
  }
}
