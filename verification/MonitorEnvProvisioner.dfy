/** The provisioner's three operations, step by step, each able to fail or die at every write. */
module MonitorEnvProvisioner {
  import opened Prelude
  import opened JsonText
  import opened PythonText
  import opened MonitorEnvText
  import opened MonitorEnvProtocol

  /** How one atomic write or removal ends: `Late` means after it took effect. */
  datatype Fate = Good | FailsEarly | FailsLate | DiesEarly | DiesLate

  /** The fates of the four writes that an operation may perform. */
  datatype Writes = Writes(state: Fate, target: Fate, restore: Fate, clear: Fate)

  datatype Outcome = Pass | Failed(code: string) | Died

  class Provisioner {
    const binding: Binding
    var target: Option<Content>
    var state: Option<State>
    // The shared environment file of the API, which must not set the monitor's keys.
    var shared: Option<Content>
    // The run of the protocol since the disk was handed over.
    ghost const origin: World
    ghost var steps: seq<Step>

    ghost function Now(): World
      reads this
    {
      World(target, state)
    }

    ghost predicate Valid()
      reads this
    {
      Run(origin, steps) && After(origin, steps) == Now()
    }

    constructor (binding: Binding, target: Option<Content>, state: Option<State>, shared: Option<Content>)
      ensures Valid() && steps == [] && origin == World(target, state)
      ensures this.binding == binding && this.target == target && this.state == state && this.shared == shared
    {
      this.binding, this.target, this.state, this.shared := binding, target, state, shared;
      origin := World(target, state);
      steps := [];
    }

    ghost method Record(step: Step, before: World)
      requires Run(origin, steps) && After(origin, steps) == before
      requires Enabled(before, step) && Now() == Next(before, step)
      modifies this`steps
      ensures steps == old(steps) + [step] && Valid()
    {
      steps := steps + [step];
      assert steps[..|steps| - 1] == old(steps);
    }

    method WriteState(content: Content, fate: Fate) returns (done: Outcome)
      requires Valid() && state.None?
      modifies this`state, this`steps
      ensures Valid() && old(steps) <= steps
      ensures done == Ending(fate)
      ensures if TakesEffect(fate) then state == Some(State(binding, target, Sha256(content))) else state.None?
      ensures steps == if TakesEffect(fate) then old(steps) + [Snapshot(binding, content)] else old(steps)
    {
      if TakesEffect(fate) {
        ghost var before := Now();
        state := Some(State(binding, target, Sha256(content)));
        Record(Snapshot(binding, content), before);
      }
      done := Ending(fate);
    }

    method WriteTarget(content: Content, fate: Fate) returns (done: Outcome)
      requires Valid() && state.Some? && state.value.installed == Sha256(content)
      modifies this`target, this`steps
      ensures Valid() && old(steps) <= steps
      ensures done == Ending(fate)
      ensures target == if TakesEffect(fate) then Some(content) else old(target)
    {
      if TakesEffect(fate) {
        ghost var before := Now();
        target := Some(content);
        Record(Replace(content), before);
      }
      done := Ending(fate);
    }

    method RestoreTarget(fate: Fate) returns (done: Outcome)
      requires Valid() && state.Some? && HoldsInstalled(Now())
      modifies this`target, this`steps
      ensures Valid() && old(steps) <= steps
      ensures done == Ending(fate)
      ensures target == if TakesEffect(fate) then state.value.previous else old(target)
    {
      if TakesEffect(fate) {
        ghost var before := Now();
        target := state.value.previous;
        Record(Restore, before);
      }
      done := Ending(fate);
    }

    method ClearState(fate: Fate) returns (done: Outcome)
      requires Valid() && Enabled(Now(), Clear)
      modifies this`state, this`steps
      ensures Valid() && old(steps) <= steps
      ensures done == Ending(fate)
      ensures state == if TakesEffect(fate) then None else old(state)
    {
      if TakesEffect(fate) {
        ghost var before := Now();
        state := None;
        Record(Clear, before);
      }
      done := Ending(fate);
    }

    /**
     * Roll back: refused, without touching the disk, unless the state file is readable under this
     * binding and the target holds the installed bytes; otherwise the target gets back exactly the
     * previous content before the state file goes.
     */
    method Rollback(writes: Writes) returns (outcome: Outcome)
      requires Valid()
      modifies this`target, this`state, this`steps
      ensures Valid() && old(steps) <= steps
      ensures outcome.Pass? <==>
                CanRollBack(old(Now()), binding) && writes.restore.Good? && writes.clear.Good?
      ensures CanRollBack(old(Now()), binding) <==>
                && old(state).Some? && old(state).value.binding == binding && StateSize(old(state).value) <= 131072
                && (old(state).value.previous.Some? ==> Size(old(state).value.previous.value) <= 65536)
                && old(target).Some? && Size(old(target).value) <= 65536
                && old(state).value.installed == Sha256(old(target).value)
      ensures outcome.Pass? ==> target == old(state).value.previous && state.None?
      ensures !CanRollBack(old(Now()), binding) ==> outcome.Failed? && Now() == old(Now())
      ensures state.Some? ==> state == old(state)
      ensures state.None? && old(state).Some? ==> target == old(state).value.previous
      ensures target == old(target) || (old(state).Some? && target == old(state).value.previous)
    {
      if state.None? {
        return Failed("MONITOR_ENV_REQUIRED_FILE_MISSING");
      }
      if !Readable(state.value, binding) {
        return Failed("MONITOR_ENV_ROLLBACK_STATE_INVALID");
      }
      if target.None? {
        return Failed("MONITOR_ENV_REQUIRED_FILE_MISSING");
      }
      if Size(target.value) > MAX_INPUT_BYTES {
        return Failed("MONITOR_ENV_FILE_TOO_LARGE");
      }
      if Sha256(target.value) != state.value.installed {
        return Failed("MONITOR_ENV_ROLLBACK_TARGET_MISMATCH");
      }
      outcome := RestoreTarget(writes.restore);
      if !outcome.Pass? {
        return;
      }
      outcome := ClearState(writes.clear);
    }

    /** Whether the shared file can be read and sets none of the monitor's keys. */
    predicate SharedClean()
      reads this
    {
      && shared.Some? && Size(shared.value) <= MAX_INPUT_BYTES && shared.value.Text?
      && var names := Names(SplitLines(shared.value.text));
         names.Ok? && forall key | key in MONITOR_KEYS :: key !in names.value
    }

    /** What install asks of the disk before it writes anything. */
    predicate CanInstall()
      reads this
    {
      && SharedClean() && state.None?
      && (target.Some? ==> Size(target.value) <= MAX_INPUT_BYTES)
    }

    /** The shared file is readable text without either key, nothing is pending, and what is kept is not too large. */
    lemma CanInstallExactly()
      ensures SharedClean() <==>
                && shared.Some? && shared.value.Text? && Size(shared.value) <= 65536
                && Names(SplitLines(shared.value.text)).Ok?
                && "MONITOR_HEALTH_READ_DATABASE_URL" !in Names(SplitLines(shared.value.text)).value
                && "MONITOR_HEALTH_READ_EXPECTED_ROLE" !in Names(SplitLines(shared.value.text)).value
      ensures CanInstall() <==> SharedClean() && state.None? && (target.Some? ==> Size(target.value) <= 65536)
    {
      assert URL_KEY in MONITOR_KEYS && ROLE_KEY in MONITOR_KEYS;
    }

    /**
     * Install: announce the content in the state file, put it in place, read it back, and roll back
     * on any failure after the announcement. It passes exactly when nothing is pending, the disk is
     * in order, the writes succeed and the rendered file reads back as the two keys. A failure that
     * is neither a crash nor reported as needing a rollback leaves the disk as it was, except when
     * writing the state file fails after taking effect.
     */
    method Install(p: Payload, urlParts: bool, writes: Writes) returns (outcome: Outcome)
      requires Valid()
      modifies this`target, this`state, this`steps
      ensures Valid() && old(steps) <= steps
      ensures outcome.Pass? <==>
                && Accepted(p, urlParts) && old(CanInstall())
                && writes.state.Good? && writes.target.Good?
                && SetsMonitorKeys(Render(p))
      ensures outcome.Pass? ==>
                && target == Some(Text(Render(p)))
                && state == Some(State(binding, old(target), Sha256(Text(Render(p)))))
      ensures outcome.Pass? ==> (StateSize(state.value) <= MAX_STATE_BYTES ==> CanRollBack(Now(), binding))
      ensures !(Accepted(p, urlParts) && old(CanInstall())) ==> outcome.Failed? && Now() == old(Now())
      ensures old(state).None? && state.Some? ==>
                && state == Some(State(binding, old(target), Sha256(Text(Render(p)))))
                && (target == old(target) || target == Some(Text(Render(p))))
      ensures old(state).None? && state.None? ==> target == old(target)
      ensures outcome.Failed? && outcome.code != "MONITOR_ENV_ROLLBACK_REQUIRED" && !writes.state.FailsLate? ==>
                Now() == old(Now())
    {
      if !Accepted(p, urlParts) {
        return Failed("MONITOR_ENV_INPUT_INVALID");
      }
      AcceptedFits(p, urlParts);
      var expected := Text(Render(p));
      if !SharedClean() {
        return Failed("MONITOR_ENV_KEY_LEAK_IN_SHARED_API_ENV");
      }
      if state.Some? {
        return Failed("MONITOR_ENV_TRANSACTION_PENDING");
      }
      if target.Some? && Size(target.value) > MAX_INPUT_BYTES {
        return Failed("MONITOR_ENV_FILE_TOO_LARGE");
      }
      outcome := Transact(expected, writes);
    }

    /** The writes of install, with its own rollback when anything fails after the announcement. */
    method Transact(expected: Content, writes: Writes) returns (outcome: Outcome)
      requires Valid() && state.None? && expected.Text? && Size(expected) <= MAX_INPUT_BYTES
      requires target.Some? ==> Size(target.value) <= MAX_INPUT_BYTES
      modifies this`target, this`state, this`steps
      ensures Valid() && old(steps) <= steps
      ensures outcome.Pass? <==>
                && writes.state.Good? && writes.target.Good?
                && SetsMonitorKeys(expected.text)
      ensures outcome.Pass? ==>
                target == Some(expected) && state == Some(State(binding, old(target), Sha256(expected)))
      ensures outcome.Pass? ==> (StateSize(state.value) <= MAX_STATE_BYTES ==> CanRollBack(Now(), binding))
      ensures state.Some? ==>
                && state == Some(State(binding, old(target), Sha256(expected)))
                && (target == old(target) || target == Some(expected))
      ensures state.None? ==> target == old(target)
      ensures outcome.Failed? && outcome.code != "MONITOR_ENV_ROLLBACK_REQUIRED" && !writes.state.FailsLate? ==>
                Now() == old(Now())
    {
      outcome := WriteState(expected, writes.state);
      if !outcome.Pass? {
        return;
      }
      outcome := PutInPlace(expected, writes);
      if outcome.Failed? {
        var undone := Rollback(writes);
        if undone.Died? {
          outcome := Died;
        } else if undone.Failed? {
          outcome := Failed("MONITOR_ENV_ROLLBACK_REQUIRED");
        }
      }
    }

    /** The guarded part of install: replace the target and read it back. */
    method PutInPlace(expected: Content, writes: Writes) returns (outcome: Outcome)
      requires Valid() && state.Some? && state.value.installed == Sha256(expected) && expected.Text?
      requires Size(expected) <= MAX_INPUT_BYTES
      modifies this`target, this`steps
      ensures Valid() && old(steps) <= steps
      ensures outcome.Pass? <==> writes.target.Good? && SetsMonitorKeys(expected.text)
      ensures outcome.Failed? ==> outcome.code != "MONITOR_ENV_ROLLBACK_REQUIRED"
      ensures target == if TakesEffect(writes.target) then Some(expected) else old(target)
      ensures outcome.Died? <==> writes.target.DiesEarly? || writes.target.DiesLate?
    {
      outcome := WriteTarget(expected, writes.target);
      if !outcome.Pass? {
        return;
      }
      var names := EnvKeyNames(target.value.text);
      if names != Ok(MONITOR_KEYS) {
        return Failed("MONITOR_ENV_READBACK_INVALID");
      }
    }

    /** Commit: end the transaction and keep the installed bytes; refused unless they are in place. */
    method Commit(writes: Writes) returns (outcome: Outcome)
      requires Valid()
      modifies this`state, this`steps
      ensures Valid() && old(steps) <= steps
      ensures outcome.Pass? <==> SharedClean() && CanCommit(old(Now()), binding) && writes.clear.Good?
      ensures outcome.Pass? ==>
                && state.None? && old(state).Some? && old(state).value.binding == binding
                && target.Some? && target.value.Text? && Size(target.value) <= 65536
                && Sha256(target.value) == old(state).value.installed && SetsMonitorKeys(target.value.text)
      ensures !(SharedClean() && CanCommit(old(Now()), binding)) ==> outcome.Failed? && Now() == old(Now())
    {
      if !SharedClean() {
        return Failed("MONITOR_ENV_KEY_LEAK_IN_SHARED_API_ENV");
      }
      if target.None? {
        return Failed("MONITOR_ENV_REQUIRED_FILE_MISSING");
      }
      if Size(target.value) > MAX_INPUT_BYTES {
        return Failed("MONITOR_ENV_FILE_TOO_LARGE");
      }
      if target.value.Binary? {
        return Failed("MONITOR_ENV_FORMAT_INVALID");
      }
      var names := EnvKeyNames(target.value.text);
      if names != Ok(MONITOR_KEYS) {
        return Failed("MONITOR_ENV_READBACK_INVALID");
      }
      if state.None? {
        return Failed("MONITOR_ENV_REQUIRED_FILE_MISSING");
      }
      if !Readable(state.value, binding) {
        return Failed("MONITOR_ENV_ROLLBACK_STATE_INVALID");
      }
      if Sha256(target.value) != state.value.installed {
        return Failed("MONITOR_ENV_READBACK_INVALID");
      }
      outcome := ClearState(writes.clear);
    }

    /**
     * After an installation that passed, a rollback passes, and puts the disk back exactly as it was, if
     * and only if the state file that the installation writes is short enough to be read back.
     */
    method InstallThenRollback(p: Payload, urlParts: bool) returns (installed: Outcome, undone: Outcome)
      requires Valid()
      modifies this`target, this`state, this`steps
      ensures Valid()
      ensures installed.Pass? ==>
                (undone.Pass? <==> StateSize(State(binding, old(target), Sha256(Text(Render(p))))) <= MAX_STATE_BYTES)
      ensures installed.Pass? && undone.Pass? ==> Now() == old(Now())
    {
      installed := Install(p, urlParts, Writes(Good, Good, Good, Good));
      undone := Rollback(Writes(Good, Good, Good, Good));
    }
  }

  lemma AcceptedFits(p: Payload, urlParts: bool)
    requires Accepted(p, urlParts)
    ensures Size(Text(Render(p))) <= MAX_INPUT_BYTES
  {
    Utf8SizeAtMost(p.role);
    RenderFits(p);
  }

  lemma HashKeepsLength(text: string, length: nat)
    requires IsHash(text, length)
    ensures JsonSize(text) == length
  {
    UnescapedKeepsLength(text);
  }

  lemma BindingFixed(binding: Binding)
    requires IsBinding(binding)
    ensures BindingSize(binding) == JsonSize(binding.authorizationId) + 144
  {
    HashKeepsLength(binding.sourceSha, 40);
    HashKeepsLength(binding.sourceTree, 40);
    HashKeepsLength(binding.trustedInventorySha256, 64);
  }

  /**
   * Whatever is to be kept, the state file can be read back when the JSON text of the identifier has up to
   * 43,210 characters; with the longest content that may be kept, for no longer one; and with none to keep
   * exactly up to 130,688.
   */
  lemma LongestIdentifier(binding: Binding, previous: Content, installed: Digest)
    requires IsBinding(binding) && Size(previous) <= MAX_INPUT_BYTES
    ensures var length, kept := JsonSize(binding.authorizationId), StateSize(State(binding, Some(previous), installed));
            && (length <= 43210 ==> kept <= MAX_STATE_BYTES)
            && (Size(previous) == MAX_INPUT_BYTES && length > 43210 ==> kept > MAX_STATE_BYTES)
    ensures StateSize(State(binding, None, installed)) <= MAX_STATE_BYTES <==> JsonSize(binding.authorizationId) <= 130688
  {
    BindingFixed(binding);
    assert (Size(previous) + 2) / 3 * 4 <= 87384;
  }

  /** The shortest authority file for a binding whose identifier needs no escapes in it. */
  function AuthoritySize(binding: Binding): nat {
    Utf8Size(binding.authorizationId) + |binding.sourceSha| + |binding.sourceTree| + |binding.trustedInventorySha256| + 170
  }

  lemma SomeHash(length: nat) returns (text: string)
    ensures IsHash(text, length)
  {
    text := seq(length, _ => '0');
  }

  lemma SomeBinding(c: char, n: nat) returns (binding: Binding)
    requires !IsSpace(c) && n > 0
    ensures IsBinding(binding) && Repeats(binding.authorizationId, c) && |binding.authorizationId| == n
    ensures AuthoritySize(binding) == Utf8Size(binding.authorizationId) + 314
  {
    var short := SomeHash(40);
    var long := SomeHash(64);
    binding := Binding(seq(n, _ => c), short, short, long);
    assert !IsSpace(binding.authorizationId[0]);
  }

  lemma {:induction false} RepeatedUtf8(text: string, c: char)
    requires Repeats(text, c) && c < '\U{0800}'
    ensures Utf8Size(text) == if c < '\U{0080}' then |text| else 2 * |text|
  {
    if text != "" {
      RepeatedUtf8(text[1..], c);
    }
  }

  /** Such a binding, with a file to keep, within the 65,536 bytes that authority file and target may have. */
  lemma IdentifierCanBeTooLong(installed: Digest) returns (binding: Binding, previous: Content)
    ensures IsBinding(binding) && AuthoritySize(binding) <= MAX_INPUT_BYTES && Size(previous) <= MAX_INPUT_BYTES
    ensures Unescaped(binding.authorizationId) && |binding.authorizationId| == 43211
    ensures StateSize(State(binding, Some(previous), installed)) > MAX_STATE_BYTES
  {
    binding := SomeBinding('a', 43211);
    previous := Binary(seq(MAX_INPUT_BYTES, _ => 0));
    RepeatedSize(binding.authorizationId, 'a');
    RepeatedUtf8(binding.authorizationId, 'a');
    LongestIdentifier(binding, previous, installed);
  }

  /** Escapes make it possible with nothing to keep: 25,000 letters beyond ASCII. */
  lemma EscapesCanBeTooLong(installed: Digest) returns (binding: Binding)
    ensures IsBinding(binding) && AuthoritySize(binding) <= MAX_INPUT_BYTES && |binding.authorizationId| == 25000
    ensures StateSize(State(binding, None, installed)) > MAX_STATE_BYTES
  {
    binding := SomeBinding('\U{00E9}', 25000);
    RepeatedSize(binding.authorizationId, '\U{00E9}');
    RepeatedUtf8(binding.authorizationId, '\U{00E9}');
    LongestIdentifier(binding, Text(""), installed);
  }

  predicate TakesEffect(fate: Fate) {
    fate.Good? || fate.FailsLate? || fate.DiesLate?
  }

  /** Only an early end leaves no effect, and only a good one is reported as such. */
  lemma FatesExactly(fate: Fate)
    ensures TakesEffect(fate) <==> fate != FailsEarly && fate != DiesEarly
    ensures Ending(fate).Pass? <==> fate == Good
    ensures Ending(fate).Died? <==> fate == DiesEarly || fate == DiesLate
  {
  }

  function Ending(fate: Fate): Outcome {
    if fate.Good? then Pass
    else if fate.DiesEarly? || fate.DiesLate? then Died
    else Failed("OS_ERROR")
  }
}
