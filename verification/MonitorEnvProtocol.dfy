/** Install, rollback and commit as steps over two files. */
module MonitorEnvProtocol {
  // Every step is one atomic replacement or removal, so the process may die between any two of them.

  import opened Prelude
  import opened JsonText
  import opened MonitorEnvText
  import opened PythonText

  const MAX_INPUT_BYTES := 65536
  const MAX_STATE_BYTES := 131072

  /** The content of a file: text, or bytes that are not UTF-8. */
  datatype Content = Text(text: string) | Binary(bytes: seq<byte>)

  function Size(content: Content): nat {
    match content
    case Text(text) => Utf8Size(text)
    case Binary(bytes) => |bytes|
  }

  /** SHA-256, taken to be injective. */
  datatype Digest = Sha256(of: Content)

  /** The authority a transaction is bound to. */
  datatype Binding = Binding(
    authorizationId: string, sourceSha: string, sourceTree: string, trustedInventorySha256: string)

  predicate IsHash(text: string, length: nat) {
    |text| == length && IsHex(text)
  }

  /** `_validate_binding`: the identifier is any text that is not blank. */
  predicate IsBinding(b: Binding) {
    && (exists i | 0 <= i < |b.authorizationId| :: !IsSpace(b.authorizationId[i]))
    && IsHash(b.sourceSha, 40) && IsHash(b.sourceTree, 40) && IsHash(b.trustedInventorySha256, 64)
  }

  /** An authority has an identifier that is not blank and three digests. */
  lemma BindingsExactly(b: Binding)
    ensures IsBinding(b) <==>
              && Strip(b.authorizationId) != "" && |b.sourceSha| == 40 && |b.sourceTree| == 40
              && |b.trustedInventorySha256| == 64
              && IsHex(b.sourceSha) && IsHex(b.sourceTree) && IsHex(b.trustedInventorySha256)
  {
    StripLeavesText(b.authorizationId);
  }

  function BindingSize(b: Binding): nat {
    JsonSize(b.authorizationId) + JsonSize(b.sourceSha) + JsonSize(b.sourceTree) + JsonSize(b.trustedInventorySha256)
  }

  /** The rollback state file: binding, content before the installation, digest of the installed one. */
  datatype State = State(binding: Binding, previous: Option<Content>, installed: Digest)

  /** The length of the state file's JSON text with its base64 copy of the previous content. */
  function StateSize(state: State): nat {
    BindingSize(state.binding) +
    match state.previous
    case None => 240
    case Some(content) => 334 + (Size(content) + 2) / 3 * 4
  }

  /** The checks of `_read_state`. */
  predicate Readable(state: State, binding: Binding) {
    && StateSize(state) <= MAX_STATE_BYTES
    && state.binding == binding
    && (state.previous.Some? ==> Size(state.previous.value) <= MAX_INPUT_BYTES)
  }

  datatype World = World(target: Option<Content>, state: Option<State>)

  datatype Step =
    | Snapshot(binding: Binding, content: Content) // write the state file, before anything else
    | Replace(content: Content)                    // put the announced content in place
    | Restore                                      // put the previous content back
    | Clear                                        // remove the state file, without another look at the target
    | Edit(foreign: Option<Content>)               // somebody else changes the target

  predicate HoldsInstalled(w: World)
    requires w.state.Some?
  {
    w.target.Some? && Sha256(w.target.value) == w.state.value.installed
  }

  predicate Enabled(w: World, step: Step) {
    match step
    case Snapshot(_, _) => w.state.None?
    case Replace(content) => w.state.Some? && w.state.value.installed == Sha256(content)
    case Restore => w.state.Some?
    case Clear => w.state.Some?
    case Edit(_) => true
  }

  function Next(w: World, step: Step): World
    requires Enabled(w, step)
  {
    match step
    case Snapshot(binding, content) => w.(state := Some(State(binding, w.target, Sha256(content))))
    case Replace(content) => w.(target := Some(content))
    case Restore => w.(target := w.state.value.previous)
    case Clear => w.(state := None)
    case Edit(foreign) => w.(target := foreign)
  }

  predicate Run(w: World, steps: seq<Step>)
    decreases |steps|, 0
  {
    steps == [] || (Run(w, steps[..|steps| - 1]) && Enabled(After(w, steps[..|steps| - 1]), steps[|steps| - 1]))
  }

  function After(w: World, steps: seq<Step>): World
    requires Run(w, steps)
    decreases |steps|, 1
  {
    if steps == [] then w else Next(After(w, steps[..|steps| - 1]), steps[|steps| - 1])
  }

  lemma {:induction false} RunPrefix(w: World, steps: seq<Step>, i: nat)
    requires Run(w, steps) && i <= |steps|
    ensures Run(w, steps[..i])
  {
    if i < |steps| {
      RunPrefix(w, steps[..|steps| - 1], i);
      assert steps[..|steps| - 1][..i] == steps[..i];
    } else {
      assert steps[..i] == steps;
    }
  }

  /** No transaction ends after position `i`. */
  predicate OpenSince(steps: seq<Step>, i: nat) {
    forall j | i < j < |steps| :: !steps[j].Clear?
  }

  /** Nobody else touches the target after position `i`. */
  predicate UndisturbedSince(steps: seq<Step>, i: nat) {
    forall j | i < j < |steps| :: !steps[j].Edit?
  }

  /**
   * From the moment a transaction opens and until it ends, at every point of every run: the state
   * file holds exactly the content the target had when it opened, even if somebody else changes the
   * target meanwhile; and if nobody does, the target holds that content or the installed one.
   */
  lemma {:induction false} PreviousContentKept(w: World, steps: seq<Step>, i: nat)
    requires Run(w, steps) && i < |steps| && steps[i].Snapshot? && OpenSince(steps, i)
    ensures Run(w, steps[..i])
    ensures After(w, steps).state
         == Some(State(steps[i].binding, After(w, steps[..i]).target, Sha256(steps[i].content)))
    ensures UndisturbedSince(steps, i) ==>
              || After(w, steps).target == After(w, steps[..i]).target
              || After(w, steps).target == Some(steps[i].content)
  {
    RunPrefix(w, steps, i);
    var before := steps[..|steps| - 1];
    if i == |steps| - 1 {
      assert before == steps[..i];
    } else {
      assert before[..i] == steps[..i];
      PreviousContentKept(w, before, i);
    }
  }

  /** A second transaction cannot open while one is pending. */
  lemma NoNestedTransaction(w: World, steps: seq<Step>, i: nat, j: nat)
    requires Run(w, steps) && i < j < |steps| && steps[i].Snapshot? && steps[j].Snapshot?
    ensures exists k :: i < k < j && steps[k].Clear?
  {
    if forall k | i < k < j :: !steps[k].Clear? {
      RunPrefix(w, steps, j + 1);
      assert steps[..j + 1][..j] == steps[..j];
      PreviousContentKept(w, steps[..j], i);
    }
  }

  /**
   * When an undisturbed transaction ends, the target holds either exactly what it held before the
   * transaction or exactly what was installed.
   */
  lemma TransactionIsAtomic(w: World, steps: seq<Step>, i: nat, j: nat)
    requires Run(w, steps) && i < j < |steps| && steps[i].Snapshot? && steps[j].Clear?
    requires OpenSince(steps[..j], i) && UndisturbedSince(steps[..j], i)
    ensures Run(w, steps[..i]) && Run(w, steps[..j + 1])
    ensures After(w, steps[..j + 1]).state.None?
    ensures || After(w, steps[..j + 1]).target == After(w, steps[..i]).target
            || After(w, steps[..j + 1]).target == Some(steps[i].content)
  {
    RunPrefix(w, steps, j + 1);
    assert steps[..j + 1][..j] == steps[..j] && steps[..j][..i] == steps[..i];
    RunPrefix(w, steps, j);
    PreviousContentKept(w, steps[..j], i);
  }

  /** What rollback and commit ask of the disk before they touch it. */
  predicate CanRollBack(w: World, binding: Binding) {
    && w.state.Some? && Readable(w.state.value, binding)
    && HoldsInstalled(w) && Size(w.target.value) <= MAX_INPUT_BYTES
  }

  predicate CanCommit(w: World, binding: Binding) {
    && CanRollBack(w, binding)
    && w.target.value.Text? && SetsMonitorKeys(w.target.value.text)
  }

  /**
   * A crash between the state file and the target, or between restoring and removing the state,
   * leaves a transaction that no operation can end: the content is safe, but the target does not
   * hold the installed bytes, so rollback and commit refuse, and install finds a pending one. While
   * the transaction is open and undisturbed this happens exactly when the target still, or again,
   * holds a previous content that differs from the installed one.
   */
  lemma StuckExactlyWhenPreviousInPlace(w: World, steps: seq<Step>, i: nat)
    requires Run(w, steps) && i < |steps| && steps[i].Snapshot?
    requires OpenSince(steps, i) && UndisturbedSince(steps, i)
    requires StateSize(After(w, steps).state.value) <= MAX_STATE_BYTES
    requires Size(steps[i].content) <= MAX_INPUT_BYTES
    requires Run(w, steps[..i])
    requires After(w, steps[..i]).target.Some? ==> Size(After(w, steps[..i]).target.value) <= MAX_INPUT_BYTES
    ensures CanRollBack(After(w, steps), steps[i].binding) <==>
              !(&& After(w, steps).target == After(w, steps[..i]).target
                && After(w, steps[..i]).target != Some(steps[i].content))
  {
    PreviousContentKept(w, steps, i);
  }

  lemma RunOfOne(w: World, step: Step)
    requires Enabled(w, step)
    ensures Run(w, [step]) && After(w, [step]) == Next(w, step)
  {
    var none: seq<Step> := [];
    assert [step][..0] == none;
    assert Run(w, none) && After(w, none) == w;
  }

  /** Such a stuck transaction is one crash away from any quiet disk. */
  lemma CrashCanStick(target: Option<Content>, binding: Binding, content: Content)
    requires target != Some(content)
    ensures Run(World(target, None), [Snapshot(binding, content)])
    ensures var stuck := After(World(target, None), [Snapshot(binding, content)]);
            stuck.state.Some? && !CanRollBack(stuck, binding) && !CanCommit(stuck, binding)
  {
    RunOfOne(World(target, None), Snapshot(binding, content));
  }
}
