/** Rotation of the credential: file, network and server. */
module MaintenanceProtocol {
  // A successor token is a free term built from its parent and a nonce, so no token ever repeats.
  // Times are whole seconds.

  import opened Prelude
  import opened MaintenanceToken

  const ROTATION_SECONDS := 24 * 60 * 60
  const LEASE_SECONDS := 30 * 24 * 60 * 60
  const REPLAY_SECONDS := 2 * 60

  datatype Token = Issued(serial: nat) | Derived(parent: Token, nonce: string)

  function Depth(token: Token): nat {
    match token
    case Issued(_) => 0
    case Derived(parent, _) => Depth(parent) + 1
  }

  /** The private file of the client. */
  datatype Credential = Credential(token: Token, expiresAt: int, rotatedAt: int, pendingNonce: Option<string>)

  /** The row of the server's grant table; hashes are injective, so the hashed values stand for them. */
  datatype Grant = Grant(
    current: Token, previous: Option<Token>, nonce: Option<string>,
    replayUntil: int, expiresAt: int, revoked: bool)

  /** A rotate message; a late or repeated one may arrive at any time after it was posted. */
  datatype Rotation = Rotation(token: Token, nonce: string)

  /** Whether the server authenticates a bearer token. */
  predicate Authenticates(grant: Grant, token: Token, at: int) {
    !grant.revoked && grant.expiresAt > at && grant.current == token
  }

  /** Whether the server answers a rotate message with a token, and the record it then keeps. */
  function Rotate(grant: Grant, message: Rotation, at: int): (bool, Grant) {
    if !NonceShape(message.nonce) || grant.revoked || grant.expiresAt <= at then (false, grant)
    else if
      && grant.previous == Some(message.token) && grant.nonce == Some(message.nonce)
      && grant.current == Derived(message.token, message.nonce) && grant.replayUntil > at
    then (true, grant)
    else if grant.current != message.token then (false, grant)
    else
      (true, Grant(Derived(message.token, message.nonce), Some(message.token), Some(message.nonce),
                   at + REPLAY_SECONDS, at + LEASE_SECONDS, false))
  }

  /**
   * The server answers a well-formed message of a living grant exactly for the current token, or again for the
   * token and nonce of the rotation before, within its window; only the former changes the record.
   */
  lemma AnswersExactly(grant: Grant, message: Rotation, at: int)
    requires at < grant.expiresAt && !grant.revoked && NonceShape(message.nonce)
    ensures var first := grant.current == message.token;
            var again := grant.previous == Some(message.token) && grant.nonce == Some(message.nonce)
                         && grant.current == Derived(message.token, message.nonce) && at < grant.replayUntil;
            && (Rotate(grant, message, at).0 <==> first || again)
            && (!first ==> Rotate(grant, message, at).1 == grant)
            && (first ==>
                  Rotate(grant, message, at).1
                  == Grant(Derived(message.token, message.nonce), Some(message.token), Some(message.nonce),
                           at + 120, at + 2592000, false))
  {
    if grant.current == message.token {
      assert Depth(Derived(message.token, message.nonce)) == Depth(message.token) + 1;
    }
  }

  lemma RefusesOtherwise(grant: Grant, message: Rotation, at: int)
    requires at >= grant.expiresAt || grant.revoked || !NonceShape(message.nonce)
    ensures Rotate(grant, message, at) == (false, grant)
  {
  }

  /** After a rotation the same message gets the same answer for two minutes, and one with another nonce none. */
  lemma ReplayWindow(grant: Grant, message: Rotation, first: int, again: int, nonce: string)
    requires Rotate(grant, message, first).0 && grant.current == message.token && first <= again
    ensures var kept := Rotate(grant, message, first).1;
            && Rotate(kept, message, again) == (again < first + 120, kept)
            && (nonce != message.nonce ==> Rotate(kept, Rotation(message.token, nonce), again) == (false, kept))
  {
    assert Depth(Derived(message.token, message.nonce)) == Depth(message.token) + 1;
  }

  /**
   * Everything that survives a crash of the client, plus the history needed to state properties:
   * `posted` holds every rotate message ever sent, `held` the expiry that the server gave with each
   * token it ever made current, `sent` the bearer token of each business request.
   */
  datatype World = World(
    disk: Credential, grant: Grant, posted: set<Rotation>, held: map<Token, int>, sent: seq<Token>)

  datatype Step =
    | Arm(nonce: string)                  // the client makes a nonce durable
    | Post                                // the client posts the rotation of the pending nonce
    | Deliver(message: Rotation, at: int) // the network delivers any rotate message ever posted
    | Adopt(at: int)                      // the client saves a successor that the server has held
    | Send                                // the client sends a business request
    | Revoke                              // the owner revokes the grant

  /** The successor that the client derives from its own file. */
  function Successor(disk: Credential): Token
    requires disk.pendingNonce.Some?
  {
    Derived(disk.token, disk.pendingNonce.value)
  }

  predicate Enabled(w: World, step: Step) {
    match step
    case Arm(_) => w.disk.pendingNonce.None?
    case Post => w.disk.pendingNonce.Some?
    case Deliver(message, _) => message in w.posted
    case Adopt(_) => w.disk.pendingNonce.Some? && Successor(w.disk) in w.held
    case Send => w.disk.pendingNonce.None?
    case Revoke => true
  }

  function Next(w: World, step: Step): World
    requires Enabled(w, step)
  {
    match step
    case Arm(nonce) => w.(disk := w.disk.(pendingNonce := Some(nonce)))
    case Post => w.(posted := w.posted + {Rotation(w.disk.token, w.disk.pendingNonce.value)})
    case Deliver(message, at) =>
      var grant := Rotate(w.grant, message, at).1;
      w.(grant := grant, held := w.held[grant.current := grant.expiresAt])
    case Adopt(at) =>
      var token := Successor(w.disk);
      w.(disk := Credential(token, w.held[token], at, None))
    case Send => w.(sent := w.sent + [w.disk.token])
    case Revoke => w.(grant := w.grant.(revoked := true))
  }

  /** The owner has installed a freshly issued credential. */
  predicate Initial(w: World) {
    && w.disk.token.Issued? && w.disk.pendingNonce.None?
    && w.grant.current == w.disk.token && w.grant.expiresAt == w.disk.expiresAt
    && w.grant.previous.None? && w.grant.nonce.None?
    && w.posted == {} && w.held == map[w.disk.token := w.disk.expiresAt] && w.sent == []
  }

  /** The steps can be taken in order from `w`. */
  predicate Run(w: World, steps: seq<Step>)
    decreases |steps|, 0
  {
    steps == [] || (Run(w, steps[..|steps| - 1]) && Enabled(After(w, steps[..|steps| - 1]), steps[|steps| - 1]))
  }

  function After(w: World, steps: seq<Step>): World
    requires Run(w, steps)
    decreases |steps|, 1
  {
    if steps == [] then w else Next(After(w, steps[..|steps| - 1]), steps[|steps| - 1])
  }

  /** The server's current token is on disk, or is the one that the file derives. */
  predicate Recoverable(w: World) {
    || w.grant.current == w.disk.token
    || (w.disk.pendingNonce.Some? && w.grant.current == Successor(w.disk))
  }

  /** What every step keeps. */
  predicate Inv(w: World) {
    && Recoverable(w)
    && (forall m | m in w.posted ::
          || Depth(m.token) < Depth(w.disk.token)
          || (m.token == w.disk.token && w.disk.pendingNonce == Some(m.nonce)))
    && (forall t | t in w.held :: Depth(t) <= Depth(w.grant.current))
    && w.grant.current in w.held && w.held[w.grant.current] == w.grant.expiresAt
    && (w.grant.current == w.disk.token ==> w.grant.expiresAt == w.disk.expiresAt)
  }

  lemma StepKeepsInv(w: World, step: Step)
    requires Inv(w) && Enabled(w, step)
    ensures Inv(Next(w, step))
  {
    if step.Adopt? {
      assert Depth(Successor(w.disk)) == Depth(w.disk.token) + 1;
      assert w.grant.current == Successor(w.disk);
    }
  }

  lemma {:induction false} RunKeepsInv(w: World, steps: seq<Step>)
    requires Initial(w) && Run(w, steps)
    ensures Inv(After(w, steps))
  {
    if steps != [] {
      var before := steps[..|steps| - 1];
      RunKeepsInv(w, before);
      StepKeepsInv(After(w, before), steps[|steps| - 1]);
    }
  }

  /**
   * However crashes, lost replies and late messages interleave, the credential is never lost; and
   * whenever no nonce is pending the file holds exactly the server's token and its expiry.
   */
  lemma CredentialNeverLost(w: World, steps: seq<Step>)
    requires Initial(w) && Run(w, steps)
    ensures Recoverable(After(w, steps))
    ensures After(w, steps).disk.pendingNonce.None? ==>
              && After(w, steps).grant.current == After(w, steps).disk.token
              && After(w, steps).grant.expiresAt == After(w, steps).disk.expiresAt
  {
    RunKeepsInv(w, steps);
  }

  /** Every business request of every run carries the token that is current when it is sent. */
  lemma RequestsCarryCurrentToken(w: World, steps: seq<Step>, i: nat)
    requires Initial(w) && Run(w, steps) && i < |steps| && steps[i] == Send
    ensures Run(w, steps[..i])
    ensures After(w, steps[..i]).disk.token == After(w, steps[..i]).grant.current
  {
    RunPrefix(w, steps, i + 1);
    assert steps[..i + 1][..i] == steps[..i];
    CredentialNeverLost(w, steps[..i]);
  }

  lemma {:induction false} RunPrefix(w: World, steps: seq<Step>, i: nat)
    requires Run(w, steps) && i <= |steps|
    ensures Run(w, steps[..i])
  {
    if i < |steps| {
      RunPrefix(w, steps[..|steps| - 1], i);
      assert steps[..|steps| - 1][..i] == steps[..i];
    } else {
      assert steps[..i] == steps;
    }
  }

  /**
   * A rotate message that arrives after its token was replaced on disk changes nothing at the
   * server, however late or often it comes.
   */
  lemma LateMessageIsHarmless(w: World, steps: seq<Step>, message: Rotation, at: int)
    requires Initial(w) && Run(w, steps)
    requires message in After(w, steps).posted && message.token != After(w, steps).disk.token
    ensures Rotate(After(w, steps).grant, message, at).1 == After(w, steps).grant
  {
    RunKeepsInv(w, steps);
  }
}
