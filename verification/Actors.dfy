/** The actor protocol (src/actors): any number of clients that ask one request after another, a
    certificate issuer that keeps its mailbox waiting while it awaits a signature, and a
    gpg-agent session and a Yggdrasil key that hand each message to a task of its own. One step
    is what an actor, a task or a client does between two suspension points; the interleaving
    is arbitrary. */
module Actors {
  import opened ByteStrings

  datatype Actor = Issuer | Session | Key

  datatype Kind =
    | IssueAuthority | IssueServer | IssueNode | VerifyChain   // CertificateIssuer
    | ReadPublicKey | SignHash                                 // GpgAgentSession
    | EnsureIdentity | ReadProjection                          // YggdrasilKey

  function ActorOf(kind: Kind): Actor {
    match kind
    case IssueAuthority | IssueServer | IssueNode | VerifyChain => Issuer
    case ReadPublicKey | SignHash => Session
    case EnsureIdentity | ReadProjection => Key
  }

  predicate Signs(kind: Kind) {
    kind.IssueAuthority? || kind.IssueServer? || kind.IssueNode?
  }

  /** The `index`-th ask of a client; a signature asked on behalf of an issue carries its name. */
  datatype Id = Id(client: nat, index: nat)

  /** A message, by its kind and the ask it belongs to. */
  datatype Message = Message(kind: Kind, id: Id)

  datatype Event = Received(kind: Kind, id: Id) | Replied(kind: Kind, id: Id)

  /** Where the current ask of a client is. */
  datatype Phase =
    | Idle
    | Queued                    // in the mailbox of its actor
    | Handling                  // the issuer runs its handler
    | SignQueued                // the issuer awaits: its message is in the session's mailbox,
    | SignWorking               //   in a task of the session,
    | SignEmitted(ok: bool)     //   done but not yet sent
    | Signed(ok: bool)          // the issuer's handler goes on
    | Finished                  // the issuer has recorded its reply
    | Working                   // a delegated task runs
    | Emitted(ok: bool)         // it has recorded its reply, not yet sent it
    | StoppedHandling | StoppedSigned | StoppedDelegated   // the request ended in an error

  /** A request as the sequence of messages it asks, on one key pair path. */
  datatype Client = Client(program: seq<Kind>, path: nat, done: nat, phase: Phase)

  datatype Move =
    | Ask | TakeByIssuer | TakeBySession | TakeByKey
    | AskSign | Fail | Complete(ok: bool) | Deliver | RecordReply | Return

  datatype Action = Action(client: nat, move: Move)

  datatype State = State(
    capacity: nat,
    clients: seq<Client>,
    issuerMail: seq<nat>, sessionMail: seq<nat>, keyMail: seq<nat>,
    issuer: Option<nat>,
    reported: set<nat>,       // paths whose ensure was reported a success; `Setups` shows their files exist
    trace: seq<Event>,
    asked: seq<Message>,      // every message ever put in a mailbox
    replies: seq<Message>)    // every message whose sender has its reply

  // ---- One client

  predicate Stopped(phase: Phase) {
    phase.StoppedHandling? || phase.StoppedSigned? || phase.StoppedDelegated?
  }

  predicate AwaitsSignature(phase: Phase) {
    phase.SignQueued? || phase.SignWorking? || phase.SignEmitted? || phase.Signed?
  }

  /** The issuer is inside its handler for this ask. */
  predicate HoldsIssuer(phase: Phase) {
    phase.Handling? || AwaitsSignature(phase) || phase.Finished?
  }

  predicate WellFormed(c: Client) {
    && c.done <= |c.program|
    && (c.phase != Idle ==>
          && c.done < |c.program|
          && var kind := c.program[c.done];
             && (HoldsIssuer(c.phase) || c.phase.StoppedHandling? || c.phase.StoppedSigned? ==> ActorOf(kind) == Issuer)
             && (AwaitsSignature(c.phase) || c.phase.StoppedSigned? ==> Signs(kind))
             && (c.phase.Working? || c.phase.Emitted? || c.phase.StoppedDelegated? ==> ActorOf(kind) != Issuer))
  }

  function Current(c: Client): Kind
    requires c.done < |c.program|
  {
    c.program[c.done]
  }

  predicate Allowed(c: Client, move: Move) {
    && WellFormed(c) && c.done < |c.program|
    && match move
       case Ask => c.phase == Idle
       case TakeByIssuer => c.phase == Queued && ActorOf(Current(c)) == Issuer
       case TakeBySession => (c.phase == Queued && ActorOf(Current(c)) == Session) || c.phase == SignQueued
       case TakeByKey => c.phase == Queued && ActorOf(Current(c)) == Key
       case AskSign => c.phase == Handling && Signs(Current(c))
       case Fail => c.phase == Handling || c.phase.Signed?
       case Complete(_) => c.phase == Working || c.phase == SignWorking
       case Deliver => c.phase.Emitted? || c.phase.SignEmitted?
       case RecordReply => (c.phase == Handling && Current(c) == VerifyChain) || c.phase == Signed(true)
       case Return => c.phase == Finished
  }

  function Moved(c: Client, move: Move): Client
    requires Allowed(c, move)
  {
    match move
    case Ask => c.(phase := Queued)
    case TakeByIssuer => c.(phase := Handling)
    case TakeBySession => c.(phase := if c.phase == Queued then Working else SignWorking)
    case TakeByKey => c.(phase := Working)
    case AskSign => c.(phase := SignQueued)
    case Fail => c.(phase := if c.phase == Handling then StoppedHandling else StoppedSigned)
    case Complete(ok) => c.(phase := if c.phase == Working then Emitted(ok) else SignEmitted(ok))
    case Deliver =>
      if c.phase.SignEmitted? then c.(phase := Signed(c.phase.ok))
      else if c.phase.ok then c.(phase := Idle, done := c.done + 1)
      else c.(phase := StoppedDelegated)
    case RecordReply => c.(phase := Finished)
    case Return => c.(phase := Idle, done := c.done + 1)
  }

  /** What the move of client `i` appends to the trace. */
  function Emits(c: Client, i: nat, move: Move): seq<Event>
    requires Allowed(c, move)
  {
    var id := Id(i, c.done);
    match move
    case TakeByIssuer => [Received(Current(c), id)]
    case TakeBySession => [Received(if c.phase == Queued then Current(c) else SignHash, id)]
    case TakeByKey => [Received(Current(c), id)]
    case Complete(_) => [Replied(if c.phase == Working then Current(c) else SignHash, id)]
    case RecordReply => [Replied(Current(c), id)]
    case _ => []
  }

  /** The message that the move puts into a mailbox. */
  function Sends(c: Client, i: nat, move: Move): seq<Message>
    requires Allowed(c, move)
  {
    match move
    case Ask => [Message(Current(c), Id(i, c.done))]
    case AskSign => [Message(SignHash, Id(i, c.done))]
    case _ => []
  }

  /** The message whose sender, the client or the issuer's handler, gets its reply by the move. */
  function Answers(c: Client, i: nat, move: Move): seq<Message>
    requires Allowed(c, move)
  {
    match move
    case Fail | Return => [Message(Current(c), Id(i, c.done))]
    case Deliver => [Message(if c.phase.Emitted? then Current(c) else SignHash, Id(i, c.done))]
    case _ => []
  }

  /** The path whose ensure the move reports a success. */
  function Reported(c: Client, move: Move): set<nat>
    requires Allowed(c, move)
  {
    if move == Complete(true) && c.phase == Working && Current(c) == EnsureIdentity then {c.path} else {}
  }

  // ---- The whole system

  function Mail(s: State, actor: Actor): seq<nat> {
    match actor
    case Issuer => s.issuerMail
    case Session => s.sessionMail
    case Key => s.keyMail
  }

  predicate Enabled(s: State, a: Action) {
    && a.client < |s.clients|
    && var c := s.clients[a.client];
       && Allowed(c, a.move)
       && match a.move
          case Ask => |Mail(s, ActorOf(Current(c)))| < s.capacity
          case TakeByIssuer => s.issuer.None? && s.issuerMail != [] && s.issuerMail[0] == a.client
          case TakeBySession => s.sessionMail != [] && s.sessionMail[0] == a.client
          case TakeByKey => s.keyMail != [] && s.keyMail[0] == a.client
          case AskSign => |s.sessionMail| < s.capacity
          case _ => true
  }

  /** The move puts the ask of this client into the mailbox of `actor`. */
  predicate Enters(c: Client, move: Move, actor: Actor)
    requires Allowed(c, move)
  {
    (move.Ask? && ActorOf(Current(c)) == actor) || (move.AskSign? && actor == Session)
  }

  /** The move takes the ask of this client out of the mailbox of `actor`. */
  predicate Exits(move: Move, actor: Actor) {
    || (move.TakeByIssuer? && actor == Issuer)
    || (move.TakeBySession? && actor == Session)
    || (move.TakeByKey? && actor == Key)
  }

  function MailAfter(s: State, a: Action, actor: Actor): seq<nat>
    requires Enabled(s, a)
  {
    if Enters(s.clients[a.client], a.move, actor) then Mail(s, actor) + [a.client]
    else if Exits(a.move, actor) then Mail(s, actor)[1..]
    else Mail(s, actor)
  }

  function IssuerAfter(s: State, a: Action): Option<nat> {
    match a.move
    case TakeByIssuer => Some(a.client)
    case Fail => None
    case Return => None
    case _ => s.issuer
  }

  function Step(s: State, a: Action): State
    requires Enabled(s, a)
  {
    var c := s.clients[a.client];
    State(
      s.capacity,
      s.clients[a.client := Moved(c, a.move)],
      MailAfter(s, a, Issuer), MailAfter(s, a, Session), MailAfter(s, a, Key),
      IssuerAfter(s, a),
      s.reported + Reported(c, a.move),
      s.trace + Emits(c, a.client, a.move),
      s.asked + Sends(c, a.client, a.move),
      s.replies + Answers(c, a.client, a.move))
  }

  predicate Legal(s: State, actions: seq<Action>)
    decreases |actions|
  {
    actions == [] || (Enabled(s, actions[0]) && Legal(Step(s, actions[0]), actions[1..]))
  }

  function Run(s: State, actions: seq<Action>): State
    requires Legal(s, actions)
    decreases |actions|
  {
    if actions == [] then s else Run(Step(s, actions[0]), actions[1..])
  }

  /** A run and one step more. */
  lemma {:induction false} RunExtended(s: State, actions: seq<Action>, a: Action)
    requires Legal(s, actions) && Enabled(Run(s, actions), a)
    ensures Legal(s, actions + [a]) && Run(s, actions + [a]) == Step(Run(s, actions), a)
    decreases |actions|
  {
    hide Enabled, Step;
    if actions == [] {
      assert (actions + [a])[1..] == [];
    } else {
      RunExtended(Step(s, actions[0]), actions[1..], a);
      assert (actions + [a])[1..] == actions[1..] + [a];
    }
  }

  /** No run changes how many clients there are, or their programs and paths. */
  lemma {:induction false} RunKeepsPrograms(s: State, actions: seq<Action>, i: nat)
    requires Legal(s, actions)
    ensures |Run(s, actions).clients| == |s.clients|
    ensures i < |s.clients| ==> Run(s, actions).clients[i].program == s.clients[i].program
                                && Run(s, actions).clients[i].path == s.clients[i].path
    decreases |actions|
  {
    if actions != [] {
      hide MailAfter, IssuerAfter, Emits, Sends, Answers, WellFormed;
      RunKeepsPrograms(Step(s, actions[0]), actions[1..], i);
    }
  }

  /** In a legal run each action can be done where its turn comes. */
  lemma {:induction false} NextIsEnabled(s: State, actions: seq<Action>, n: nat)
    requires Legal(s, actions) && n < |actions|
    ensures Legal(s, actions[..n]) && Enabled(Run(s, actions[..n]), actions[n])
    decreases |actions|
  {
    hide Enabled, Step;
    if n > 0 {
      NextIsEnabled(Step(s, actions[0]), actions[1..], n - 1);
      assert actions[..n][1..] == actions[1..][..n - 1];
    }
  }

  /** Clients that have asked nothing yet, over empty mailboxes of some positive capacity. */
  predicate Initial(s: State) {
    && s.capacity > 0
    && (forall i :: 0 <= i < |s.clients| ==>
        WellFormed(s.clients[i]) && s.clients[i].done == 0 && s.clients[i].phase == Idle)
    && s.issuerMail == [] && s.sessionMail == [] && s.keyMail == [] && s.issuer == None
    && s.reported == {} && s.trace == [] && s.asked == [] && s.replies == []
  }

  // ---- Where every ask is

  /** The ask of this client is in the mailbox of `actor`. */
  predicate WaitsFor(c: Client, actor: Actor) {
    || (c.phase == Queued && c.done < |c.program| && ActorOf(Current(c)) == actor)
    || (c.phase == SignQueued && actor == Session)
  }

  ghost predicate MailIs(clients: seq<Client>, mail: seq<nat>, actor: Actor) {
    && (forall k :: 0 <= k < |mail| ==> mail[k] < |clients|)
    && (forall k, l :: 0 <= k < l < |mail| ==> mail[k] != mail[l])
    && (forall i: nat :: i < |clients| ==> (i in mail <==> WaitsFor(clients[i], actor)))
  }

  ghost predicate Handles(clients: seq<Client>, issuer: Option<nat>) {
    && (issuer.Some? ==> issuer.value < |clients|)
    && (forall i: nat :: i < |clients| ==> (issuer == Some(i) <==> HoldsIssuer(clients[i].phase)))
  }

  /** Mailboxes and the issuer hold exactly the asks whose phase says so. */
  ghost predicate Placed(s: State) {
    && s.capacity > 0
    && (forall i :: 0 <= i < |s.clients| ==> WellFormed(s.clients[i]))
    && (forall actor :: MailIs(s.clients, Mail(s, actor), actor))
    && Handles(s.clients, s.issuer)
  }

  lemma MovedIsWellFormed(c: Client, move: Move)
    requires Allowed(c, move)
    ensures WellFormed(Moved(c, move))
  {
  }

  lemma WaitingFollowsMail(c: Client, move: Move, actor: Actor)
    requires Allowed(c, move)
    ensures Enters(c, move, actor) ==> !WaitsFor(c, actor) && WaitsFor(Moved(c, move), actor)
    ensures Exits(move, actor) ==> !Enters(c, move, actor) && !WaitsFor(Moved(c, move), actor)
    ensures !Enters(c, move, actor) && !Exits(move, actor) ==> (WaitsFor(Moved(c, move), actor) <==> WaitsFor(c, actor))
  {
  }

  lemma MailGains(clients: seq<Client>, mail: seq<nat>, actor: Actor, i: nat, c: Client)
    requires i < |clients| && MailIs(clients, mail, actor) && !WaitsFor(clients[i], actor) && WaitsFor(c, actor)
    ensures MailIs(clients[i := c], mail + [i], actor)
  {
    hide WaitsFor;
    forall j: nat | j < |clients| ensures j in mail + [i] <==> WaitsFor(clients[i := c][j], actor) {
      assert j in mail <==> WaitsFor(clients[j], actor);
    }
  }

  lemma MailLoses(clients: seq<Client>, mail: seq<nat>, actor: Actor, c: Client)
    requires mail != [] && MailIs(clients, mail, actor) && !WaitsFor(c, actor)
    ensures MailIs(clients[mail[0] := c], mail[1..], actor)
  {
    hide WaitsFor;
    assert mail == [mail[0]] + mail[1..];
    forall j: nat | j < |clients| ensures j in mail[1..] <==> WaitsFor(clients[mail[0] := c][j], actor) {
      assert j in mail <==> WaitsFor(clients[j], actor);
    }
  }

  lemma MailStays(clients: seq<Client>, mail: seq<nat>, actor: Actor, i: nat, c: Client)
    requires i < |clients| && MailIs(clients, mail, actor) && (WaitsFor(c, actor) <==> WaitsFor(clients[i], actor))
    ensures MailIs(clients[i := c], mail, actor)
  {
    hide WaitsFor;
  }

  lemma StepKeepsMail(s: State, a: Action, actor: Actor)
    requires Enabled(s, a) && MailIs(s.clients, Mail(s, actor), actor)
    ensures MailIs(Step(s, a).clients, MailAfter(s, a, actor), actor)
  {
    var c := s.clients[a.client];
    WaitingFollowsMail(c, a.move, actor);
    var c' := Moved(c, a.move);
    if Enters(c, a.move, actor) {
      MailGains(s.clients, Mail(s, actor), actor, a.client, c');
    } else if Exits(a.move, actor) {
      MailLoses(s.clients, Mail(s, actor), actor, c');
    } else {
      MailStays(s.clients, Mail(s, actor), actor, a.client, c');
    }
  }

  /** A move enters the issuer only when it is free and leaves it only for the client inside. */
  lemma StepKeepsHandles(s: State, a: Action)
    requires Enabled(s, a) && Handles(s.clients, s.issuer)
    ensures Handles(Step(s, a).clients, IssuerAfter(s, a))
  {
    var held, held' := HoldsIssuer(s.clients[a.client].phase), HoldsIssuer(Moved(s.clients[a.client], a.move).phase);
    assert held' == if a.move.TakeByIssuer? then true else if a.move.Fail? || a.move.Return? then false else held;
    hide MailAfter;
  }

  lemma {:induction false} StepKeepsPlaced(s: State, a: Action)
    requires Placed(s) && Enabled(s, a)
    ensures Placed(Step(s, a))
  {
    hide MailIs, Handles, WellFormed, MailAfter, IssuerAfter;
    MovedIsWellFormed(s.clients[a.client], a.move);
    StepKeepsHandles(s, a);
    forall actor ensures MailIs(Step(s, a).clients, Mail(Step(s, a), actor), actor) {
      StepKeepsMail(s, a, actor);
      assert Mail(Step(s, a), actor) == MailAfter(s, a, actor);
    }
  }

  lemma InitialIsPlaced(s: State)
    requires Initial(s)
    ensures Placed(s)
  {
  }

  lemma {:induction false} RunKeepsPlaced(s: State, actions: seq<Action>)
    requires Placed(s) && Legal(s, actions)
    ensures Placed(Run(s, actions))
    decreases |actions|
  {
    if actions != [] {
      StepKeepsPlaced(s, actions[0]);
      RunKeepsPlaced(Step(s, actions[0]), actions[1..]);
    }
  }
}
