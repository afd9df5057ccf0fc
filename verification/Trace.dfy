/** The trace of the actor protocol: what every interleaving keeps of each request's own order, of
    the issuer's one-at-a-time handling, and of received against replied messages. */
module Trace {
  import opened ByteStrings
  import opened Actors

  // ---- The part of one client

  /** The events of a completed ask; a signature is asked from inside the issue's handler. */
  function Whole(kind: Kind, id: Id): seq<Event> {
    if Signs(kind) then [Received(kind, id), Received(SignHash, id), Replied(SignHash, id), Replied(kind, id)]
    else [Received(kind, id), Replied(kind, id)]
  }

  /** How many of these the ask has recorded so far. */
  function Recorded(phase: Phase, kind: Kind): (n: nat)
    ensures n <= |Whole(kind, Id(0, 0))|
  {
    match phase
    case Idle | Queued => 0
    case Handling | SignQueued | StoppedHandling | Working => 1
    case SignWorking | Emitted(_) | StoppedDelegated => 2
    case SignEmitted(_) | Signed(_) | StoppedSigned => if Signs(kind) then 3 else 2
    case Finished => |Whole(kind, Id(0, 0))|
  }

  /** The first `n` asks, complete. */
  function Past(program: seq<Kind>, i: nat, n: nat): seq<Event>
    requires n <= |program|
  {
    if n == 0 then [] else Past(program, i, n - 1) + Whole(program[n - 1], Id(i, n - 1))
  }

  /** What client `i` has recorded: its completed asks in program order, then the current one. */
  function Expected(c: Client, i: nat): seq<Event>
    requires WellFormed(c)
  {
    Past(c.program, i, c.done) + Partial(c, i)
  }

  function Partial(c: Client, i: nat): seq<Event>
    requires c.done <= |c.program|
  {
    if c.done == |c.program| then []
    else Whole(Current(c), Id(i, c.done))[..Recorded(c.phase, Current(c))]
  }

  function Of(trace: seq<Event>, i: nat): seq<Event> {
    if trace == [] then []
    else Of(trace[..|trace| - 1], i) + if trace[|trace| - 1].id.client == i then [trace[|trace| - 1]] else []
  }

  lemma OfExtended(trace: seq<Event>, event: Event, i: nat)
    ensures Of(trace + [event], i) == Of(trace, i) + if event.id.client == i then [event] else []
  {
    assert (trace + [event])[..|trace|] == trace;
  }

  lemma MoveEmits(c: Client, i: nat, move: Move)
    requires Allowed(c, move)
    ensures |Emits(c, i, move)| <= 1
    ensures forall event :: event in Emits(c, i, move) ==> event.id == Id(i, c.done)
    ensures var c' := Moved(c, move);
      && c'.program == c.program
      && (c'.done == c.done ==> Partial(c', i) == Partial(c, i) + Emits(c, i, move))
      && (c'.done != c.done ==>
            && c'.done == c.done + 1 && Emits(c, i, move) == []
            && Partial(c', i) == [] && Partial(c, i) == Whole(Current(c), Id(i, c.done)))
  {
  }

  lemma MoveRecords(c: Client, i: nat, move: Move)
    requires Allowed(c, move)
    ensures WellFormed(Moved(c, move))
    ensures Expected(Moved(c, move), i) == Expected(c, i) + Emits(c, i, move)
  {
    MovedIsWellFormed(c, move);
    hide Moved, Emits, Partial;
    MoveEmits(c, i, move);
  }

  ghost predicate Recording(s: State) {
    && (forall i :: 0 <= i < |s.clients| ==> WellFormed(s.clients[i]))
    && (forall i: nat :: i < |s.clients| ==> Of(s.trace, i) == Expected(s.clients[i], i))
  }

  lemma OfGrows(trace: seq<Event>, emitted: seq<Event>, client: nat, i: nat)
    requires |emitted| <= 1 && forall event :: event in emitted ==> event.id.client == client
    ensures Of(trace + emitted, i) == if i == client then Of(trace, i) + emitted else Of(trace, i)
  {
    hide Of;
    if emitted == [] {
      assert trace + emitted == trace;
      assert Of(trace, i) + emitted == Of(trace, i);
    } else {
      OfExtended(trace, emitted[0], i);
      assert emitted == [emitted[0]];
    }
  }

  lemma StepKeepsRecording(s: State, a: Action)
    requires Enabled(s, a) && Recording(s)
    ensures Recording(Step(s, a))
  {
    var c := s.clients[a.client];
    MoveEmits(c, a.client, a.move);
    MoveRecords(c, a.client, a.move);
    hide Partial, WellFormed, Moved, Emits, Expected, Enabled, MailAfter, IssuerAfter, Of;
    forall i: nat | i < |s.clients| ensures Of(Step(s, a).trace, i) == Expected(Step(s, a).clients[i], i) {
      OfGrows(s.trace, Emits(c, a.client, a.move), a.client, i);
    }
  }

  lemma {:induction false} RunKeepsRecording(s: State, actions: seq<Action>)
    requires Recording(s) && Legal(s, actions)
    ensures Recording(Run(s, actions))
    decreases |actions|
  {
    if actions != [] {
      StepKeepsRecording(s, actions[0]);
      RunKeepsRecording(Step(s, actions[0]), actions[1..]);
    }
  }

  /** In every interleaving the part of the trace that is about one client is the sequence it
      would record alone: its completed asks in order, each whole, and a prefix of the current. */
  lemma TraceOfEachClient(s0: State, actions: seq<Action>, i: nat)
    requires Initial(s0) && Legal(s0, actions) && i < |s0.clients|
    ensures var s := Run(s0, actions);
      && i < |s.clients| && WellFormed(s.clients[i])
      && Of(s.trace, i) == Expected(s.clients[i], i)
      && s.clients[i].program == s0.clients[i].program
  {
    RunKeepsRecording(s0, actions);
    RunKeepsPrograms(s0, actions, i);
  }

  // ---- Order in the trace

  /** The events occur in the trace in this order, others between them allowed. */
  ghost predicate InOrder(events: seq<Event>, trace: seq<Event>) {
    exists at: seq<nat> :: At(events, trace, at)
  }

  ghost predicate At(events: seq<Event>, trace: seq<Event>, at: seq<nat>) {
    && |at| == |events|
    && (forall j :: 0 <= j < |at| ==> at[j] < |trace| && trace[at[j]] == events[j])
    && (forall j, k :: 0 <= j < k < |at| ==> at[j] < at[k])
  }

  lemma {:induction false} ClientPartIsInOrder(trace: seq<Event>, i: nat) returns (at: seq<nat>)
    ensures At(Of(trace, i), trace, at)
  {
    at := [];
    if trace != [] {
      at := ClientPartIsInOrder(trace[..|trace| - 1], i);
      if trace[|trace| - 1].id.client == i {
        at := at + [|trace| - 1];
      }
    }
  }

  /** Any stretch of a client's part is in order in the whole trace. */
  lemma StretchIsInOrder(before: seq<Event>, events: seq<Event>, after: seq<Event>, trace: seq<Event>, i: nat)
    requires Of(trace, i) == before + events + after
    ensures InOrder(events, trace)
  {
    var at := ClientPartIsInOrder(trace, i);
    var part := at[|before|..|before| + |events|];
    forall j | 0 <= j < |part| ensures trace[part[j]] == events[j] {
      assert Of(trace, i)[|before| + j] == events[j];
    }
    assert At(events, trace, part);
  }

  /** The past splits at every completed ask. */
  lemma {:induction false} PastSplits(program: seq<Kind>, i: nat, n: nat, k: nat) returns (rest: seq<Event>)
    requires k < n <= |program|
    ensures Past(program, i, n) == Past(program, i, k) + Whole(program[k], Id(i, k)) + rest
  {
    hide Whole;
    var last := Whole(program[n - 1], Id(i, n - 1));
    if k == n - 1 {
      rest := [];
      assert Past(program, i, k) + last + rest == Past(program, i, n);
    } else {
      var shorter := PastSplits(program, i, n - 1, k);
      rest := shorter + last;
      var before := Past(program, i, k) + Whole(program[k], Id(i, k));
      assert before + rest == before + shorter + last;
    }
  }

  lemma PastAskIsInOrder(trace: seq<Event>, program: seq<Kind>, i: nat, n: nat, partial: seq<Event>, k: nat)
    requires k < n <= |program| && Of(trace, i) == Past(program, i, n) + partial
    ensures InOrder(Whole(program[k], Id(i, k)), trace)
  {
    hide Of, Past, Whole, InOrder;
    var rest := PastSplits(program, i, n, k);
    var before, whole := Past(program, i, k), Whole(program[k], Id(i, k));
    assert before + whole + rest + partial == before + whole + (rest + partial);
    StretchIsInOrder(before, whole, rest + partial, trace, i);
  }

  /** Nesting: in every interleaving a completed issue was received before its signature was asked,
      asked and answered before it replied; every other completed ask was received, then replied. */
  lemma {:induction false} CompletedAskIsNested(s0: State, actions: seq<Action>, i: nat, k: nat)
    requires Initial(s0) && Legal(s0, actions) && i < |s0.clients| && i < |Run(s0, actions).clients|
    requires k < Run(s0, actions).clients[i].done
    ensures k < |s0.clients[i].program| && InOrder(Whole(s0.clients[i].program[k], Id(i, k)), Run(s0, actions).trace)
  {
    hide Of, Past, Whole, InOrder, Run, Legal, Partial;
    TraceOfEachClient(s0, actions, i);
    var c := Run(s0, actions).clients[i];
    PastAskIsInOrder(Run(s0, actions).trace, c.program, i, c.done, Partial(c, i), k);
  }

  lemma {:induction false} PastIsOld(program: seq<Kind>, i: nat, n: nat, event: Event)
    requires n <= |program| && event in Past(program, i, n)
    ensures event.id.index < n
  {
    assert forall e :: e in Whole(program[n - 1], Id(i, n - 1)) ==> e.id.index == n - 1;
    hide Whole;
    if event in Past(program, i, n - 1) {
      PastIsOld(program, i, n - 1, event);
    }
  }

  lemma {:induction false} OwnEventIsInPart(trace: seq<Event>, event: Event)
    requires event in trace
    ensures event in Of(trace, event.id.client)
  {
    if event in trace[..|trace| - 1] {
      OwnEventIsInPart(trace[..|trace| - 1], event);
    }
  }

  lemma LaterReceiptFollows(trace: seq<Event>, program: seq<Kind>, i: nat, n: nat, partial: seq<Event>, k: nat,
                            received: Event)
    requires n <= |program| && Of(trace, i) == Past(program, i, n) + partial
    requires forall event :: event in partial ==> event.id.index == n
    requires received in Of(trace, i) && k < received.id.index && received.id.index <= n
    ensures InOrder(Whole(program[k], Id(i, k)) + [received], trace)
  {
    hide Of, Past, InOrder;
    var rest := PastSplits(program, i, n, k);
    var before, whole := Past(program, i, k), Whole(program[k], Id(i, k));
    assert before + whole + rest + partial == before + whole + (rest + partial);
    if received in before {
      PastIsOld(program, i, k, received);
    }
    assert received !in whole;
    assert received in rest + partial;
    EarlierThan(trace, i, before, whole, rest + partial, received);
  }

  /** A client's ask is received only after each of its earlier asks was received and replied: a
      Yggdrasil set-up's identity is ensured before its projection is asked for. */
  lemma {:induction false} EarlierAskRepliesFirst(s0: State, actions: seq<Action>, i: nat, k: nat, l: nat)
    requires Initial(s0) && Legal(s0, actions) && i < |s0.clients| && k < l < |s0.clients[i].program|
    requires Received(s0.clients[i].program[l], Id(i, l)) in Run(s0, actions).trace
    ensures InOrder(Whole(s0.clients[i].program[k], Id(i, k)) + [Received(s0.clients[i].program[l], Id(i, l))],
                    Run(s0, actions).trace)
  {
    hide Of, Past, InOrder, Run, Legal;
    TraceOfEachClient(s0, actions, i);
    var c, trace, received := Run(s0, actions).clients[i], Run(s0, actions).trace,
        Received(s0.clients[i].program[l], Id(i, l));
    OwnEventIsInPart(trace, received);
    if received in Past(c.program, i, c.done) {
      PastIsOld(c.program, i, c.done, received);
    }
    LaterReceiptFollows(trace, c.program, i, c.done, Partial(c, i), k, received);
  }

  lemma EarlierThan(trace: seq<Event>, i: nat, before: seq<Event>, events: seq<Event>, tail: seq<Event>, event: Event)
    requires Of(trace, i) == before + events + tail && event in tail
    ensures InOrder(events + [event], trace)
  {
    var at := ClientPartIsInOrder(trace, i);
    var k :| 0 <= k < |tail| && tail[k] == event;
    var part := at[|before|..|before| + |events|] + [at[|before| + |events| + k]];
    forall j | 0 <= j < |part| ensures part[j] < |trace| && trace[part[j]] == (events + [event])[j] {
      assert j < |events| ==> Of(trace, i)[|before| + j] == events[j];
      assert Of(trace, i)[|before| + |events| + k] == event;
    }
    assert At(events + [event], trace, part);
  }

  // ---- The issuer handles one request at a time

  function OfActor(trace: seq<Event>, actor: Actor): seq<Event> {
    if trace == [] then []
    else
      var last := trace[|trace| - 1];
      OfActor(trace[..|trace| - 1], actor) + if ActorOf(last.kind) == actor then [last] else []
  }

  lemma OfActorExtended(trace: seq<Event>, event: Event, actor: Actor)
    ensures OfActor(trace + [event], actor)
         == OfActor(trace, actor) + if ActorOf(event.kind) == actor then [event] else []
  {
    assert (trace + [event])[..|trace|] == trace;
  }

  /** Every reply directly follows the receipt of the same request. */
  predicate Paired(events: seq<Event>) {
    forall k :: 0 <= k < |events| && events[k].Replied? ==>
        k > 0 && events[k - 1] == Received(events[k].kind, events[k].id)
  }

  /** While a handler runs, the last event of the issuer is the receipt of its request. */
  predicate HandlerIsLast(events: seq<Event>, c: Client, i: nat) {
    (c.phase.Handling? || AwaitsSignature(c.phase)) && c.done < |c.program| ==>
      events != [] && events[|events| - 1] == Received(Current(c), Id(i, c.done))
  }

  ghost predicate OneAtATime(s: State) {
    && Handles(s.clients, s.issuer)
    && Paired(OfActor(s.trace, Issuer))
    && forall i: nat :: i < |s.clients| ==> HandlerIsLast(OfActor(s.trace, Issuer), s.clients[i], i)
  }

  /** What the move of client `i` adds to the issuer's part. */
  function IssuerEvents(c: Client, i: nat, move: Move): seq<Event>
    requires Allowed(c, move)
  {
    match move
    case TakeByIssuer => [Received(Current(c), Id(i, c.done))]
    case RecordReply => [Replied(Current(c), Id(i, c.done))]
    case _ => []
  }

  lemma IssuerPartGrows(trace: seq<Event>, c: Client, i: nat, move: Move)
    requires Allowed(c, move)
    ensures OfActor(trace + Emits(c, i, move), Issuer) == OfActor(trace, Issuer) + IssuerEvents(c, i, move)
  {
    var emitted, added := Emits(c, i, move), IssuerEvents(c, i, move);
    assert |emitted| <= 1 && added == if emitted != [] && ActorOf(emitted[0].kind) == Issuer then emitted else [];
    hide Emits, IssuerEvents, OfActor, Allowed;
    if emitted == [] {
      assert trace + emitted == trace && OfActor(trace, Issuer) + added == OfActor(trace, Issuer);
    } else {
      OfActorExtended(trace, emitted[0], Issuer);
      assert emitted == [emitted[0]];
    }
  }

  lemma MoveKeepsPairs(events: seq<Event>, c: Client, i: nat, move: Move)
    requires Allowed(c, move) && Paired(events) && HandlerIsLast(events, c, i)
    ensures Paired(events + IssuerEvents(c, i, move))
    ensures HandlerIsLast(events + IssuerEvents(c, i, move), Moved(c, move), i)
    ensures IssuerEvents(c, i, move) != [] ==> HoldsIssuer(Moved(c, move).phase)
  {
  }

  lemma StepKeepsOneAtATime(s: State, a: Action)
    requires Enabled(s, a) && OneAtATime(s)
    ensures OneAtATime(Step(s, a))
  {
    var c, s' := s.clients[a.client], Step(s, a);
    var events := OfActor(s.trace, Issuer);
    StepKeepsHandles(s, a);
    IssuerPartGrows(s.trace, c, a.client, a.move);
    MoveKeepsPairs(events, c, a.client, a.move);
    hide OfActor, Emits, IssuerEvents, Moved, Allowed, Enabled, MailAfter, IssuerAfter, Paired;
    forall i: nat | i < |s.clients| && i != a.client
        ensures HandlerIsLast(events + IssuerEvents(c, a.client, a.move), s.clients[i], i) {
      if IssuerEvents(c, a.client, a.move) != [] {
        assert s'.issuer == Some(a.client);
        assert !HoldsIssuer(s'.clients[i].phase);
      } else {
        assert events + IssuerEvents(c, a.client, a.move) == events;
      }
    }
  }

  lemma {:induction false} RunKeepsOneAtATime(s: State, actions: seq<Action>)
    requires OneAtATime(s) && Legal(s, actions)
    ensures OneAtATime(Run(s, actions))
    decreases |actions|
  {
    if actions != [] {
      StepKeepsOneAtATime(s, actions[0]);
      RunKeepsOneAtATime(Step(s, actions[0]), actions[1..]);
    }
  }

  /** In every interleaving the issuer's requests never overlap: in its own part of the trace each
      reply comes directly after the receipt of its request. */
  lemma IssuerHandlesOneAtATime(s: State, actions: seq<Action>)
    requires Initial(s) && Legal(s, actions)
    ensures Paired(OfActor(Run(s, actions).trace, Issuer))
  {
    RunKeepsOneAtATime(s, actions);
  }

  // ---- Received against replied

  /** The ask has an event of receipt at `actor` and no event of reply: a delegated task is running,
      or the issuer is inside its handler or has left it with an error. */
  predicate Open(c: Client, actor: Actor) {
    c.done < |c.program| && match actor
      case Session => c.phase == SignWorking || (c.phase == Working && ActorOf(Current(c)) == Session)
      case Key => c.phase == Working && ActorOf(Current(c)) == Key
      case Issuer =>
        || c.phase == Handling || AwaitsSignature(c.phase)
        || c.phase.StoppedHandling? || c.phase.StoppedSigned?
  }

  function OpenCount(clients: seq<Client>, actor: Actor): nat {
    if clients == [] then 0 else (if Open(clients[0], actor) then 1 else 0) + OpenCount(clients[1..], actor)
  }

  /** Receipts less replies of one actor. */
  function Balance(trace: seq<Event>, actor: Actor): int {
    if trace == [] then 0 else Balance(trace[..|trace| - 1], actor) + Weight(trace[|trace| - 1], actor)
  }

  function Weight(event: Event, actor: Actor): int {
    if ActorOf(event.kind) != actor then 0 else if event.Received? then 1 else -1
  }

  lemma {:induction false} OpenCountAfter(clients: seq<Client>, i: nat, c: Client, actor: Actor)
    requires i < |clients|
    ensures OpenCount(clients[i := c], actor) ==
      OpenCount(clients, actor) - (if Open(clients[i], actor) then 1 else 0) + if Open(c, actor) then 1 else 0
  {
    if i > 0 {
      assert clients[i := c][1..] == clients[1..][i - 1 := c];
      OpenCountAfter(clients[1..], i - 1, c, actor);
    } else {
      assert clients[i := c][1..] == clients[1..];
    }
  }

  lemma MoveBalances(c: Client, i: nat, move: Move, actor: Actor)
    requires Allowed(c, move)
    ensures var emitted := Emits(c, i, move);
      && |emitted| <= 1
      && (if Open(Moved(c, move), actor) then 1 else 0) - (if Open(c, actor) then 1 else 0)
         == if emitted == [] then 0 else Weight(emitted[0], actor)
  {
  }

  lemma BalanceGrows(trace: seq<Event>, emitted: seq<Event>, actor: Actor)
    requires |emitted| <= 1
    ensures Balance(trace + emitted, actor)
         == Balance(trace, actor) + if emitted == [] then 0 else Weight(emitted[0], actor)
  {
    if emitted == [] {
      assert trace + emitted == trace;
    } else {
      assert (trace + emitted)[..|trace|] == trace;
    }
  }

  lemma StepKeepsBalance(s: State, a: Action, actor: Actor)
    requires Enabled(s, a) && Balance(s.trace, actor) == OpenCount(s.clients, actor)
    ensures Balance(Step(s, a).trace, actor) == OpenCount(Step(s, a).clients, actor)
  {
    hide Moved, Emits, Sends, Answers, Reported, Allowed, Open, Weight, MailAfter, IssuerAfter, OpenCount, Balance,
         Mail;
    var c := s.clients[a.client];
    MoveBalances(c, a.client, a.move, actor);
    OpenCountAfter(s.clients, a.client, Moved(c, a.move), actor);
    BalanceGrows(s.trace, Emits(c, a.client, a.move), actor);
  }

  lemma {:induction false} RunKeepsBalance(s: State, actions: seq<Action>, actor: Actor)
    requires Legal(s, actions) && Balance(s.trace, actor) == OpenCount(s.clients, actor)
    ensures Balance(Run(s, actions).trace, actor) == OpenCount(Run(s, actions).clients, actor)
    decreases |actions|
  {
    if actions != [] {
      StepKeepsBalance(s, actions[0], actor);
      RunKeepsBalance(Step(s, actions[0]), actions[1..], actor);
    }
  }

  lemma {:induction false} IdleHasNothingOpen(clients: seq<Client>, actor: Actor)
    requires forall i :: 0 <= i < |clients| ==> clients[i].phase == Idle
    ensures OpenCount(clients, actor) == 0
  {
    if clients != [] {
      IdleHasNothingOpen(clients[1..], actor);
    }
  }

  /** Conservation: at every point of every interleaving the receipts of an actor exceed its replies
      by the asks still open there. A delegated actor replies on success and on error alike; the
      issuer records no reply for a request that ended in an error, so those stay open. */
  lemma ReceiptsAreAccountedFor(s: State, actions: seq<Action>, actor: Actor)
    requires Initial(s) && Legal(s, actions)
    ensures Balance(Run(s, actions).trace, actor) == OpenCount(Run(s, actions).clients, actor)
  {
    IdleHasNothingOpen(s.clients, actor);
    RunKeepsBalance(s, actions, actor);
  }
}
