/** Progress of the actor protocol: no reachable state is stuck, every run ends, and at the end
    every ask has been answered exactly once. It holds because the issuer waits for the session
    and the session waits for nobody, so the waits never close a circle. */
module Progress {
  import opened ByteStrings
  import opened Actors

  // ---- No deadlock

  predicate Settled(c: Client) {
    Stopped(c.phase) || (c.phase == Idle && c.done == |c.program|)
  }

  predicate Quiescent(s: State) {
    forall i :: 0 <= i < |s.clients| ==> Settled(s.clients[i])
  }

  /** The head of a mailbox can always be taken out of a session's or a key's mailbox. */
  lemma HeadIsTaken(s: State, actor: Actor) returns (a: Action)
    requires Placed(s) && actor != Issuer && Mail(s, actor) != []
    ensures Enabled(s, a) && !a.move.Fail?
  {
    var i := Mail(s, actor)[0];
    assert MailIs(s.clients, Mail(s, actor), actor);
    assert i in Mail(s, actor);
    a := Action(i, if actor == Session then TakeBySession else TakeByKey);
  }

  /** While the issuer is busy, the request inside it or the session behind it can go on. */
  lemma BusyIssuerGoesOn(s: State, i: nat) returns (a: Action)
    requires Placed(s) && i < |s.clients| && s.issuer == Some(i)
    ensures Enabled(s, a)
    ensures a.move.Fail? ==> s.clients[a.client].phase == Signed(false)
  {
    var c := s.clients[i];
    assert MailIs(s.clients, s.sessionMail, Session) by { assert Mail(s, Session) == s.sessionMail; }
    match c.phase {
      case Handling =>
        if Current(c) == VerifyChain {
          a := Action(i, RecordReply);
        } else if |s.sessionMail| < s.capacity {
          a := Action(i, AskSign);
        } else {
          a := HeadIsTaken(s, Session);
        }
      case SignQueued => a := HeadIsTaken(s, Session);
      case SignWorking => a := Action(i, Complete(true));
      case SignEmitted(ok) => a := Action(i, Deliver);
      case Signed(ok) => a := Action(i, if ok then RecordReply else Fail);
      case Finished => a := Action(i, Return);
    }
  }

  lemma MailIsServed(s: State, actor: Actor) returns (a: Action)
    requires Placed(s) && Mail(s, actor) != []
    ensures Enabled(s, a)
    ensures a.move.Fail? ==> s.clients[a.client].phase == Signed(false)
  {
    if actor != Issuer {
      a := HeadIsTaken(s, actor);
    } else if s.issuer.Some? {
      a := BusyIssuerGoesOn(s, s.issuer.value);
    } else {
      assert MailIs(s.clients, Mail(s, Issuer), Issuer) && s.issuerMail[0] in s.issuerMail;
      a := Action(s.issuerMail[0], TakeByIssuer);
    }
  }

  /** A client that is not settled has a step of its own, or waits for one that has. */
  lemma UnsettledGoesOn(s: State, i: nat) returns (a: Action)
    requires Placed(s) && i < |s.clients| && !Settled(s.clients[i])
    ensures Enabled(s, a)
    ensures a.move.Fail? ==> s.clients[a.client].phase == Signed(false)
  {
    var c := s.clients[i];
    if c.phase == Idle {
      var actor := ActorOf(Current(c));
      if |Mail(s, actor)| < s.capacity {
        a := Action(i, Ask);
      } else {
        a := MailIsServed(s, actor);
      }
    } else if c.phase == Queued {
      var actor := ActorOf(Current(c));
      assert MailIs(s.clients, Mail(s, actor), actor) && i in Mail(s, actor);
      a := MailIsServed(s, actor);
    } else if c.phase == Working {
      a := Action(i, Complete(true));
    } else if c.phase.Emitted? {
      a := Action(i, Deliver);
    } else {
      a := BusyIssuerGoesOn(s, i);
    }
  }

  lemma SettledHasNoMove(s: State, a: Action)
    requires Quiescent(s)
    ensures !Enabled(s, a)
  {
    hide Mail;
  }

  /** Deadlock freedom: a state of a run has a next step exactly when some client is unsettled,
      and a request is never left with a failure as its only way on unless its signature failed. */
  lemma {:induction false} GoesOnExactlyUntilQuiescent(s0: State, actions: seq<Action>)
    requires Initial(s0) && Legal(s0, actions)
    ensures var s := Run(s0, actions);
      && (!Quiescent(s) <==> exists a :: Enabled(s, a))
      && (!Quiescent(s) ==> exists a :: Enabled(s, a) && (a.move.Fail? ==> s.clients[a.client].phase == Signed(false)))
  {
    hide *;
    InitialIsPlaced(s0);
    RunKeepsPlaced(s0, actions);
    GoesOnFrom(Run(s0, actions));
  }

  lemma GoesOnFrom(s: State)
    requires Placed(s)
    ensures !Quiescent(s) <==> exists a :: Enabled(s, a)
    ensures !Quiescent(s) ==> exists a :: Enabled(s, a) && (a.move.Fail? ==> s.clients[a.client].phase == Signed(false))
  {
    hide Settled, Placed, Enabled;
    if i :| 0 <= i < |s.clients| && !Settled(s.clients[i]) {
      var a := UnsettledGoesOn(s, i);
    } else {
      assert Quiescent(s);
      forall a ensures !Enabled(s, a) {
        SettledHasNoMove(s, a);
      }
    }
  }

  // ---- Every run ends

  /** Steps an ask can still take, at most; an issue takes eight. */
  function StepsLeft(phase: Phase): nat {
    match phase
    case Idle => 8
    case Queued => 7
    case Handling | Working => 6
    case SignQueued | Emitted(_) => 5
    case SignWorking => 4
    case SignEmitted(_) => 3
    case Signed(_) => 2
    case Finished => 1
    case StoppedHandling | StoppedSigned | StoppedDelegated => 0
  }

  function Left(c: Client): nat {
    if Stopped(c.phase) || c.done >= |c.program| then 0
    else 8 * (|c.program| - c.done - 1) + StepsLeft(c.phase)
  }

  function Total(clients: seq<Client>): nat {
    if clients == [] then 0 else Left(clients[0]) + Total(clients[1..])
  }

  lemma {:induction false} TotalAfter(clients: seq<Client>, i: nat, c: Client)
    requires i < |clients|
    ensures Total(clients[i := c]) == Total(clients) - Left(clients[i]) + Left(c)
  {
    if i > 0 {
      assert clients[i := c][1..] == clients[1..][i - 1 := c];
      TotalAfter(clients[1..], i - 1, c);
    } else {
      assert clients[i := c][1..] == clients[1..];
    }
  }

  lemma MoveUsesAStep(c: Client, move: Move)
    requires Allowed(c, move)
    ensures Left(Moved(c, move)) < Left(c)
  {
  }

  lemma {:induction false} RunIsBounded(s: State, actions: seq<Action>)
    requires Legal(s, actions)
    ensures |actions| + Total(Run(s, actions).clients) <= Total(s.clients)
    decreases |actions|
  {
    if actions != [] {
      var a := actions[0];
      MoveUsesAStep(s.clients[a.client], a.move);
      TotalAfter(s.clients, a.client, Moved(s.clients[a.client], a.move));
      RunIsBounded(Step(s, a), actions[1..]);
    }
  }

  function Asks(clients: seq<Client>): nat {
    if clients == [] then 0 else |clients[0].program| + Asks(clients[1..])
  }

  lemma {:induction false} TotalOfIdle(clients: seq<Client>)
    requires forall i :: 0 <= i < |clients| ==> clients[i].done == 0 && clients[i].phase == Idle
    ensures Total(clients) == 8 * Asks(clients)
  {
    if clients != [] {
      TotalOfIdle(clients[1..]);
    }
  }

  /** No interleaving takes more than eight steps for each ask of the clients' programs. */
  lemma {:induction false} RunsEnd(s: State, actions: seq<Action>)
    requires Initial(s) && Legal(s, actions)
    ensures |actions| <= 8 * Asks(s.clients)
  {
    RunIsBounded(s, actions);
    TotalOfIdle(s.clients);
  }

  // ---- Every ask is answered once

  /** The issuer's handler has asked for a signature. */
  predicate SignatureAsked(phase: Phase) {
    AwaitsSignature(phase) || phase.Finished? || phase.StoppedSigned?
  }

  /** The `index`-th ask of the client, or the signature asked on its behalf, has been sent. */
  predicate Asked(c: Client, index: nat, kind: Kind) {
    && index <= c.done && index < |c.program|
    && ((kind == c.program[index] && (index < c.done || c.phase != Idle))
        || (kind == SignHash && Signs(c.program[index]) && (index < c.done || SignatureAsked(c.phase))))
  }

  /** Its sender has the reply. */
  predicate Replies(c: Client, index: nat, kind: Kind) {
    && index <= c.done && index < |c.program|
    && ((kind == c.program[index] && (index < c.done || Stopped(c.phase)))
        || (kind == SignHash && Signs(c.program[index])
            && (index < c.done || c.phase.Signed? || c.phase.Finished? || c.phase.StoppedSigned?)))
  }

  function AskCount(clients: seq<Client>, m: Message): nat {
    if m.id.client < |clients| && Asked(clients[m.id.client], m.id.index, m.kind) then 1 else 0
  }

  function ReplyCount(clients: seq<Client>, m: Message): nat {
    if m.id.client < |clients| && Replies(clients[m.id.client], m.id.index, m.kind) then 1 else 0
  }

  ghost predicate Answered(s: State) {
    && (forall m :: multiset(s.asked)[m] == AskCount(s.clients, m))
    && (forall m :: multiset(s.replies)[m] == ReplyCount(s.clients, m))
  }

  lemma MoveAsks(c: Client, i: nat, move: Move, index: nat, kind: Kind)
    requires Allowed(c, move)
    ensures var sent := Message(kind, Id(i, index)) in Sends(c, i, move);
      && (sent ==> !Asked(c, index, kind))
      && (Asked(Moved(c, move), index, kind) <==> Asked(c, index, kind) || sent)
  {
  }

  lemma MoveReplies(c: Client, i: nat, move: Move, index: nat, kind: Kind)
    requires Allowed(c, move)
    ensures var given := Message(kind, Id(i, index)) in Answers(c, i, move);
      && (given ==> !Replies(c, index, kind))
      && (Replies(Moved(c, move), index, kind) <==> Replies(c, index, kind) || given)
  {
  }

  lemma MoveIsOwn(c: Client, i: nat, move: Move)
    requires Allowed(c, move)
    ensures |Sends(c, i, move)| <= 1 && |Answers(c, i, move)| <= 1
    ensures forall m :: m in Sends(c, i, move) || m in Answers(c, i, move) ==> m.id.client == i
  {
  }

  lemma CountExtended(messages: seq<Message>, added: seq<Message>, m: Message)
    requires |added| <= 1
    ensures multiset(messages + added)[m] == multiset(messages)[m] + if m in added then 1 else 0
  {
    if added == [] {
      assert messages + added == messages;
    } else {
      assert added == [added[0]];
      assert multiset(messages + added) == multiset(messages) + multiset{added[0]};
    }
  }

  lemma StepKeepsAnswered(s: State, a: Action)
    requires Enabled(s, a) && Answered(s)
    ensures Answered(Step(s, a))
  {
    var c, s' := s.clients[a.client], Step(s, a);
    var sent, given := Sends(c, a.client, a.move), Answers(c, a.client, a.move);
    MoveIsOwn(c, a.client, a.move);
    hide Asked, Replies, Moved, Enabled, Allowed, Sends, Answers, Emits, MailAfter, IssuerAfter;
    forall m
        ensures multiset(s'.asked)[m] == AskCount(s'.clients, m)
            && multiset(s'.replies)[m] == ReplyCount(s'.clients, m) {
      CountExtended(s.asked, sent, m);
      CountExtended(s.replies, given, m);
      if m.id.client == a.client {
        MoveAsks(c, a.client, a.move, m.id.index, m.kind);
        MoveReplies(c, a.client, a.move, m.id.index, m.kind);
        assert m == Message(m.kind, Id(a.client, m.id.index));
      }
    }
  }

  lemma {:induction false} RunKeepsAnswered(s: State, actions: seq<Action>)
    requires Answered(s) && Legal(s, actions)
    ensures Answered(Run(s, actions))
    decreases |actions|
  {
    if actions != [] {
      StepKeepsAnswered(s, actions[0]);
      RunKeepsAnswered(Step(s, actions[0]), actions[1..]);
    }
  }

  lemma RepliesFollowAsks(c: Client, index: nat, kind: Kind)
    requires WellFormed(c)
    ensures Replies(c, index, kind) ==> Asked(c, index, kind)
    ensures Settled(c) && Asked(c, index, kind) ==> Replies(c, index, kind)
  {
  }

  lemma AnsweredAtMostOnce(s: State, m: Message)
    requires Answered(s) && Placed(s)
    ensures multiset(s.replies)[m] <= multiset(s.asked)[m] <= 1
    ensures Quiescent(s) ==> multiset(s.replies)[m] == multiset(s.asked)[m]
  {
    hide Asked, Replies, MailIs, Handles, Mail, WellFormed, Settled;
    if m.id.client < |s.clients| {
      RepliesFollowAsks(s.clients[m.id.client], m.id.index, m.kind);
    }
  }

  lemma InitialIsAnswered(s: State)
    requires Initial(s)
    ensures Answered(s)
  {
    hide MailIs, WellFormed;
  }

  lemma AnsweredRun(s0: State, actions: seq<Action>)
    requires Initial(s0) && Legal(s0, actions)
    ensures Placed(Run(s0, actions)) && Answered(Run(s0, actions))
  {
    hide *;
    InitialIsPlaced(s0);
    InitialIsAnswered(s0);
    RunKeepsPlaced(s0, actions);
    RunKeepsAnswered(s0, actions);
  }

  /** No message, the issuer's own for a signature included, is asked or answered twice or
      answered unasked; and when a run cannot go on, the messages answered are those asked. */
  lemma {:induction false} EveryAskIsAnsweredOnce(s0: State, actions: seq<Action>)
    requires Initial(s0) && Legal(s0, actions)
    ensures var s := Run(s0, actions);
      && (forall m :: multiset(s.replies)[m] <= multiset(s.asked)[m] <= 1)
      && ((forall a :: !Enabled(s, a)) ==> multiset(s.replies) == multiset(s.asked))
  {
    hide *;
    AnsweredRun(s0, actions);
    GoesOnExactlyUntilQuiescent(s0, actions);
    var s := Run(s0, actions);
    forall m ensures multiset(s.replies)[m] <= multiset(s.asked)[m] <= 1 {
      AnsweredAtMostOnce(s, m);
    }
    if Quiescent(s) {
      forall m ensures multiset(s.replies)[m] == multiset(s.asked)[m] {
        AnsweredAtMostOnce(s, m);
      }
    }
  }

  /** What has been answered at the end of a run: the whole program of a client, with a signature
      for each issue, or the part up to the ask that failed. */
  lemma {:induction false} EndOfRunHasAnswered(s0: State, actions: seq<Action>, i: nat, index: nat)
    requires Initial(s0) && Legal(s0, actions) && forall a :: !Enabled(Run(s0, actions), a)
    requires i < |Run(s0, actions).clients| && index < |Run(s0, actions).clients[i].program|
    ensures var s := Run(s0, actions);
            var c := s.clients[i];
      && Settled(c)
      && (Message(c.program[index], Id(i, index)) in s.replies <==> !Stopped(c.phase) || index <= c.done)
      && (Signs(c.program[index]) ==>
            (Message(SignHash, Id(i, index)) in s.replies
             <==> !Stopped(c.phase) || index < c.done || (index == c.done && c.phase.StoppedSigned?)))
  {
    AnsweredRun(s0, actions);
    GoesOnExactlyUntilQuiescent(s0, actions);
    hide Run, Legal, Initial, Enabled;
    AnsweredBySettled(Run(s0, actions), i, index);
  }

  lemma AnsweredBySettled(s: State, i: nat, index: nat)
    requires Answered(s) && Placed(s) && i < |s.clients| && Settled(s.clients[i]) && index < |s.clients[i].program|
    ensures var c := s.clients[i];
      && (Message(c.program[index], Id(i, index)) in s.replies <==> !Stopped(c.phase) || index <= c.done)
      && (Signs(c.program[index]) ==>
            (Message(SignHash, Id(i, index)) in s.replies
             <==> !Stopped(c.phase) || index < c.done || (index == c.done && c.phase.StoppedSigned?)))
  {
    var c := s.clients[i];
    assert WellFormed(c);
    var own, signature := Message(c.program[index], Id(i, index)), Message(SignHash, Id(i, index));
    assert multiset(s.replies)[own] == ReplyCount(s.clients, own);
    assert multiset(s.replies)[signature] == ReplyCount(s.clients, signature);
    hide Answered, Placed, MailIs, Handles, Mail;
    assert own in s.replies <==> multiset(s.replies)[own] > 0;
    assert signature in s.replies <==> multiset(s.replies)[signature] > 0;
  }

  // ---- Ensure before read

  /** Every path this client has ensured is reported, and so is one about to be. */
  predicate HasEnsured(c: Client, reported: set<nat>) {
    && (forall k :: 0 <= k < c.done && k < |c.program| && c.program[k] == EnsureIdentity ==> c.path in reported)
    && (c.phase == Emitted(true) && c.done < |c.program| && Current(c) == EnsureIdentity ==> c.path in reported)
  }

  ghost predicate AllEnsured(s: State) {
    forall i :: 0 <= i < |s.clients| ==> HasEnsured(s.clients[i], s.reported)
  }

  lemma MoveKeepsEnsured(c: Client, move: Move, reported: set<nat>, reported': set<nat>)
    requires Allowed(c, move) && HasEnsured(c, reported) && reported <= reported'
    requires move == Complete(true) && c.phase == Working && Current(c) == EnsureIdentity ==> c.path in reported'
    ensures HasEnsured(Moved(c, move), reported')
  {
  }

  lemma StepKeepsEnsured(s: State, a: Action)
    requires Enabled(s, a) && AllEnsured(s)
    ensures AllEnsured(Step(s, a)) && s.reported <= Step(s, a).reported
  {
    MoveKeepsEnsured(s.clients[a.client], a.move, s.reported, Step(s, a).reported);
    hide Moved, Allowed, MailAfter, IssuerAfter;
  }

  lemma {:induction false} RunKeepsEnsured(s: State, actions: seq<Action>)
    requires AllEnsured(s) && Legal(s, actions)
    ensures AllEnsured(Run(s, actions)) && s.reported <= Run(s, actions).reported
    decreases |actions|
  {
    if actions != [] {
      StepKeepsEnsured(s, actions[0]);
      RunKeepsEnsured(Step(s, actions[0]), actions[1..]);
    }
  }

  /** The `n`-th step of the run is the successful end of this ask's task. */
  ghost predicate Reports(s: State, actions: seq<Action>, n: nat, i: nat, index: nat) {
    && n < |actions| && Legal(s, actions[..n]) && actions[n] == Action(i, Complete(true))
    && var before := Run(s, actions[..n]);
       i < |before.clients| && before.clients[i].done == index && before.clients[i].phase == Working
  }

  /** The ask has not succeeded yet. */
  predicate Pending(c: Client, index: nat) {
    WellFormed(c) && c.done <= index < |c.program| && (c.done == index ==> c.phase != Emitted(true))
  }

  lemma MoveLeavesPending(c: Client, move: Move, index: nat)
    requires Allowed(c, move) && Pending(c, index) && ActorOf(c.program[index]) != Issuer
    ensures Pending(Moved(c, move), index) || (move == Complete(true) && c.done == index && c.phase == Working)
  {
  }

  lemma ReportsLater(s: State, actions: seq<Action>, k: nat, i: nat, index: nat)
    requires Legal(s, actions) && actions != [] && Reports(Step(s, actions[0]), actions[1..], k, i, index)
    ensures Reports(s, actions, k + 1, i, index)
  {
    hide Enabled, Step;
    assert actions[..k + 1][1..] == actions[1..][..k] && actions[..k + 1][0] == actions[0];
  }

  /** An ask of a delegated actor that is done was ended by a success of its own task. */
  lemma {:induction false} DoneWasReported(s: State, actions: seq<Action>, i: nat, index: nat) returns (n: nat)
    requires Legal(s, actions) && i < |s.clients| && i < |Run(s, actions).clients|
    requires Pending(s.clients[i], index) && ActorOf(s.clients[i].program[index]) != Issuer
    requires index < Run(s, actions).clients[i].done
    ensures Reports(s, actions, n, i, index)
    decreases |actions|
  {
    var a, next := actions[0], Step(s, actions[0]);
    if a.client == i {
      MoveLeavesPending(s.clients[i], a.move, index);
    }
    hide Allowed, Moved, Pending, MailAfter, IssuerAfter, Emits, Sends, Answers;
    if Pending(next.clients[i], index) {
      var k := DoneWasReported(next, actions[1..], i, index);
      n := k + 1;
      ReportsLater(s, actions, k, i, index);
    } else {
      n := 0;
      assert actions[..0] == [] && Run(s, []) == s;
    }
  }

  /** A set-up asks for the identity and then for its projection: the message to read is taken only
      after the task of this client's own ensure came to a good end, whatever the other clients do. */
  lemma {:induction false} ReadFollowsItsEnsure(s0: State, actions: seq<Action>, i: nat, ensured: nat)
    requires Initial(s0) && Legal(s0, actions)
    requires var s := Run(s0, actions);
      && Enabled(s, Action(i, TakeByKey)) && Current(s.clients[i]) == ReadProjection
      && ensured < s.clients[i].done && s.clients[i].program[ensured] == EnsureIdentity
    ensures exists n :: Reports(s0, actions, n, i, ensured)
    ensures var s := Run(s0, actions); s.clients[i].path in s.reported
  {
    RunKeepsEnsured(s0, actions);
    RunKeepsPrograms(s0, actions, i);
    var n := DoneWasReported(s0, actions, i, ensured);
  }
}
