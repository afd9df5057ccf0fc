/** What becomes of an ask whose task succeeds or fails: a reply to an issue means that a signature
    was made for it, and a failure is never taken for a success. */
module Outcomes {
  import opened ByteStrings
  import opened Actors
  import opened Progress
  import opened Trace

  // ---- A reply means a signature

  /** The `n`-th step of the run is the end of the session's task that signs for this issue. */
  ghost predicate SignatureEnds(s: State, actions: seq<Action>, n: nat, i: nat, index: nat, ok: bool) {
    && n < |actions| && Legal(s, actions[..n]) && actions[n] == Action(i, Complete(ok))
    && var before := Run(s, actions[..n]);
       i < |before.clients| && before.clients[i].done == index && before.clients[i].phase == SignWorking
  }

  /** No signature has been made for this issue yet. */
  predicate Unsigned(c: Client, index: nat) {
    && WellFormed(c) && c.done <= index < |c.program| && Signs(c.program[index])
    && (c.done == index ==> c.phase !in {SignEmitted(true), Signed(true), Finished})
  }

  lemma MoveLeavesUnsigned(c: Client, move: Move, index: nat)
    requires Allowed(c, move) && Unsigned(c, index)
    ensures Unsigned(Moved(c, move), index) || (move == Complete(true) && c.done == index && c.phase == SignWorking)
  {
  }

  lemma EndsLater(s: State, actions: seq<Action>, k: nat, i: nat, index: nat, ok: bool)
    requires Legal(s, actions) && actions != [] && SignatureEnds(Step(s, actions[0]), actions[1..], k, i, index, ok)
    ensures SignatureEnds(s, actions, k + 1, i, index, ok)
  {
    hide Enabled, Step;
    assert actions[..k + 1][1..] == actions[1..][..k] && actions[..k + 1][0] == actions[0];
  }

  lemma {:induction false} SignedSomewhere(s: State, actions: seq<Action>, i: nat, index: nat) returns (n: nat)
    requires Legal(s, actions) && i < |s.clients| && i < |Run(s, actions).clients|
    requires Unsigned(s.clients[i], index) && !Unsigned(Run(s, actions).clients[i], index)
    ensures SignatureEnds(s, actions, n, i, index, true)
    decreases |actions|
  {
    var a, next := actions[0], Step(s, actions[0]);
    if a.client == i {
      MoveLeavesUnsigned(s.clients[i], a.move, index);
    }
    hide Allowed, Moved, Unsigned, MailAfter, IssuerAfter, Emits, Sends, Answers;
    if Unsigned(next.clients[i], index) {
      var k := SignedSomewhere(next, actions[1..], i, index);
      n := k + 1;
      EndsLater(s, actions, k, i, index, true);
    } else {
      n := 0;
      assert actions[..0] == [] && Run(s, []) == s;
    }
  }

  /** A reply to an issue is in the client's part of the trace only behind its signature. */
  lemma ReplyIsBehindSignature(c: Client, i: nat, index: nat)
    requires WellFormed(c) && index < |c.program| && Signs(c.program[index])
    requires Replied(c.program[index], Id(i, index)) in Expected(c, i)
    ensures !Unsigned(c, index)
  {
    var reply := Replied(c.program[index], Id(i, index));
    if reply in Past(c.program, i, c.done) {
      PastIsOld(c.program, i, c.done, reply);
    } else {
      assert reply in Partial(c, i);
      hide Past;
      assert Whole(Current(c), Id(i, c.done))[3] == reply;
    }
  }

  /** Whatever the interleaving: a reply to an issue is recorded, and an issue is done, only after a
      step in which the session's task came to a good end for this very issue. */
  lemma {:induction false} RepliedIssueWasSigned(s0: State, actions: seq<Action>, i: nat, index: nat)
    requires Initial(s0) && Legal(s0, actions)
    requires i < |s0.clients| && index < |s0.clients[i].program| && Signs(s0.clients[i].program[index])
    requires var s := Run(s0, actions);
      || Replied(s0.clients[i].program[index], Id(i, index)) in s.trace
      || (i < |s.clients| && index < s.clients[i].done)
    ensures exists n :: SignatureEnds(s0, actions, n, i, index, true)
  {
    TraceOfEachClient(s0, actions, i);
    var s := Run(s0, actions);
    var reply := Replied(s0.clients[i].program[index], Id(i, index));
    if reply in s.trace {
      OwnEventIsInPart(s.trace, reply);
      hide Expected;
      ReplyIsBehindSignature(s.clients[i], i, index);
    }
    hide Of, Expected;
    var n := SignedSomewhere(s0, actions, i, index);
  }

  // ---- A failed signature

  /** The signature of the current issue has failed. */
  predicate Doomed(c: Client, index: nat) {
    && WellFormed(c) && c.done == index < |c.program| && Signs(c.program[index])
    && c.phase in {SignEmitted(false), Signed(false), StoppedSigned}
  }

  lemma MoveKeepsDoomed(c: Client, move: Move, index: nat)
    requires Allowed(c, move) && Doomed(c, index)
    ensures Doomed(Moved(c, move), index)
  {
  }

  lemma {:induction false} DoomedForEver(s: State, actions: seq<Action>, i: nat, index: nat)
    requires Legal(s, actions) && i < |s.clients| && Doomed(s.clients[i], index)
    ensures i < |Run(s, actions).clients| && Doomed(Run(s, actions).clients[i], index)
    decreases |actions|
  {
    if actions != [] {
      if actions[0].client == i {
        MoveKeepsDoomed(s.clients[i], actions[0].move, index);
      }
      hide Allowed, Moved, Doomed, MailAfter, IssuerAfter, Emits, Sends, Answers;
      DoomedForEver(Step(s, actions[0]), actions[1..], i, index);
    }
  }

  lemma FailureDooms(c: Client)
    requires Allowed(c, Complete(false)) && c.phase == SignWorking
    ensures Doomed(Moved(c, Complete(false)), c.done)
  {
  }

  lemma {:induction false} DoomedAfterFailure(s: State, actions: seq<Action>, n: nat, i: nat, index: nat)
    requires Legal(s, actions) && SignatureEnds(s, actions, n, i, index, false)
    ensures i < |Run(s, actions).clients| && Doomed(Run(s, actions).clients[i], index)
    decreases |actions|
  {
    var next := Step(s, actions[0]);
    if n == 0 {
      assert actions[..0] == [] && Run(s, []) == s;
      FailureDooms(s.clients[i]);
      hide Allowed, Moved, Doomed, MailAfter, IssuerAfter, Emits, Sends, Answers;
      DoomedForEver(next, actions[1..], i, index);
    } else {
      assert actions[..n][1..] == actions[1..][..n - 1] && actions[..n][0] == actions[0];
      hide Step, Enabled, Doomed;
      DoomedAfterFailure(next, actions[1..], n - 1, i, index);
    }
  }

  lemma DoomedHasNoReply(c: Client, i: nat, index: nat)
    requires Doomed(c, index)
    ensures Replied(c.program[index], Id(i, index)) !in Expected(c, i)
  {
    var reply := Replied(c.program[index], Id(i, index));
    if reply in Past(c.program, i, c.done) {
      PastIsOld(c.program, i, c.done, reply);
    }
  }

  /** After its signature failed an issue is never replied to and never done, in any interleaving;
      when the run cannot go on, the request has stopped with the failure. */
  lemma {:induction false} FailedSignatureStops(s0: State, actions: seq<Action>, n: nat, i: nat, index: nat)
    requires Initial(s0) && Legal(s0, actions) && SignatureEnds(s0, actions, n, i, index, false)
    ensures var s := Run(s0, actions);
      && i < |s.clients| && index < |s.clients[i].program| && s.clients[i].done == index
      && Replied(s.clients[i].program[index], Id(i, index)) !in s.trace
      && ((forall a :: !Enabled(s, a)) ==> s.clients[i].phase == StoppedSigned)
  {
    DoomedAfterFailure(s0, actions, n, i, index);
    RunKeepsPrograms(s0, actions, i);
    TraceOfEachClient(s0, actions, i);
    GoesOnExactlyUntilQuiescent(s0, actions);
    var s := Run(s0, actions);
    DoomedHasNoReply(s.clients[i], i, index);
    var reply := Replied(s.clients[i].program[index], Id(i, index));
    if reply in s.trace {
      OwnEventIsInPart(s.trace, reply);
    }
    hide Run, Of, Expected, Initial, SignatureEnds, Legal, Enabled;
  }

  // ---- A good signature

  /** The signature of the issue was made, and the reply follows unless the handler itself fails. */
  predicate OnItsWay(c: Client, index: nat) {
    && WellFormed(c)
    && (c.done > index || (c.done == index && c.phase in {SignEmitted(true), Signed(true), Finished}))
  }

  lemma MoveKeepsOnItsWay(c: Client, move: Move, index: nat)
    requires Allowed(c, move)
    ensures OnItsWay(c, index) ==> OnItsWay(Moved(c, move), index) || move == Fail
    ensures c.phase == SignWorking && move == Complete(true) ==> OnItsWay(Moved(c, move), c.done)
  {
  }

  lemma {:induction false} OnItsWayUnlessFails(s: State, actions: seq<Action>, i: nat, index: nat)
    requires Legal(s, actions) && i < |s.clients| && OnItsWay(s.clients[i], index)
    ensures i < |Run(s, actions).clients|
    ensures OnItsWay(Run(s, actions).clients[i], index) || Action(i, Fail) in actions
    decreases |actions|
  {
    RunKeepsPrograms(s, actions, i);
    if actions != [] {
      if actions[0].client == i {
        MoveKeepsOnItsWay(s.clients[i], actions[0].move, index);
      }
      assert actions == [actions[0]] + actions[1..];
      hide Allowed, Moved, OnItsWay, MailAfter, IssuerAfter, Emits, Sends, Answers;
      if actions[0] != Action(i, Fail) {
        OnItsWayUnlessFails(Step(s, actions[0]), actions[1..], i, index);
      }
    }
  }

  lemma {:induction false} OnItsWayAfterSignature(s: State, actions: seq<Action>, n: nat, i: nat, index: nat)
    requires Legal(s, actions) && SignatureEnds(s, actions, n, i, index, true)
    ensures i < |Run(s, actions).clients|
    ensures OnItsWay(Run(s, actions).clients[i], index) || Action(i, Fail) in actions[n..]
    decreases |actions|
  {
    var next := Step(s, actions[0]);
    if n == 0 {
      assert actions[..0] == [] && Run(s, []) == s;
      MoveKeepsOnItsWay(s.clients[i], Complete(true), index);
      hide Allowed, Moved, OnItsWay, MailAfter, IssuerAfter, Emits, Sends, Answers;
      OnItsWayUnlessFails(next, actions[1..], i, index);
      assert actions[0..] == [actions[0]] + actions[1..];
    } else {
      assert actions[..n][1..] == actions[1..][..n - 1] && actions[..n][0] == actions[0];
      assert actions[n..] == actions[1..][n - 1..];
      hide Step, Enabled, OnItsWay;
      OnItsWayAfterSignature(next, actions[1..], n - 1, i, index);
    }
  }

  /** After a good signature the issue is done, or its own next step other than a failure can be
      taken, unless its handler has failed after all. */
  lemma {:induction false} GoodSignatureGoesOn(s0: State, actions: seq<Action>, n: nat, i: nat, index: nat)
    requires Initial(s0) && Legal(s0, actions) && SignatureEnds(s0, actions, n, i, index, true)
    ensures var s := Run(s0, actions);
      && i < |s.clients|
      && (|| s.clients[i].done > index || Action(i, Fail) in actions[n..]
          || exists move :: move != Fail && Enabled(s, Action(i, move)))
  {
    OnItsWayAfterSignature(s0, actions, n, i, index);
    var s := Run(s0, actions);
    hide *;
    if OnItsWay(s.clients[i], index) {
      OnItsWayMoves(s, i, index);
    }
  }

  lemma OnItsWayMoves(s: State, i: nat, index: nat)
    requires i < |s.clients| && OnItsWay(s.clients[i], index)
    ensures s.clients[i].done > index || exists move :: move != Fail && Enabled(s, Action(i, move))
  {
    hide Mail;
    if s.clients[i].done == index {
      var move := match s.clients[i].phase
        case SignEmitted(_) => Deliver
        case Signed(_) => RecordReply
        case _ => Return;
      assert Enabled(s, Action(i, move));
    }
  }

  // ---- Delegated tasks

  /** The `n`-th step of the run is the end of the task of this client's own ask. */
  ghost predicate TaskEnds(s: State, actions: seq<Action>, n: nat, i: nat, index: nat, ok: bool) {
    && n < |actions| && Legal(s, actions[..n]) && actions[n] == Action(i, Complete(ok))
    && var before := Run(s, actions[..n]);
       i < |before.clients| && before.clients[i].done == index && before.clients[i].phase == Working
  }

  /** The outcome is on its way to the client or has reached it. */
  predicate Decided(c: Client, index: nat, ok: bool) {
    && WellFormed(c)
    && if ok then c.done > index || (c.done == index && c.phase == Emitted(true))
       else c.done == index && c.phase in {Emitted(false), StoppedDelegated}
  }

  lemma MoveKeepsDecided(c: Client, move: Move, index: nat, ok: bool)
    requires Allowed(c, move)
    ensures Decided(c, index, ok) ==> Decided(Moved(c, move), index, ok)
    ensures c.phase == Working && move == Complete(ok) ==> Decided(Moved(c, move), c.done, ok)
  {
  }

  lemma {:induction false} DecidedForEver(s: State, actions: seq<Action>, i: nat, index: nat, ok: bool)
    requires Legal(s, actions) && i < |s.clients| && Decided(s.clients[i], index, ok)
    ensures i < |Run(s, actions).clients| && Decided(Run(s, actions).clients[i], index, ok)
    decreases |actions|
  {
    if actions != [] {
      if actions[0].client == i {
        MoveKeepsDecided(s.clients[i], actions[0].move, index, ok);
      }
      hide Allowed, Moved, Decided, MailAfter, IssuerAfter, Emits, Sends, Answers;
      DecidedForEver(Step(s, actions[0]), actions[1..], i, index, ok);
    }
  }

  lemma {:induction false} DecidedAfterEnd(s: State, actions: seq<Action>, n: nat, i: nat, index: nat, ok: bool)
    requires Legal(s, actions) && TaskEnds(s, actions, n, i, index, ok)
    ensures i < |Run(s, actions).clients| && Decided(Run(s, actions).clients[i], index, ok)
    decreases |actions|
  {
    var next := Step(s, actions[0]);
    if n == 0 {
      assert actions[..0] == [] && Run(s, []) == s;
      MoveKeepsDecided(s.clients[i], Complete(ok), index, ok);
      hide Allowed, Moved, Decided, MailAfter, IssuerAfter, Emits, Sends, Answers;
      DecidedForEver(next, actions[1..], i, index, ok);
    } else {
      assert actions[..n][1..] == actions[1..][..n - 1] && actions[..n][0] == actions[0];
      hide Step, Enabled, Decided;
      DecidedAfterEnd(next, actions[1..], n - 1, i, index, ok);
    }
  }

  /** The outcome of a task is the outcome of its ask: after a success the ask is done, or will be
      when the run cannot go on; after a failure it never is, and the request has stopped with it. */
  lemma {:induction false} TaskDecidesItsAsk(s0: State, actions: seq<Action>, n: nat, i: nat, index: nat, ok: bool)
    requires Initial(s0) && Legal(s0, actions) && TaskEnds(s0, actions, n, i, index, ok)
    ensures var s := Run(s0, actions);
      && i < |s.clients| && (!ok ==> s.clients[i].done == index)
      && ((forall a :: !Enabled(s, a)) ==>
            if ok then s.clients[i].done > index
            else s.clients[i].done == index && s.clients[i].phase == StoppedDelegated)
  {
    DecidedAfterEnd(s0, actions, n, i, index, ok);
    GoesOnExactlyUntilQuiescent(s0, actions);
    hide Run, Initial, TaskEnds, Legal, Enabled;
  }

  // ---- Who handles what

  /** Each actor receives its own kinds of message and no others: the issuer issues and verifies, the
      session reads keys and signs, the Yggdrasil key ensures and projects. */
  lemma ActorsReceiveTheirOwn(s: State, a: Action, kind: Kind, id: Id)
    requires Enabled(s, a) && Step(s, a).trace == s.trace + [Received(kind, id)]
    ensures a.move == TakeByIssuer <==> kind in {IssueAuthority, IssueServer, IssueNode, VerifyChain}
    ensures a.move == TakeBySession <==> kind in {ReadPublicKey, SignHash}
    ensures a.move == TakeByKey <==> kind in {EnsureIdentity, ReadProjection}
    ensures id.client == a.client && id.index == s.clients[a.client].done
  {
    var emitted := Emits(s.clients[a.client], a.client, a.move);
    assert (s.trace + emitted)[|s.trace|..] == emitted;
    assert (s.trace + [Received(kind, id)])[|s.trace|..] == [Received(kind, id)];
    assert emitted == [Received(kind, id)];
    assert emitted[0] == Received(kind, id);
    hide MailAfter, IssuerAfter;
  }

  /** The events of a completed ask, kind by kind. */
  lemma CompletedAskInWords(s0: State, actions: seq<Action>, i: nat, k: nat)
    requires Initial(s0) && Legal(s0, actions) && i < |s0.clients| && k < |s0.clients[i].program|
    requires i < |Run(s0, actions).clients| && k < Run(s0, actions).clients[i].done
    ensures var kind, id := s0.clients[i].program[k], Id(i, k);
      InOrder(if kind in {IssueAuthority, IssueServer, IssueNode}
              then [Received(kind, id), Received(SignHash, id), Replied(SignHash, id), Replied(kind, id)]
              else [Received(kind, id), Replied(kind, id)],
              Run(s0, actions).trace)
  {
    CompletedAskIsNested(s0, actions, i, k);
    hide Run, Legal, Initial, InOrder;
  }
}
