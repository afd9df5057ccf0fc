/** The actors as objects (src/actors): the trace recorder, and the runtime root with the mailboxes
    and handlers of the issuer, the session and the key. Each method is what an actor, a task or a
    client does between two suspension points, and is proved to be one step of `Actors.Step`. The
    two drivers make whole runs of them, and conclude from `Progress` and `Trace` what such a run
    leaves in the recorder and in the replies. */
module Runtime {
  import opened ByteStrings
  import opened Actors
  import Progress
  import Trace

  class TraceRecorder {
    var events: seq<Event>

    constructor ()
      ensures events == []
    {
      events := [];
    }

    method Handle(event: Event)
      modifies this
      ensures events == old(events) + [event]
    {
      events := events + [event];
    }

    method Report() returns (reported: seq<Event>)
      ensures reported == events
    {
      reported := events;
    }
  }

  class RuntimeRoot {
    const capacity: nat
    const tracer: TraceRecorder
    var clients: seq<Client>
    var issuerMail: seq<nat>
    var sessionMail: seq<nat>
    var keyMail: seq<nat>
    var issuer: Option<nat>
    var reported: set<nat>
    var asked: seq<Message>
    var replies: seq<Message>

    function View(): State
      reads this, tracer
    {
      State(capacity, clients, issuerMail, sessionMail, keyMail, issuer, reported, tracer.events, asked, replies)
    }

    /** Starts the actors with empty mailboxes for clients that have asked nothing yet. */
    constructor (capacity: nat, programs: seq<(seq<Kind>, nat)>)
      requires capacity > 0
      ensures Initial(View()) && fresh(tracer)
      ensures |clients| == |programs|
      ensures forall i :: 0 <= i < |programs| ==>
          clients[i].program == programs[i].0 && clients[i].path == programs[i].1
    {
      this.capacity := capacity;
      tracer := new TraceRecorder();
      clients := seq(|programs|, i requires 0 <= i < |programs| => Client(programs[i].0, programs[i].1, 0, Idle));
      issuerMail, sessionMail, keyMail, issuer := [], [], [], None;
      reported := {};
      asked, replies := [], [];
    }

    method Goto(i: nat, phase: Phase)
      requires i < |clients|
      modifies this`clients
      ensures clients == old(clients)[i := old(clients)[i].(phase := phase)]
    {
      clients := clients[i := clients[i].(phase := phase)];
    }

    /** A request sends its next message and waits for the reply. */
    method Ask(i: nat)
      requires Enabled(View(), Action(i, Move.Ask))
      modifies this
      ensures View() == Step(old(View()), Action(i, Move.Ask))
    {
      asked := asked + [Message(Current(clients[i]), Id(i, clients[i].done))];
      match ActorOf(Current(clients[i])) {
        case Issuer => issuerMail := issuerMail + [i];
        case Session => sessionMail := sessionMail + [i];
        case Key => keyMail := keyMail + [i];
      }
      Goto(i, Queued);
    }

    // ---- The certificate issuer: its handler keeps the actor until it returns

    method IssuerReceives()
      requires issuerMail != [] && Enabled(View(), Action(issuerMail[0], TakeByIssuer))
      modifies this, tracer
      ensures View() == Step(old(View()), Action(old(issuerMail)[0], TakeByIssuer))
    {
      var i := issuerMail[0];
      issuerMail := issuerMail[1..];
      issuer := Some(i);
      tracer.Handle(Received(Current(clients[i]), Id(i, clients[i].done)));
      Goto(i, Handling);
    }

    /** The signer asks the session and the handler waits. */
    method IssuerAsksSignature(i: nat)
      requires Enabled(View(), Action(i, AskSign))
      modifies this
      ensures View() == Step(old(View()), Action(i, AskSign))
    {
      asked := asked + [Message(SignHash, Id(i, clients[i].done))];
      sessionMail := sessionMail + [i];
      Goto(i, SignQueued);
    }

    /** The handler leaves with an error, before its reply is recorded. */
    method IssuerFails(i: nat)
      requires Enabled(View(), Action(i, Fail))
      modifies this
      ensures View() == Step(old(View()), Action(i, Fail))
    {
      replies := replies + [Message(Current(clients[i]), Id(i, clients[i].done))];
      issuer := None;
      Goto(i, if clients[i].phase == Handling then StoppedHandling else StoppedSigned);
    }

    method IssuerRecordsReply(i: nat)
      requires Enabled(View(), Action(i, RecordReply))
      modifies this, tracer
      ensures View() == Step(old(View()), Action(i, RecordReply))
    {
      tracer.Handle(Replied(Current(clients[i]), Id(i, clients[i].done)));
      Goto(i, Finished);
    }

    method IssuerReturns(i: nat)
      requires Enabled(View(), Action(i, Return))
      modifies this
      ensures View() == Step(old(View()), Action(i, Return))
    {
      replies := replies + [Message(Current(clients[i]), Id(i, clients[i].done))];
      issuer := None;
      clients := clients[i := clients[i].(phase := Idle, done := clients[i].done + 1)];
    }

    // ---- The session and the key: their handlers spawn a task and return

    method SessionReceives()
      requires sessionMail != [] && Enabled(View(), Action(sessionMail[0], TakeBySession))
      modifies this, tracer
      ensures View() == Step(old(View()), Action(old(sessionMail)[0], TakeBySession))
    {
      var i := sessionMail[0];
      sessionMail := sessionMail[1..];
      if clients[i].phase == Queued {
        tracer.Handle(Received(Current(clients[i]), Id(i, clients[i].done)));
        Goto(i, Working);
      } else {
        tracer.Handle(Received(SignHash, Id(i, clients[i].done)));
        Goto(i, SignWorking);
      }
    }

    method KeyReceives()
      requires keyMail != [] && Enabled(View(), Action(keyMail[0], TakeByKey))
      modifies this, tracer
      ensures View() == Step(old(View()), Action(old(keyMail)[0], TakeByKey))
    {
      var i := keyMail[0];
      keyMail := keyMail[1..];
      tracer.Handle(Received(Current(clients[i]), Id(i, clients[i].done)));
      Goto(i, Working);
    }

    /** The blocking work of a task ends, in a value or an error, and the spawned task records its reply. */
    method TaskCompletes(i: nat, ok: bool)
      requires Enabled(View(), Action(i, Complete(ok)))
      modifies this, tracer
      ensures View() == Step(old(View()), Action(i, Complete(ok)))
    {
      var c := clients[i];
      if c.phase == Working {
        if ok && Current(c) == EnsureIdentity {
          reported := reported + {c.path};
        }
        tracer.Handle(Replied(Current(c), Id(i, c.done)));
        Goto(i, Emitted(ok));
      } else {
        tracer.Handle(Replied(SignHash, Id(i, c.done)));
        Goto(i, SignEmitted(ok));
      }
    }

    /** The spawned task sends its result to whoever asked: the issuer's handler or the client. */
    method TaskSends(i: nat)
      requires Enabled(View(), Action(i, Deliver))
      modifies this
      ensures View() == Step(old(View()), Action(i, Deliver))
    {
      var c := clients[i];
      if c.phase.SignEmitted? {
        replies := replies + [Message(SignHash, Id(i, c.done))];
        Goto(i, Signed(c.phase.ok));
      } else {
        replies := replies + [Message(Current(c), Id(i, c.done))];
        clients := clients[i := if c.phase.ok then c.(phase := Idle, done := c.done + 1)
                           else c.(phase := StoppedDelegated)];
      }
    }

    // ---- Whole runs

    method Perform(a: Action)
      requires Enabled(View(), a)
      modifies this, tracer
      ensures View() == Step(old(View()), a)
    {
      match a.move {
        case Ask => Ask(a.client);
        case TakeByIssuer => IssuerReceives();
        case TakeBySession => SessionReceives();
        case TakeByKey => KeyReceives();
        case AskSign => IssuerAsksSignature(a.client);
        case Fail => IssuerFails(a.client);
        case Complete(ok) => TaskCompletes(a.client, ok);
        case Deliver => TaskSends(a.client);
        case RecordReply => IssuerRecordsReply(a.client);
        case Return => IssuerReturns(a.client);
      }
    }

    /** Follows any schedule, leaving out what cannot be done when its turn comes: wherever it
        stops, trace and replies are sound. */
    method Follow(schedule: seq<Action>) returns (ghost past: seq<Action>)
      requires Initial(View())
      modifies this, tracer
      ensures Legal(old(View()), past) && View() == Run(old(View()), past)
      ensures Legal(old(View()), schedule) ==> past == schedule
      ensures Sound(clients, tracer.events, asked, replies)
      ensures |past| <= 8 * Progress.Asks(old(clients))
    {
      ghost var start := View();
      past := [];
      var next := 0;
      assert Legal(start, past) && Run(start, past) == start;
      hide Legal, Run, Initial, Enabled, Step, Sound, Progress.Asks;
      while next < |schedule|
        invariant next <= |schedule|
        invariant Legal(start, past) && View() == Run(start, past)
        invariant Legal(start, schedule) ==> past == schedule[..next]
      {
        var a := schedule[next];
        next := next + 1;
        OnSchedule(start, schedule, next, past);
        if Enabled(View(), a) {
          RunExtended(start, past, a);
          past := past + [a];
          Perform(a);
        }
      }
      RunIsSound(start, past);
      Progress.RunsEnd(start, past);
    }

    /** Lets any scheduler that never idles while something can be done choose every step: it comes
        to an end, within eight steps for each ask, with every request finished, every message
        answered, and a sound trace. */
    method Finish(pick: State -> Action) returns (trace: seq<Event>, ghost past: seq<Action>)
      requires Initial(View())
      requires Diligent(pick)
      modifies this, tracer
      ensures Legal(old(View()), past) && View() == Run(old(View()), past)
      ensures |past| <= 8 * Progress.Asks(old(clients))
      ensures forall i :: 0 <= i < |clients| ==> Progress.Settled(clients[i])
      ensures multiset(replies) == multiset(asked)
      ensures trace == tracer.events && Sound(clients, trace, asked, replies)
    {
      ghost var start := View();
      past := [];
      while Enabled(View(), pick(View()))
        invariant Legal(start, past) && View() == Run(start, past)
        decreases Progress.Total(clients)
      {
        var a := pick(View());
        RunExtended(start, past, a);
        StepUsesUp(View(), a);
        past := past + [a];
        Perform(a);
      }
      RunIsSound(start, past);
      Progress.RunsEnd(start, past);
      Progress.GoesOnExactlyUntilQuiescent(start, past);
      Progress.EveryAskIsAnsweredOnce(start, past);
      trace := tracer.Report();
    }
  }

  lemma OnSchedule(s: State, schedule: seq<Action>, next: nat, past: seq<Action>)
    requires 0 < next <= |schedule| && Legal(s, past)
    requires Legal(s, schedule) ==> past == schedule[..next - 1]
    ensures Legal(s, schedule) ==>
        Enabled(Run(s, past), schedule[next - 1]) && past + [schedule[next - 1]] == schedule[..next]
  {
    hide *;
    if Legal(s, schedule) {
      NextIsEnabled(s, schedule, next - 1);
    }
  }

  /** A scheduler that picks a step that can be taken whenever there is one. */
  ghost predicate Diligent(pick: State -> Action) {
    forall s :: (exists a :: Enabled(s, a)) ==> Enabled(s, pick(s))
  }

  /** What holds of recorder and replies at every point of every run: the issuer's replies directly
      follow their receipts, each client's events are those it would record alone, each actor's
      receipts less replies are its open asks, and nothing is asked or answered twice. */
  ghost predicate Sound(clients: seq<Client>, events: seq<Event>, asked: seq<Message>, replies: seq<Message>) {
    && Trace.Paired(Trace.OfActor(events, Issuer))
    && (forall i: nat :: i < |clients| ==>
        WellFormed(clients[i]) && Trace.Of(events, i) == Trace.Expected(clients[i], i))
    && (forall actor :: Trace.Balance(events, actor) == Trace.OpenCount(clients, actor))
    && (forall m :: multiset(replies)[m] <= multiset(asked)[m] <= 1)
  }

  lemma {:induction false} RunIsSound(s: State, actions: seq<Action>)
    requires Initial(s) && Legal(s, actions)
    ensures var s' := Run(s, actions); Sound(s'.clients, s'.trace, s'.asked, s'.replies)
  {
    hide Run, Legal, Initial;
    Trace.IssuerHandlesOneAtATime(s, actions);
    RunKeepsPrograms(s, actions, 0);
    forall i: nat | i < |Run(s, actions).clients|
      ensures WellFormed(Run(s, actions).clients[i])
          && Trace.Of(Run(s, actions).trace, i) == Trace.Expected(Run(s, actions).clients[i], i)
    {
      Trace.TraceOfEachClient(s, actions, i);
    }
    forall actor
        ensures Trace.Balance(Run(s, actions).trace, actor) == Trace.OpenCount(Run(s, actions).clients, actor) {
      Trace.ReceiptsAreAccountedFor(s, actions, actor);
    }
    Progress.EveryAskIsAnsweredOnce(s, actions);
  }

  lemma StepUsesUp(s: State, a: Action)
    requires Enabled(s, a)
    ensures Progress.Total(Step(s, a).clients) < Progress.Total(s.clients)
  {
    Progress.MoveUsesAStep(s.clients[a.client], a.move);
    Progress.TotalAfter(s.clients, a.client, Moved(s.clients[a.client], a.move));
  }
}
