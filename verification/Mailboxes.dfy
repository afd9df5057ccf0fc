/** The order of the mailboxes: every actor receives its messages in the order in which they were
    asked, and what is asked and not received stands in its mailbox, in that order. */
module Mailboxes {
  import opened ByteStrings
  import opened Actors
  import opened Progress

  function AskedOf(messages: seq<Message>, actor: Actor): seq<Message> {
    if messages == [] then []
    else
      var last := messages[|messages| - 1];
      AskedOf(messages[..|messages| - 1], actor) + if ActorOf(last.kind) == actor then [last] else []
  }

  /** The messages of an actor in the order of their receipts. */
  function ReceivedBy(trace: seq<Event>, actor: Actor): seq<Message> {
    if trace == [] then []
    else
      var last := trace[|trace| - 1];
      ReceivedBy(trace[..|trace| - 1], actor)
      + if last.Received? && ActorOf(last.kind) == actor then [Message(last.kind, last.id)] else []
  }

  /** The message of this client that waits in a mailbox. */
  function Waiting(c: Client, i: nat): Message
    requires c.done < |c.program|
  {
    Message(if c.phase == SignQueued then SignHash else Current(c), Id(i, c.done))
  }

  /** The mailbox, message by message. */
  function Letters(clients: seq<Client>, mail: seq<nat>): (letters: seq<Message>)
    requires forall k :: 0 <= k < |mail| ==> mail[k] < |clients| && clients[mail[k]].done < |clients[mail[k]].program|
    ensures |letters| == |mail|
  {
    seq(|mail|, k requires 0 <= k < |mail| => Waiting(clients[mail[k]], mail[k]))
  }

  ghost predicate Deliverable(clients: seq<Client>, mail: seq<nat>) {
    forall k :: 0 <= k < |mail| ==> mail[k] < |clients| && clients[mail[k]].done < |clients[mail[k]].program|
  }

  ghost predicate InOrderOfAsking(s: State, actor: Actor) {
    && Deliverable(s.clients, Mail(s, actor))
    && AskedOf(s.asked, actor) == ReceivedBy(s.trace, actor) + Letters(s.clients, Mail(s, actor))
  }

  lemma MailIsDeliverable(s: State, actor: Actor)
    requires Placed(s)
    ensures Deliverable(s.clients, Mail(s, actor))
  {
    assert MailIs(s.clients, Mail(s, actor), actor);
    forall k | 0 <= k < |Mail(s, actor)| ensures WaitsFor(s.clients[Mail(s, actor)[k]], actor) {
      assert Mail(s, actor)[k] in Mail(s, actor);
    }
  }

  lemma AskedOfExtended(messages: seq<Message>, added: seq<Message>, actor: Actor)
    requires |added| <= 1
    ensures AskedOf(messages + added, actor)
         == AskedOf(messages, actor) + if added != [] && ActorOf(added[0].kind) == actor then added else []
  {
    if added == [] {
      assert messages + added == messages;
    } else {
      assert added == [added[0]];
      assert (messages + added)[..|messages|] == messages;
    }
  }

  lemma ReceivedByExtended(trace: seq<Event>, added: seq<Event>, actor: Actor)
    requires |added| <= 1
    ensures ReceivedBy(trace + added, actor)
         == ReceivedBy(trace, actor)
            + if added != [] && added[0].Received? && ActorOf(added[0].kind) == actor
              then [Message(added[0].kind, added[0].id)] else []
  {
    if added == [] {
      assert trace + added == trace;
    } else {
      assert added == [added[0]];
      assert (trace + added)[..|trace|] == trace;
    }
  }

  /** No mailbox ever holds more than its capacity. */
  ghost predicate Bounded(s: State) {
    forall actor :: |Mail(s, actor)| <= s.capacity
  }

  lemma StepKeepsBounded(s: State, a: Action)
    requires Enabled(s, a) && Bounded(s)
    ensures Bounded(Step(s, a))
  {
    forall actor ensures |Mail(Step(s, a), actor)| <= s.capacity {
      StepOnMail(s, a, actor);
      assert |Mail(s, actor)| <= s.capacity;
      hide Step;
    }
  }

  lemma {:induction false} MailboxesStayBounded(s: State, actions: seq<Action>, actor: Actor)
    requires Bounded(s) && Legal(s, actions)
    ensures Bounded(Run(s, actions)) && Run(s, actions).capacity == s.capacity
    ensures |Mail(Run(s, actions), actor)| <= s.capacity
    decreases |actions|
  {
    if actions != [] {
      StepKeepsBounded(s, actions[0]);
      MailboxesStayBounded(Step(s, actions[0]), actions[1..], actor);
    }
  }

  /** What a move adds to what this actor was asked and has received. */
  lemma MoveAddsToMail(c: Client, i: nat, move: Move, actor: Actor)
    requires Allowed(c, move)
    ensures var sent := Sends(c, i, move);
      && |sent| <= 1
      && (Enters(c, move, actor) ==> sent == [Waiting(Moved(c, move), i)] && ActorOf(sent[0].kind) == actor)
      && (!Enters(c, move, actor) ==> sent == [] || ActorOf(sent[0].kind) != actor)
    ensures var events := Emits(c, i, move);
      && |events| <= 1
      && (Exits(move, actor) ==>
            var m := Waiting(c, i); events == [Received(m.kind, m.id)] && ActorOf(m.kind) == actor)
      && (!Exits(move, actor) ==> events == [] || !events[0].Received? || ActorOf(events[0].kind) != actor)
    ensures WaitsFor(c, actor) ==> Exits(move, actor)
    ensures Enters(c, move, actor) ==> !Exits(move, actor)
    ensures Moved(c, move).program == c.program
  {
  }

  /** The letters of the others stay as they are. */
  lemma LettersOfOthers(clients: seq<Client>, mail: seq<nat>, i: nat, c: Client)
    requires Deliverable(clients, mail) && i < |clients| && i !in mail
    ensures Deliverable(clients[i := c], mail) && Letters(clients[i := c], mail) == Letters(clients, mail)
  {
    forall k | 0 <= k < |mail| ensures clients[i := c][mail[k]] == clients[mail[k]] {
      assert mail[k] in mail;
    }
  }

  lemma LettersGain(clients: seq<Client>, mail: seq<nat>, i: nat, c: Client)
    requires Deliverable(clients, mail) && i < |clients| && i !in mail && c.done < |c.program|
    ensures Deliverable(clients[i := c], mail + [i])
    ensures Letters(clients[i := c], mail + [i]) == Letters(clients, mail) + [Waiting(c, i)]
  {
    LettersOfOthers(clients, mail, i, c);
  }

  lemma LettersLose(clients: seq<Client>, mail: seq<nat>, c: Client)
    requires mail != [] && Deliverable(clients, mail) && mail[0] !in mail[1..]
    ensures Deliverable(clients[mail[0] := c], mail[1..])
    ensures Letters(clients, mail) == [Waiting(clients[mail[0]], mail[0])] + Letters(clients[mail[0] := c], mail[1..])
  {
    LettersOfOthers(clients, mail[1..], mail[0], c);
  }

  lemma StepOnMail(s: State, a: Action, actor: Actor)
    requires Enabled(s, a)
    ensures a.client < |s.clients| && Allowed(s.clients[a.client], a.move)
    ensures Mail(Step(s, a), actor) == MailAfter(s, a, actor)
    ensures var c, s' := s.clients[a.client], Step(s, a);
      && s'.clients == s.clients[a.client := Moved(c, a.move)]
      && s'.asked == s.asked + Sends(c, a.client, a.move) && s'.trace == s.trace + Emits(c, a.client, a.move)
  {
    hide MailAfter, IssuerAfter, Moved, Sends, Emits, Answers, Reported, Allowed;
  }

  lemma MailChanges(s: State, a: Action, actor: Actor)
    requires Enabled(s, a)
    ensures var c, mail, mail' := s.clients[a.client], Mail(s, actor), MailAfter(s, a, actor);
      && (Enters(c, a.move, actor) ==> mail' == mail + [a.client])
      && (!Enters(c, a.move, actor) && Exits(a.move, actor) ==>
            mail != [] && mail[0] == a.client && mail' == mail[1..])
      && (!Enters(c, a.move, actor) && !Exits(a.move, actor) ==> mail' == mail)
  {
  }

  lemma EntersInProgram(c: Client, move: Move, actor: Actor)
    requires Allowed(c, move) && Enters(c, move, actor)
    ensures Moved(c, move).done < |Moved(c, move).program|
  {
  }

  /** What a move adds to the two records of an actor. */
  lemma RecordsChange(asked: seq<Message>, trace: seq<Event>, c: Client, i: nat, move: Move, actor: Actor)
    requires Allowed(c, move)
    ensures Enters(c, move, actor) ==> Moved(c, move).done < |Moved(c, move).program|
    ensures AskedOf(asked + Sends(c, i, move), actor)
         == AskedOf(asked, actor) + if Enters(c, move, actor) then [Waiting(Moved(c, move), i)] else []
    ensures ReceivedBy(trace + Emits(c, i, move), actor)
         == ReceivedBy(trace, actor) + if Exits(move, actor) then [Waiting(c, i)] else []
    ensures Enters(c, move, actor) ==> !Exits(move, actor)
    ensures WaitsFor(c, actor) ==> Exits(move, actor)
  {
    MoveAddsToMail(c, i, move, actor);
    if Enters(c, move, actor) {
      EntersInProgram(c, move, actor);
    }
    hide Allowed, Moved, Sends, Emits, WaitsFor, Exits, Enters, AskedOf, ReceivedBy, Waiting;
    AskedOfExtended(asked, Sends(c, i, move), actor);
    ReceivedByExtended(trace, Emits(c, i, move), actor);
  }

  lemma OrderAfterEntering(clients: seq<Client>, clients': seq<Client>, mail: seq<nat>, i: nat, c: Client,
                           asked: seq<Message>, received: seq<Message>)
    requires i < |clients| && i !in mail && c.done < |c.program| && clients' == clients[i := c]
    requires Deliverable(clients, mail) && asked == received + Letters(clients, mail)
    ensures Deliverable(clients', mail + [i])
    ensures asked + [Waiting(c, i)] == received + [] + Letters(clients', mail + [i])
  {
    LettersGain(clients, mail, i, c);
    hide Waiting, Letters, Deliverable;
  }

  lemma OrderAfterLeaving(clients: seq<Client>, clients': seq<Client>, mail: seq<nat>, i: nat, c: Client,
                          asked: seq<Message>, received: seq<Message>)
    requires mail != [] && mail[0] == i < |clients| && i !in mail[1..] && clients' == clients[i := c]
    requires Deliverable(clients, mail) && asked == received + Letters(clients, mail)
    ensures Deliverable(clients', mail[1..]) && clients[i].done < |clients[i].program|
    ensures asked + [] == received + [Waiting(clients[i], i)] + Letters(clients', mail[1..])
  {
    LettersLose(clients, mail, c);
    hide Waiting, Letters;
  }

  lemma OrderOtherwise(clients: seq<Client>, clients': seq<Client>, mail: seq<nat>, i: nat, c: Client,
                       asked: seq<Message>, received: seq<Message>)
    requires i < |clients| && i !in mail && clients' == clients[i := c]
    requires Deliverable(clients, mail) && asked == received + Letters(clients, mail)
    ensures Deliverable(clients', mail) && asked + [] == received + [] + Letters(clients', mail)
  {
    LettersOfOthers(clients, mail, i, c);
    hide Waiting, Letters;
  }

  lemma StepKeepsOrder(s: State, a: Action, actor: Actor)
    requires Placed(s) && Enabled(s, a) && InOrderOfAsking(s, actor)
    ensures InOrderOfAsking(Step(s, a), actor)
  {
    hide Placed, Enabled, Step, Allowed, Moved, Sends, Emits, WaitsFor, Exits, Enters, AskedOf, ReceivedBy, Waiting,
         Letters, Mail, MailAfter, Deliverable;
    StepOnMail(s, a, actor);
    MailChanges(s, a, actor);
    MailHoldsOnce(s, actor, a.client);
    var c, i, mail, s' := s.clients[a.client], a.client, Mail(s, actor), Step(s, a);
    var asked, received := AskedOf(s.asked, actor), ReceivedBy(s.trace, actor);
    RecordsChange(s.asked, s.trace, c, i, a.move, actor);
    if Enters(c, a.move, actor) {
      OrderAfterEntering(s.clients, s'.clients, mail, i, Moved(c, a.move), asked, received);
    } else if Exits(a.move, actor) {
      OrderAfterLeaving(s.clients, s'.clients, mail, i, Moved(c, a.move), asked, received);
    } else {
      OrderOtherwise(s.clients, s'.clients, mail, i, Moved(c, a.move), asked, received);
    }
  }

  lemma MailHoldsOnce(s: State, actor: Actor, i: nat)
    requires Placed(s) && i < |s.clients|
    ensures var mail := Mail(s, actor);
      && (i in mail <==> WaitsFor(s.clients[i], actor))
      && (mail != [] ==> mail[0] !in mail[1..])
  {
    assert MailIs(s.clients, Mail(s, actor), actor);
  }

  lemma {:induction false} RunKeepsOrder(s: State, actions: seq<Action>, actor: Actor)
    requires Placed(s) && Legal(s, actions) && InOrderOfAsking(s, actor)
    ensures InOrderOfAsking(Run(s, actions), actor)
    decreases |actions|
  {
    if actions != [] {
      StepKeepsOrder(s, actions[0], actor);
      StepKeepsPlaced(s, actions[0]);
      hide Placed, Enabled, Step, InOrderOfAsking;
      RunKeepsOrder(Step(s, actions[0]), actions[1..], actor);
    }
  }

  /** First asked, first received: at every point of every run what an actor has received is a prefix
      of what it was asked, the rest is its mailbox, and at the end it has received everything. */
  lemma {:induction false} ReceivedInOrderOfAsking(s0: State, actions: seq<Action>, actor: Actor)
    requires Initial(s0) && Legal(s0, actions)
    ensures var s := Run(s0, actions);
      && Deliverable(s.clients, Mail(s, actor))
      && AskedOf(s.asked, actor) == ReceivedBy(s.trace, actor) + Letters(s.clients, Mail(s, actor))
      && ((forall a :: !Enabled(s, a)) ==> ReceivedBy(s.trace, actor) == AskedOf(s.asked, actor))
  {
    InitialIsPlaced(s0);
    assert InOrderOfAsking(s0, actor);
    RunKeepsOrder(s0, actions, actor);
    RunKeepsPlaced(s0, actions);
    GoesOnExactlyUntilQuiescent(s0, actions);
    var s := Run(s0, actions);
    hide Run, Legal, Initial, Enabled;
    if Quiescent(s) {
      MailIsEmpty(s, actor);
    }
  }

  lemma MailIsEmpty(s: State, actor: Actor)
    requires Placed(s) && Quiescent(s)
    ensures Mail(s, actor) == []
  {
    var mail := Mail(s, actor);
    assert MailIs(s.clients, mail, actor);
    var first := if mail == [] then 0 else mail[0];
    assert mail != [] ==> first in mail && first < |s.clients|;
    forall i: nat | i < |s.clients| ensures i !in mail {
      assert Settled(s.clients[i]);
    }
  }
}
