/** Yggdrasil set-ups with the disk in them: the actors of `Actors`, and under each ensure message
    the steps of `YggdrasilKeypairFile::ensure` (src/yggdrasil.rs) on one shared file system. All
    of it interleaves, set-ups may be for one path, and their temporaries may be shared. What
    `Actors.Step` takes for granted about a finished ensure is derived here. */
module Setups {
  import opened ByteStrings
  import opened Paths
  import opened AtomicFile
  import opened Issuance
  import Actors
  import Progress

  /** Where the blocking work of a client's ensure message is. */
  datatype Task = Looking | Committing(commit: Commit, next: nat) | Ended(ok: bool)

  datatype System = System(actors: Actors.State, files: FileSystem, tasks: map<nat, Task>)

  datatype Move =
    | Act(action: Actors.Action)
    | Look(client: nat, product: Option<Bytes>, initialMode: nat)   // exists, else what generating gave
    | Advance(client: nat)                                          // the next step of the commit
    | Drift(client: nat)                                            // written to a file whose path was moved away
    | Stop(client: nat)                                             // an error, or a panic of the work

  /** The paths that the clients' numbers stand for. */
  type Names = nat -> Path

  predicate Ensuring(s: Actors.State, i: nat) {
    && i < |s.clients| && s.clients[i].phase == Actors.Working
    && s.clients[i].done < |s.clients[i].program| && Actors.Current(s.clients[i]) == Actors.EnsureIdentity
  }

  /** The message is answered by what its work came to. */
  predicate Allowed(s: System, m: Move) {
    match m
    case Act(a) =>
      && Actors.Enabled(s.actors, a)
      && (a.move.Complete? && Ensuring(s.actors, a.client) ==>
          a.client in s.tasks && s.tasks[a.client] == Ended(a.move.ok))
    case Look(i, _, _) => i < |s.actors.clients| && i in s.tasks && s.tasks[i] == Looking
    case Advance(i) => i in s.tasks && s.tasks[i].Committing? && s.tasks[i].next < CommitLength(s.tasks[i].commit)
    case Drift(i) =>
      && i in s.tasks && s.tasks[i].Committing? && 0 < s.tasks[i].next <= |s.tasks[i].commit.contents| + 1
      && !Enabled(s.files, CommitOp(s.tasks[i].commit, s.tasks[i].next))
    case Stop(i) => i in s.tasks && !s.tasks[i].Ended?
  }

  function Step(s: System, m: Move, names: Names): System
    requires Allowed(s, m)
  {
    match m
    case Act(a) =>
      System(Actors.Step(s.actors, a), s.files,
             if a.move.TakeByKey? && Actors.Current(s.actors.clients[a.client]) == Actors.EnsureIdentity
             then s.tasks[a.client := Looking] else s.tasks)
    case Look(i, product, initialMode) =>
      var path := names(s.actors.clients[i].path);
      s.(tasks := s.tasks[i :=
        if path in s.files then Ended(true)
        else if product.None? then Ended(false)
        else Committing(Commit(path, product.value, PRIVATE_MODE, initialMode), 0)])
    case Advance(i) =>
      var c, k := s.tasks[i].commit, s.tasks[i].next;
      if Enabled(s.files, CommitOp(c, k)) then
        System(s.actors, Apply(s.files, CommitOp(c, k)),
               s.tasks[i := if k + 1 == CommitLength(c) then Ended(true) else Committing(c, k + 1)])
      else s.(tasks := s.tasks[i := Ended(false)])
    case Drift(i) => s.(tasks := s.tasks[i := Committing(s.tasks[i].commit, s.tasks[i].next + 1)])
    case Stop(i) => s.(tasks := s.tasks[i := Ended(false)])
  }

  predicate Legal(s: System, moves: seq<Move>, names: Names)
    decreases |moves|
  {
    moves == [] || (Allowed(s, moves[0]) && Legal(Step(s, moves[0], names), moves[1..], names))
  }

  function Run(s: System, moves: seq<Move>, names: Names): System
    requires Legal(s, moves, names)
    decreases |moves|
  {
    if moves == [] then s else Run(Step(s, moves[0], names), moves[1..], names)
  }

  /** Nothing is known of any file yet, whatever is on the disk. */
  predicate Initial(s: System) {
    Actors.Initial(s.actors) && s.tasks == map[]
  }

  /** No set-up's temporary is the key pair of another. */
  ghost predicate Apart(clients: seq<Actors.Client>, names: Names) {
    forall i, j ::
        0 <= i < |clients| && 0 <= j < |clients| && TemporaryPath(names(clients[i].path)) == names(clients[j].path) ==>
      names(clients[i].path) == names(clients[j].path)
  }

  // ---- The actors in it

  /** What the actors do in such a run. */
  function Actions(moves: seq<Move>): seq<Actors.Action> {
    if moves == [] then [] else (if moves[0].Act? then [moves[0].action] else []) + Actions(moves[1..])
  }

  /** The disk adds nothing that the actors could not do, so all that holds of every run of the
      actors holds here. */
  lemma {:induction false} RunOfActors(s: System, moves: seq<Move>, names: Names)
    requires Legal(s, moves, names)
    ensures Actors.Legal(s.actors, Actions(moves))
        && Actors.Run(s.actors, Actions(moves)) == Run(s, moves, names).actors
    decreases |moves|
  {
    if moves != [] {
      RunOfActors(Step(s, moves[0], names), moves[1..], names);
      if moves[0].Act? {
        assert Actions(moves)[1..] == Actions(moves[1..]) && Actions(moves)[0] == moves[0].action;
      } else {
        assert Actions(moves) == Actions(moves[1..]);
      }
    }
  }

  // ---- What is ensured is there

  ghost predicate OnDisk(s: System, names: Names, i: nat)
    requires i < |s.actors.clients|
  {
    names(s.actors.clients[i].path) in s.files
  }

  /** Ends that succeeded, and paths taken for ensured, have their file; every ensure at work has
      its task. */
  ghost predicate Grounded(s: System, names: Names) {
    && (forall i: nat :: i < |s.actors.clients| && s.actors.clients[i].path in s.actors.reported ==>
        OnDisk(s, names, i))
    && (forall i: nat :: i in s.tasks ==> i < |s.actors.clients| && TaskIsGrounded(s, names, i))
    && (forall i: nat :: Ensuring(s.actors, i) ==> i in s.tasks)
  }

  ghost predicate TaskIsGrounded(s: System, names: Names, i: nat)
    requires i in s.tasks && i < |s.actors.clients|
  {
    match s.tasks[i]
    case Looking => true
    case Committing(c, next) => c.path == names(s.actors.clients[i].path) && next < CommitLength(c)
    case Ended(ok) => ok ==> OnDisk(s, names, i)
  }

  /** No move takes a set-up's file away. */
  lemma MoveKeepsFiles(s: System, m: Move, names: Names, i: nat)
    requires Allowed(s, m) && Grounded(s, names) && Apart(s.actors.clients, names)
    requires i < |s.actors.clients| && OnDisk(s, names, i)
    ensures names(s.actors.clients[i].path) in Step(s, m, names).files
  {
    if m.Advance? {
      var c, k := s.tasks[m.client].commit, s.tasks[m.client].next;
      assert TaskIsGrounded(s, names, m.client);
      if Enabled(s.files, CommitOp(c, k)) {
        StepKeepsPresent(s.files, c, k, names(s.actors.clients[i].path));
      }
    }
  }

  lemma ActKeepsClients(s: Actors.State, a: Actors.Action)
    requires Actors.Enabled(s, a)
    ensures var s' := Actors.Step(s, a);
      && |s'.clients| == |s.clients|
      && (forall i :: 0 <= i < |s.clients| ==>
          s'.clients[i].path == s.clients[i].path && s'.clients[i].program == s.clients[i].program)
      && (forall i :: 0 <= i < |s.clients| && i != a.client ==> s'.clients[i] == s.clients[i])
      && s'.reported == s.reported + Actors.Reported(s.clients[a.client], a.move)
      && (Actors.Reported(s.clients[a.client], a.move) != {} ==>
            a.move == Actors.Complete(true) && Ensuring(s, a.client))
      && Actors.Reported(s.clients[a.client], a.move) <= {s.clients[a.client].path}
      && (Ensuring(s', a.client) ==> a.move.TakeByKey? && Actors.Current(s.clients[a.client]) == Actors.EnsureIdentity)
  {
  }

  lemma ActKeepsGrounded(s: System, a: Actors.Action, names: Names)
    requires Allowed(s, Act(a)) && Grounded(s, names)
    ensures Grounded(Step(s, Act(a), names), names)
  {
    var s' := Step(s, Act(a), names);
    ActKeepsClients(s.actors, a);
    hide Actors.Enabled, Actors.Step;
    forall i: nat | i < |s'.actors.clients| && s'.actors.clients[i].path in s'.actors.reported
        ensures OnDisk(s', names, i) {
      if s.actors.clients[i].path in s.actors.reported {
        assert OnDisk(s, names, i);
      } else {
        assert TaskIsGrounded(s, names, a.client) && OnDisk(s, names, a.client);
      }
    }
    forall i: nat | i in s'.tasks ensures i < |s'.actors.clients| && TaskIsGrounded(s', names, i) {
      if i in s.tasks {
        assert TaskIsGrounded(s, names, i);
      }
    }
    forall i: nat | Ensuring(s'.actors, i) ensures i in s'.tasks {
      if i != a.client {
        assert Ensuring(s.actors, i);
      }
    }
  }

  lemma WorkKeepsGrounded(s: System, m: Move, names: Names)
    requires Allowed(s, m) && !m.Act? && Grounded(s, names) && Apart(s.actors.clients, names)
    ensures Grounded(Step(s, m, names), names)
  {
    var s' := Step(s, m, names);
    OwnTaskIsGrounded(s, m, names);
    forall i: nat | i < |s.actors.clients| && OnDisk(s, names, i) ensures OnDisk(s', names, i) {
      MoveKeepsFiles(s, m, names, i);
    }
    assert s'.actors == s.actors && s'.tasks.Keys == s.tasks.Keys;
    forall i: nat | i in s'.tasks ensures i < |s'.actors.clients| && TaskIsGrounded(s', names, i) {
      assert TaskIsGrounded(s, names, i);
      if i != m.client {
        assert s'.tasks[i] == s.tasks[i];
      }
    }
    hide Step, Allowed, TaskIsGrounded, OnDisk, Apart, Ensuring;
    forall i: nat | i < |s'.actors.clients| && s'.actors.clients[i].path in s'.actors.reported
        ensures OnDisk(s', names, i) {
      assert OnDisk(s, names, i);
    }
  }

  lemma OwnTaskIsGrounded(s: System, m: Move, names: Names)
    requires Allowed(s, m) && !m.Act? && Grounded(s, names)
    ensures m.client in s.tasks && m.client < |s.actors.clients|
    ensures var s' := Step(s, m, names); m.client in s'.tasks && TaskIsGrounded(s', names, m.client)
  {
    assert TaskIsGrounded(s, names, m.client);
    if m.Advance? && s.tasks[m.client].next + 1 == CommitLength(s.tasks[m.client].commit)
       && Enabled(s.files, CommitOp(s.tasks[m.client].commit, s.tasks[m.client].next)) {
      LastStepLeavesFile(s.files, s.tasks[m.client].commit);
    }
    hide CommitOp, Apply, Enabled;
  }

  lemma StepKeepsGrounded(s: System, m: Move, names: Names)
    requires Allowed(s, m) && Grounded(s, names) && Apart(s.actors.clients, names)
    ensures var s' := Step(s, m, names); Grounded(s', names) && Apart(s'.actors.clients, names)
    ensures var s' := Step(s, m, names);
      && |s'.actors.clients| == |s.actors.clients|
      && forall i :: 0 <= i < |s.actors.clients| ==> s'.actors.clients[i].path == s.actors.clients[i].path
  {
    if m.Act? {
      ActKeepsGrounded(s, m.action, names);
      ActKeepsClients(s.actors, m.action);
    } else {
      WorkKeepsGrounded(s, m, names);
    }
  }

  lemma {:induction false} RunKeepsGrounded(s: System, moves: seq<Move>, names: Names)
    requires Legal(s, moves, names) && Grounded(s, names) && Apart(s.actors.clients, names)
    ensures var s' := Run(s, moves, names);
      && Grounded(s', names) && Apart(s'.actors.clients, names) && |s'.actors.clients| == |s.actors.clients|
      && forall i: nat :: i < |s.actors.clients| ==>
           s'.actors.clients[i].path == s.actors.clients[i].path && (OnDisk(s, names, i) ==> OnDisk(s', names, i))
    decreases |moves|
  {
    hide Grounded, Apart, Allowed, Step;
    if moves != [] {
      var next := Step(s, moves[0], names);
      StepKeepsGrounded(s, moves[0], names);
      RunKeepsGrounded(next, moves[1..], names);
      forall i: nat | i < |s.actors.clients| && OnDisk(s, names, i) ensures OnDisk(next, names, i) {
        MoveKeepsFiles(s, moves[0], names, i);
      }
    }
  }

  lemma InitialIsGrounded(s: System, names: Names)
    requires Initial(s)
    ensures Grounded(s, names)
  {
  }

  /** With any number of set-ups at work at the same time, and the disk under them changing step
      by step: when the message to read a key pair is taken, after the same client's ensure, the
      file is on the disk, and it is still there whenever the read comes to look. */
  lemma {:induction false} ReadFindsTheFile(s0: System, moves: seq<Move>, more: seq<Move>, names: Names, i: nat,
                                            ensured: nat)
    requires Initial(s0) && Legal(s0, moves, names) && Apart(s0.actors.clients, names)
    requires Legal(Run(s0, moves, names), more, names)
    requires var s := Run(s0, moves, names);
      && Actors.Enabled(s.actors, Actors.Action(i, Actors.TakeByKey))
          && Actors.Current(s.actors.clients[i]) == Actors.ReadProjection
      && ensured < s.actors.clients[i].done && s.actors.clients[i].program[ensured] == Actors.EnsureIdentity
    ensures var s := Run(s0, moves, names);
      && names(s.actors.clients[i].path) in s.files
      && names(s.actors.clients[i].path) in Run(s, more, names).files
  {
    InitialIsGrounded(s0, names);
    RunKeepsGrounded(s0, moves, names);
    RunOfActors(s0, moves, names);
    var s := Run(s0, moves, names);
    Progress.ReadFollowsItsEnsure(s0.actors, Actions(moves), i, ensured);
    assert OnDisk(s, names, i);
    RunKeepsGrounded(s, more, names);
    assert OnDisk(Run(s, more, names), names, i);
  }

  // ---- What is there stays as it is

  /** No set-up moves this path away as a temporary of another path. */
  ghost predicate NotATemporary(clients: seq<Actors.Client>, names: Names, p: Path) {
    forall j :: 0 <= j < |clients| && TemporaryPath(names(clients[j].path)) == p ==> names(clients[j].path) == p
  }

  /** The file is there and nobody is about to write it. */
  ghost predicate Unthreatened(s: System, p: Path) {
    && p in s.files
    && forall j: nat :: j in s.tasks && s.tasks[j].Committing? ==>
         s.tasks[j].commit.path != p && TemporaryPath(s.tasks[j].commit.path) != p
  }

  lemma OtherCommitsLeave(fs: FileSystem, c: Commit, k: nat, p: Path)
    requires k < CommitLength(c) && Enabled(fs, CommitOp(c, k)) && c.path != p && TemporaryPath(c.path) != p
    ensures Entry(Apply(fs, CommitOp(c, k)), p) == Entry(fs, p)
  {
  }

  lemma StepLeavesFile(s: System, m: Move, names: Names, p: Path)
    requires Allowed(s, m) && Unthreatened(s, p) && NotATemporary(s.actors.clients, names, p)
    ensures var s' := Step(s, m, names);
      && Unthreatened(s', p) && NotATemporary(s'.actors.clients, names, p) && Entry(s'.files, p) == Entry(s.files, p)
  {
    match m
    case Act(a) =>
      ActKeepsClients(s.actors, a);
      hide Actors.Enabled, Actors.Step, TemporaryPath;
    case Advance(i) =>
      var c, k := s.tasks[i].commit, s.tasks[i].next;
      if Enabled(s.files, CommitOp(c, k)) {
        OtherCommitsLeave(s.files, c, k, p);
      }
      hide CommitOp, Apply, Enabled, TemporaryPath;
    case _ =>
      hide CommitOp, Apply, Enabled, TemporaryPath;
  }

  /** A key pair file that is found is left alone: whatever the set-ups do, with their paths and
      temporaries shared or not, it keeps its bytes and its mode, unless it is another's temporary. */
  lemma {:induction false} ExistingKeypairStays(s: System, moves: seq<Move>, names: Names, p: Path)
    requires Legal(s, moves, names) && Unthreatened(s, p) && NotATemporary(s.actors.clients, names, p)
    ensures Entry(Run(s, moves, names).files, p) == Entry(s.files, p) && Unthreatened(Run(s, moves, names), p)
    decreases |moves|
  {
    if moves != [] {
      StepLeavesFile(s, moves[0], names, p);
      hide Allowed, Step, Unthreatened, NotATemporary;
      ExistingKeypairStays(Step(s, moves[0], names), moves[1..], names, p);
    }
  }

  // ---- Progress, whatever the paths

  /** A task that has not ended belongs to an ensure at work, its commit is unfinished, and after a
      failure its client goes no further than to hear of it. */
  predicate TaskFits(s: System, i: nat)
    requires i in s.tasks && i < |s.actors.clients|
  {
    var phase := s.actors.clients[i].phase;
    match s.tasks[i]
    case Looking => Ensuring(s.actors, i)
    case Committing(c, next) => Ensuring(s.actors, i) && next < CommitLength(c)
    case Ended(ok) => ok || Ensuring(s.actors, i) || phase == Actors.Emitted(false) || phase == Actors.StoppedDelegated
  }

  ghost predicate Staffed(s: System) {
    && (forall i: nat :: i in s.tasks ==> i < |s.actors.clients| && TaskFits(s, i))
    && (forall i: nat :: Ensuring(s.actors, i) ==> i in s.tasks)
  }

  lemma ActFits(s: System, a: Actors.Action, names: Names)
    requires Allowed(s, Act(a)) && Staffed(s)
    ensures var s' := Step(s, Act(a), names);
      && (a.client in s'.tasks ==> a.client < |s'.actors.clients| && TaskFits(s', a.client))
      && (Ensuring(s'.actors, a.client) ==> a.client in s'.tasks)
  {
    assert a.client in s.tasks ==> TaskFits(s, a.client);
  }

  lemma ActKeepsStaffed(s: System, a: Actors.Action, names: Names)
    requires Allowed(s, Act(a)) && Staffed(s)
    ensures Staffed(Step(s, Act(a), names))
  {
    var s' := Step(s, Act(a), names);
    ActFits(s, a, names);
    ActKeepsClients(s.actors, a);
    hide Actors.Enabled, Actors.Step;
    forall i: nat | i in s'.tasks ensures i < |s'.actors.clients| && TaskFits(s', i) {
      assert i in s.tasks ==> TaskFits(s, i);
    }
    forall i: nat | Ensuring(s'.actors, i) ensures i in s'.tasks {
      assert i != a.client ==> Ensuring(s.actors, i);
    }
  }

  lemma WorkKeepsStaffed(s: System, m: Move, names: Names)
    requires Allowed(s, m) && !m.Act? && Staffed(s)
    ensures Staffed(Step(s, m, names))
  {
    var s' := Step(s, m, names);
    assert TaskFits(s, m.client) && s'.actors == s.actors && s'.tasks.Keys == s.tasks.Keys;
    hide Ensuring, Enabled, Apply, CommitOp;
    forall i: nat | i in s'.tasks ensures i < |s'.actors.clients| && TaskFits(s', i) {
      assert TaskFits(s, i);
    }
  }

  lemma StepKeepsStaffed(s: System, m: Move, names: Names)
    requires Allowed(s, m) && Staffed(s)
    ensures Staffed(Step(s, m, names))
  {
    if m.Act? {
      ActKeepsStaffed(s, m.action, names);
    } else {
      WorkKeepsStaffed(s, m, names);
    }
  }

  lemma {:induction false} RunKeepsStaffed(s: System, moves: seq<Move>, names: Names)
    requires Legal(s, moves, names) && Staffed(s)
    ensures Staffed(Run(s, moves, names))
    decreases |moves|
  {
    if moves != [] {
      StepKeepsStaffed(s, moves[0], names);
      RunKeepsStaffed(Step(s, moves[0], names), moves[1..], names);
    }
  }

  lemma InitialIsStaffed(s: System)
    requires Initial(s)
    ensures Staffed(s)
  {
  }

  /** Neither an interruption nor, unless a signature failed, the failure of a handler. */
  predicate GoesForward(s: System, m: Move) {
    && Allowed(s, m) && !m.Stop?
    && (m.Act? && m.action.move.Fail? ==> s.actors.clients[m.action.client].phase == Actors.Signed(false))
  }

  /** The disk holds nobody up, even where set-ups move each other's files away: while some client
      is unsettled, an actor, a client or the work under an ensure message can go forward. */
  lemma {:induction false} GoesOn(s0: System, moves: seq<Move>, names: Names)
    requires Initial(s0) && Legal(s0, moves, names)
    ensures var s := Run(s0, moves, names); !Progress.Quiescent(s.actors) ==> exists m :: GoesForward(s, m)
  {
    InitialIsStaffed(s0);
    RunKeepsStaffed(s0, moves, names);
    RunOfActors(s0, moves, names);
    var s := Run(s0, moves, names);
    if !Progress.Quiescent(s.actors) {
      Progress.GoesOnExactlyUntilQuiescent(s0.actors, Actions(moves));
      var a :| Actors.Enabled(s.actors, a)
          && (a.move.Fail? ==> s.actors.clients[a.client].phase == Actors.Signed(false));
      hide Run, Legal, Initial;
      ActOrWork(s, a);
    }
  }

  lemma ActOrWork(s: System, a: Actors.Action)
    requires Staffed(s) && Actors.Enabled(s.actors, a)
    requires a.move.Fail? ==> s.actors.clients[a.client].phase == Actors.Signed(false)
    ensures exists m :: GoesForward(s, m)
  {
    if a.move.Complete? && Ensuring(s.actors, a.client) {
      var i := a.client;
      assert TaskFits(s, i);
      match s.tasks[i]
      case Looking => assert GoesForward(s, Look(i, None, 0));
      case Committing(_, _) => assert GoesForward(s, Advance(i));
      case Ended(ok) => assert GoesForward(s, Act(Actors.Action(i, Actors.Complete(ok))));
    } else {
      assert GoesForward(s, Act(a));
    }
  }

  // ---- Every run ends

  /** Every generated key pair text has at most `n` bytes. */
  predicate ProductsFit(moves: seq<Move>, n: nat) {
    forall k :: 0 <= k < |moves| && moves[k].Look? && moves[k].product.Some? ==> |moves[k].product.value| <= n
  }

  ghost predicate CommitsFit(s: System, n: nat) {
    forall i: nat :: i in s.tasks && s.tasks[i].Committing? ==> |s.tasks[i].commit.contents| <= n
  }

  /** Steps a task can still take. */
  function Work(tasks: map<nat, Task>, i: nat, n: nat): nat {
    if i !in tasks then 0
    else match tasks[i]
      case Looking => n + 5
      case Committing(c, next) => if next < CommitLength(c) then CommitLength(c) - next else 0
      case Ended(_) => 0
  }

  function AllWork(tasks: map<nat, Task>, clients: nat, n: nat): nat {
    if clients == 0 then 0 else AllWork(tasks, clients - 1, n) + Work(tasks, clients - 1, n)
  }

  lemma {:induction false} AllWorkAfter(tasks: map<nat, Task>, i: nat, task: Task, clients: nat, n: nat)
    ensures AllWork(tasks[i := task], clients, n)
         == AllWork(tasks, clients, n) + if i < clients then Work(tasks[i := task], i, n) - Work(tasks, i, n) else 0
  {
    if clients > 0 {
      AllWorkAfter(tasks, i, task, clients - 1, n);
    }
  }

  /** The measure: the actors' steps left, each worth more than a whole commit, and the tasks'. */
  function Measure(s: System, n: nat): nat {
    (n + 6) * Progress.Total(s.actors.clients) + AllWork(s.tasks, |s.actors.clients|, n)
  }

  lemma ActUsesUp(s: System, a: Actors.Action, names: Names, n: nat)
    requires Allowed(s, Act(a))
    ensures Measure(Step(s, Act(a), names), n) < Measure(s, n)
  {
    var s' := Step(s, Act(a), names);
    Progress.MoveUsesAStep(s.actors.clients[a.client], a.move);
    Progress.TotalAfter(s.actors.clients, a.client, Actors.Moved(s.actors.clients[a.client], a.move));
    AllWorkAfter(s.tasks, a.client, Looking, |s.actors.clients|, n);
    var total, total' := Progress.Total(s.actors.clients), Progress.Total(s'.actors.clients);
    hide Progress.Total, AllWork, Actors.Enabled, Actors.Moved;
    Product(n + 6, total', total - 1);
  }

  lemma Product(k: nat, x: nat, y: int)
    requires x <= y
    ensures k * x <= k * y && k * (y + 1) == k * y + k
  {
  }

  lemma WorkUsesUp(s: System, m: Move, names: Names, n: nat)
    requires Allowed(s, m) && !m.Act? && Staffed(s) && CommitsFit(s, n) && ProductsFit([m], n)
    ensures Measure(Step(s, m, names), n) < Measure(s, n)
  {
    assert TaskFits(s, m.client) && [m][0] == m;
    var s' := Step(s, m, names);
    AllWorkAfter(s.tasks, m.client, s'.tasks[m.client], |s.actors.clients|, n);
    hide AllWork, Apply, Enabled, CommitOp, Ensuring, Progress.Total;
  }

  lemma MoveUsesUp(s: System, m: Move, names: Names, n: nat)
    requires Allowed(s, m) && Staffed(s) && CommitsFit(s, n) && ProductsFit([m], n)
    ensures var s' := Step(s, m, names); Measure(s', n) < Measure(s, n) && Staffed(s') && CommitsFit(s', n)
  {
    StepKeepsStaffed(s, m, names);
    if m.Act? {
      ActUsesUp(s, m.action, names, n);
    } else {
      WorkUsesUp(s, m, names, n);
    }
    CommitsStayFit(s, m, names, n);
    hide *;
  }

  lemma CommitsStayFit(s: System, m: Move, names: Names, n: nat)
    requires Allowed(s, m) && CommitsFit(s, n) && ProductsFit([m], n)
    ensures CommitsFit(Step(s, m, names), n)
  {
    assert [m][0] == m;
    hide Actors.Enabled, Actors.Step, Enabled, Apply, CommitOp;
  }

  lemma {:induction false} RunIsBounded(s: System, moves: seq<Move>, names: Names, n: nat)
    requires Legal(s, moves, names) && Staffed(s) && CommitsFit(s, n) && ProductsFit(moves, n)
    ensures |moves| <= Measure(s, n)
    decreases |moves|
  {
    hide Measure, Allowed, Step, Staffed, CommitsFit;
    if moves != [] {
      assert [moves[0]][0] == moves[0] && ProductsFit([moves[0]], n) && ProductsFit(moves[1..], n);
      hide ProductsFit;
      MoveUsesUp(s, moves[0], names, n);
      RunIsBounded(Step(s, moves[0], names), moves[1..], names, n);
    }
  }

  /** No run goes on for ever: each of its steps is one of eight for an ask, or one of the work
      under an ensure message, whose number the size of the generated text bounds. */
  lemma {:induction false} RunsEnd(s: System, moves: seq<Move>, names: Names, n: nat)
    requires Initial(s) && Legal(s, moves, names) && ProductsFit(moves, n)
    ensures |moves| <= (n + 6) * (8 * Progress.Asks(s.actors.clients))
  {
    InitialIsStaffed(s);
    MeasureOfIdle(s, n);
    hide Initial, Legal, Measure, Staffed, ProductsFit, Progress.Asks;
    RunIsBounded(s, moves, names, n);
  }

  lemma MeasureOfIdle(s: System, n: nat)
    requires Initial(s)
    ensures CommitsFit(s, n) && Measure(s, n) == (n + 6) * (8 * Progress.Asks(s.actors.clients))
  {
    Progress.TotalOfIdle(s.actors.clients);
    NoTasksNoWork(|s.actors.clients|, n);
    hide Progress.Total, Progress.Asks, AllWork;
  }

  lemma {:induction false} NoTasksNoWork(clients: nat, n: nat)
    ensures AllWork(map[], clients, n) == 0
  {
    if clients > 0 {
      NoTasksNoWork(clients - 1, n);
    }
  }

  // ---- The hypothesis is needed

  /** However many set-ups work on these two paths, a read that follows its own ensure finds its file. */
  ghost predicate NeverMissing(names: Names, a: nat, b: nat) {
    forall s0: System, moves: seq<Move>, i: nat, ensured: nat ::
      && Initial(s0) && (forall j :: 0 <= j < |s0.actors.clients| ==> s0.actors.clients[j].path in {a, b})
      && Legal(s0, moves, names)
      && ReadsAfter(Run(s0, moves, names).actors, i, ensured)
      ==> OnDisk(Run(s0, moves, names), names, i)
  }

  /** The message to read is about to be taken, and this earlier ask was an ensure. */
  predicate ReadsAfter(s: Actors.State, i: nat, ensured: nat) {
    && Actors.Enabled(s, Actors.Action(i, Actors.TakeByKey)) && Actors.Current(s.clients[i]) == Actors.ReadProjection
    && ensured < s.clients[i].done && s.clients[i].program[ensured] == Actors.EnsureIdentity
  }

  /** The exact condition: neither path is the other's temporary. */
  lemma NeverMissingExactly(names: Names, a: nat, b: nat)
    ensures NeverMissing(names, a, b)
       <==> names(a) == names(b) || (TemporaryPath(names(a)) != names(b) && TemporaryPath(names(b)) != names(a))
  {
    if names(a) != names(b) && TemporaryPath(names(a)) == names(b) {
      SomeReadMisses(names, a, b, a, b);
    } else if names(a) != names(b) && TemporaryPath(names(b)) == names(a) {
      SomeReadMisses(names, b, a, a, b);
    } else {
      forall s0: System, moves: seq<Move>, i: nat, ensured: nat |
        && Initial(s0) && (forall j :: 0 <= j < |s0.actors.clients| ==> s0.actors.clients[j].path in {a, b})
        && Legal(s0, moves, names)
        && ReadsAfter(Run(s0, moves, names).actors, i, ensured)
        ensures OnDisk(Run(s0, moves, names), names, i)
      {
        assert Apart(s0.actors.clients, names);
        hide Apart, Initial, Legal;
        assert Legal(Run(s0, moves, names), [], names) by { NothingIsLegal(Run(s0, moves, names), names); }
        ReadFindsTheFile(s0, moves, [], names, i, ensured);
      }
    }
  }

  lemma NothingIsLegal(s: System, names: Names)
    ensures Legal(s, [], names) && Run(s, [], names) == s
  {
  }

  lemma {:induction false} RunsJoin(s: System, first: seq<Move>, second: seq<Move>, names: Names)
    requires Legal(s, first, names) && Legal(Run(s, first, names), second, names)
    ensures Legal(s, first + second, names) && Run(s, first + second, names) == Run(Run(s, first, names), second, names)
    decreases |first|
  {
    hide Allowed, Step;
    if first == [] {
      assert first + second == second;
    } else {
      RunsJoin(Step(s, first[0], names), first[1..], second, names);
      assert (first + second)[1..] == first[1..] + second;
    }
  }

  /** What the run below needs to know of a state: its clients, an empty mailbox, disk and tasks. */
  predicate Looks(s: System, clients: seq<Actors.Client>, keyMail: seq<nat>, files: FileSystem, tasks: map<nat, Task>) {
    && s.actors.clients == clients && s.actors.keyMail == keyMail && s.actors.capacity > 0
    && (forall j :: 0 <= j < |clients| ==> Actors.WellFormed(clients[j]))
    && s.files == files && s.tasks == tasks
  }

  predicate NoLook(moves: seq<Move>) {
    forall k :: 0 <= k < |moves| ==> !moves[k].Look?
  }

  lemma OneMove(s: System, m: Move, names: Names)
    requires Allowed(s, m)
    ensures Legal(s, [m], names) && Run(s, [m], names) == Step(s, m, names)
  {
    assert [m][1..] == [];
  }

  /** A client puts its next message into the key's empty mailbox. */
  lemma Asks(s: System, i: nat, names: Names) returns (moves: seq<Move>)
    requires i < |s.actors.clients| && s.actors.clients[i].phase == Actors.Idle
        && s.actors.clients[i].done < |s.actors.clients[i].program|
    requires Actors.ActorOf(Actors.Current(s.actors.clients[i])) == Actors.Key
    requires Looks(s, s.actors.clients, [], s.files, s.tasks)
    ensures Legal(s, moves, names) && NoLook(moves)
    ensures Looks(Run(s, moves, names), s.actors.clients[i := s.actors.clients[i].(phase := Actors.Queued)], [i],
                  s.files, s.tasks)
  {
    var m := Act(Actors.Action(i, Actors.Move.Ask));
    moves := [m];
    OneMove(s, m, names);
    Actors.MovedIsWellFormed(s.actors.clients[i], Actors.Move.Ask);
  }

  lemma TakesEnsure(s: System, i: nat, names: Names) returns (moves: seq<Move>)
    requires i < |s.actors.clients| && s.actors.clients[i].phase == Actors.Queued
        && s.actors.clients[i].done < |s.actors.clients[i].program|
    requires Actors.Current(s.actors.clients[i]) == Actors.EnsureIdentity
    requires Looks(s, s.actors.clients, [i], s.files, s.tasks)
    ensures Legal(s, moves, names) && NoLook(moves)
    ensures Looks(Run(s, moves, names), s.actors.clients[i := s.actors.clients[i].(phase := Actors.Working)], [],
                  s.files, s.tasks[i := Looking])
  {
    var m := Act(Actors.Action(i, Actors.TakeByKey));
    moves := [m];
    OneMove(s, m, names);
    Actors.MovedIsWellFormed(s.actors.clients[i], Actors.TakeByKey);
  }

  /** The work under the message finds the file and the client has its reply. */
  lemma FindsAndReturns(s: System, i: nat, names: Names) returns (moves: seq<Move>)
    requires i < |s.actors.clients| && Ensuring(s.actors, i) && i in s.tasks && s.tasks[i] == Looking
    requires names(s.actors.clients[i].path) in s.files
    requires Looks(s, s.actors.clients, [], s.files, s.tasks)
    ensures Legal(s, moves, names)
    ensures var c := s.actors.clients[i];
            Looks(Run(s, moves, names), s.actors.clients[i := c.(phase := Actors.Idle, done := c.done + 1)], [],
                  s.files, s.tasks[i := Ended(true)])
  {
    var look := Look(i, None, 0);
    OneMove(s, look, names);
    var s1 := Step(s, look, names);
    assert Looks(s1, s.actors.clients, [], s.files, s.tasks[i := Ended(true)]) && Ensuring(s1.actors, i);
    hide Legal, Run, Step, Allowed, Actors.WellFormed;
    var heard := Hears(s1, i, names);
    RunsJoin(s, [look], heard, names);
    moves := [look] + heard;
  }

  /** The work has ended well: its message is answered and the client has its reply. */
  lemma Hears(s: System, i: nat, names: Names) returns (moves: seq<Move>)
    requires i < |s.actors.clients| && Ensuring(s.actors, i) && i in s.tasks && s.tasks[i] == Ended(true)
    requires Looks(s, s.actors.clients, [], s.files, s.tasks)
    ensures Legal(s, moves, names) && NoLook(moves)
    ensures var c := s.actors.clients[i];
            Looks(Run(s, moves, names), s.actors.clients[i := c.(phase := Actors.Idle, done := c.done + 1)], [],
                  s.files, s.tasks)
  {
    hide Legal, Run, Step, Allowed, Actors.WellFormed;
    var first := Reports(s, i, names);
    var next := Run(s, first, names);
    var second := Returns(next, i, names);
    RunsJoin(s, first, second, names);
    moves := first + second;
    var c := s.actors.clients[i];
    assert s.actors.clients[i := c.(phase := Actors.Emitted(true))][i := c.(phase := Actors.Idle, done := c.done + 1)]
        == s.actors.clients[i := c.(phase := Actors.Idle, done := c.done + 1)];
  }

  lemma Reports(s: System, i: nat, names: Names) returns (moves: seq<Move>)
    requires i < |s.actors.clients| && Ensuring(s.actors, i) && i in s.tasks && s.tasks[i] == Ended(true)
    requires Looks(s, s.actors.clients, [], s.files, s.tasks)
    ensures Legal(s, moves, names) && NoLook(moves)
    ensures Looks(Run(s, moves, names), s.actors.clients[i := s.actors.clients[i].(phase := Actors.Emitted(true))],
                  [], s.files, s.tasks)
  {
    var m := Act(Actors.Action(i, Actors.Complete(true)));
    moves := [m];
    OneMove(s, m, names);
    Actors.MovedIsWellFormed(s.actors.clients[i], Actors.Complete(true));
  }

  lemma Returns(s: System, i: nat, names: Names) returns (moves: seq<Move>)
    requires i < |s.actors.clients| && s.actors.clients[i].phase == Actors.Emitted(true)
        && s.actors.clients[i].done < |s.actors.clients[i].program|
    requires Looks(s, s.actors.clients, [], s.files, s.tasks)
    ensures Legal(s, moves, names) && NoLook(moves)
    ensures var c := s.actors.clients[i];
            Looks(Run(s, moves, names), s.actors.clients[i := c.(phase := Actors.Idle, done := c.done + 1)], [],
                  s.files, s.tasks)
  {
    var m := Act(Actors.Action(i, Actors.Deliver));
    moves := [m];
    OneMove(s, m, names);
    Actors.MovedIsWellFormed(s.actors.clients[i], Actors.Deliver);
  }

  /** The work under the message makes an empty file of its own, step by step. */
  lemma MakesFile(s: System, i: nat, names: Names) returns (moves: seq<Move>)
    requires i < |s.actors.clients| && i in s.tasks && s.tasks[i] == Looking
        && names(s.actors.clients[i].path) !in s.files
    ensures Legal(s, moves, names)
    ensures var c := Commit(names(s.actors.clients[i].path), [], PRIVATE_MODE, 0);
            Run(s, moves, names) == System(s.actors, CommitState(s.files, c, 4), s.tasks[i := Ended(true)])
  {
    var c := Commit(names(s.actors.clients[i].path), [], PRIVATE_MODE, 0);
    var look := Look(i, Some([]), 0);
    OneMove(s, look, names);
    var s0 := Step(s, look, names);
    var rest := Advances(s0, s.files, i, c, 0, CommitLength(c), names);
    RunsJoin(s, [look], rest, names);
    moves := [look] + rest;
  }

  /** The task of a commit that has come to step `k`. */
  function At(c: Commit, k: nat): Task {
    if k < CommitLength(c) then Committing(c, k) else Ended(true)
  }

  lemma {:induction false} Advances(s: System, before: FileSystem, i: nat, c: Commit, k: nat, end: nat, names: Names)
    returns (moves: seq<Move>)
    requires k <= end <= CommitLength(c) && i in s.tasks && s.tasks[i] == At(c, k)
        && s.files == CommitState(before, c, k)
    ensures Legal(s, moves, names) && NoLook(moves)
    ensures Run(s, moves, names) == System(s.actors, CommitState(before, c, end), s.tasks[i := At(c, end)])
    decreases end - k
  {
    if k == end {
      moves := [];
      assert s.tasks[i := At(c, end)] == s.tasks;
    } else {
      CommitAdvances(before, c, k);
      hide CommitState, CommitOp;
      OneMove(s, Advance(i), names);
      var next := Step(s, Advance(i), names);
      var rest := Advances(next, before, i, c, k + 1, end, names);
      RunsJoin(s, [Advance(i)], rest, names);
      moves := [Advance(i)] + rest;
      assert s.tasks[i := At(c, k + 1)][i := At(c, end)] == s.tasks[i := At(c, end)];
    }
  }

  /** A whole ensure of a file that is there. */
  lemma EnsuresFound(s: System, i: nat, names: Names) returns (moves: seq<Move>)
    requires i < |s.actors.clients| && s.actors.clients[i].phase == Actors.Idle
        && s.actors.clients[i].done < |s.actors.clients[i].program|
    requires Actors.Current(s.actors.clients[i]) == Actors.EnsureIdentity && names(s.actors.clients[i].path) in s.files
    requires Looks(s, s.actors.clients, [], s.files, s.tasks)
    ensures Legal(s, moves, names)
    ensures var c := s.actors.clients[i];
            Looks(Run(s, moves, names), s.actors.clients[i := c.(done := c.done + 1)], [], s.files,
                  s.tasks[i := Ended(true)])
  {
    hide Legal, Run, Allowed, Step;
    moves := Asks(s, i, names);
    var s1 := Run(s, moves, names);
    var more := TakesEnsure(s1, i, names);
    RunsJoin(s, moves, more, names);
    var s2 := Run(s1, more, names);
    moves := moves + more;
    more := FindsAndReturns(s2, i, names);
    RunsJoin(s, moves, more, names);
    moves := moves + more;
    var c := s.actors.clients[i];
    var queued := s.actors.clients[i := c.(phase := Actors.Queued)];
    assert queued[i := c.(phase := Actors.Working)][i := c.(done := c.done + 1)]
        == s.actors.clients[i := c.(done := c.done + 1)];
  }

  /** An ensure that makes its own file, up to the end of its work. */
  lemma EnsuresOwn(s: System, i: nat, names: Names) returns (moves: seq<Move>)
    requires i < |s.actors.clients| && s.actors.clients[i].phase == Actors.Idle
        && s.actors.clients[i].done < |s.actors.clients[i].program|
    requires Actors.Current(s.actors.clients[i]) == Actors.EnsureIdentity && names(s.actors.clients[i].path) !in s.files
    requires Looks(s, s.actors.clients, [], s.files, s.tasks)
    ensures Legal(s, moves, names)
    ensures var c := s.actors.clients[i];
            Looks(Run(s, moves, names), s.actors.clients[i := c.(phase := Actors.Working)], [],
                  CommitState(s.files, Commit(names(c.path), [], PRIVATE_MODE, 0), 4), s.tasks[i := Ended(true)])
  {
    hide Legal, Run, Allowed, Step, CommitState;
    moves := Asks(s, i, names);
    var s1 := Run(s, moves, names);
    var more := TakesEnsure(s1, i, names);
    RunsJoin(s, moves, more, names);
    var s2 := Run(s1, more, names);
    moves := moves + more;
    more := MakesFile(s2, i, names);
    RunsJoin(s, moves, more, names);
    moves := moves + more;
    var c := s.actors.clients[i];
    assert s.actors.clients[i := c.(phase := Actors.Queued)][i := c.(phase := Actors.Working)]
        == s.actors.clients[i := c.(phase := Actors.Working)];
    assert s.tasks[i := Looking][i := Ended(true)] == s.tasks[i := Ended(true)];
  }

  /** One client ensures a file that it finds, another makes its own and moves the first away as
      its temporary, and then the first is to be read. */
  lemma MissingRun(s0: System, names: Names) returns (moves: seq<Move>)
    requires |s0.actors.clients| == 2 && Looks(s0, s0.actors.clients, [], s0.files, s0.tasks)
    requires forall j :: 0 <= j < 2 ==> s0.actors.clients[j].done == 0 && s0.actors.clients[j].phase == Actors.Idle
    requires s0.actors.clients[0].program == [Actors.EnsureIdentity, Actors.ReadProjection]
    requires s0.actors.clients[1].program == [Actors.EnsureIdentity]
    requires var found, own := names(s0.actors.clients[0].path), names(s0.actors.clients[1].path);
             own != found && TemporaryPath(own) == found && found in s0.files && own !in s0.files
    ensures Legal(s0, moves, names)
    ensures var s := Run(s0, moves, names); ReadsAfter(s.actors, 0, 0) && !OnDisk(s, names, 0)
  {
    hide Legal, Run, Allowed, Step;
    moves := EnsuresFound(s0, 0, names);
    var s := Run(s0, moves, names);
    var more := EnsuresOwn(s, 1, names);
    RunsJoin(s0, moves, more, names);
    moves, s := moves + more, Run(s, more, names);
    assert names(s.actors.clients[0].path) !in s.files;
    more := Asks(s, 0, names);
    RunsJoin(s0, moves, more, names);
    moves := moves + more;
  }

  lemma SomeReadMisses(names: Names, own: nat, found: nat, a: nat, b: nat)
    requires names(own) != names(found) && TemporaryPath(names(own)) == names(found) && own in {a, b} && found in {a, b}
    ensures !NeverMissing(names, a, b)
  {
    var s0 := TwoSetups(names, own, found);
    hide Initial, Legal, Run, Looks;
    var moves := MissingRun(s0, names);
    var s := Run(s0, moves, names);
    assert !OnDisk(s, names, 0) && ReadsAfter(s.actors, 0, 0);
    hide ReadsAfter, OnDisk, TemporaryPath;
    assert forall j :: 0 <= j < |s0.actors.clients| ==> s0.actors.clients[j].path in {a, b};
  }

  lemma TwoSetups(names: Names, own: nat, found: nat) returns (s0: System)
    requires names(own) != names(found)
    ensures Initial(s0) && Looks(s0, s0.actors.clients, [], s0.files, s0.tasks)
    ensures s0.actors.clients == [Actors.Client([Actors.EnsureIdentity, Actors.ReadProjection], found, 0, Actors.Idle),
                                  Actors.Client([Actors.EnsureIdentity], own, 0, Actors.Idle)]
    ensures names(found) in s0.files && names(own) !in s0.files
  {
    var reader := Actors.Client([Actors.EnsureIdentity, Actors.ReadProjection], found, 0, Actors.Idle);
    var maker := Actors.Client([Actors.EnsureIdentity], own, 0, Actors.Idle);
    s0 := System(Actors.State(1, [reader, maker], [], [], [], None, {}, [], [], []),
                 map[names(found) := File([], 0)], map[]);
  }
}
