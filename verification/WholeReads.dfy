/** What a Yggdrasil read finds in the file (src/yggdrasil.rs, src/util.rs): when set-ups at work at
    the same time cannot spoil each other's key pair, and exactly when they can. */
module WholeReads {
  import opened ByteStrings
  import opened Paths
  import opened AtomicFile
  import opened Setups
  import Actors
  import Issuance
  import Writers

  /** What is promised of every generated key pair text. */
  type Quality = Bytes -> bool

  predicate ProductsAreGood(moves: seq<Move>, good: Quality) {
    forall k :: 0 <= k < |moves| && moves[k].Look? && moves[k].product.Some? ==> good(moves[k].product.value)
  }

  /** The two paths that the set-up of client `i` may touch. */
  function Own(clients: seq<Actors.Client>, names: Names, i: nat): set<Path>
    requires i < |clients|
  {
    {names(clients[i].path), TemporaryPath(names(clients[i].path))}
  }

  ghost predicate Disjoint(clients: seq<Actors.Client>, names: Names) {
    forall i: nat, j: nat :: i < j < |clients| ==> Own(clients, names, i) !! Own(clients, names, j)
  }

  /** The client waits for its projection, or the task that makes it is at work, and it ensured its
      key pair before. */
  predicate Reading(s: Actors.State, i: nat, ensured: nat) {
    && i < |s.clients| && s.clients[i].done < |s.clients[i].program|
    && Actors.Current(s.clients[i]) == Actors.ReadProjection
    && (s.clients[i].phase == Actors.Queued || s.clients[i].phase == Actors.Working)
    && ensured < s.clients[i].done && s.clients[i].program[ensured] == Actors.EnsureIdentity
  }

  /** The file that was there before everything, or a whole generated one with its mode. */
  predicate OldOrGood(before: FileSystem, files: FileSystem, p: Path, good: Quality) {
    Entry(files, p) == Entry(before, p) || Made(files, p, good)
  }

  predicate Made(files: FileSystem, p: Path, good: Quality) {
    p in files && files[p].mode == Issuance.PRIVATE_MODE && good(files[p].bytes)
  }

  // ---- Apart, all reads are good

  /** The paths of this set-up: a good file, or nothing touched yet, or as far as its own commit
      is; after a failure they are of no interest, as its client stops. */
  ghost predicate PathsFit(before: FileSystem, s: System, names: Names, good: Quality, i: nat)
    requires i < |s.actors.clients|
  {
    var p := names(s.actors.clients[i].path);
    if i in s.tasks && s.tasks[i].Committing? then
      var c := s.tasks[i].commit;
      && c.path == p && c.mode == Issuance.PRIVATE_MODE && good(c.contents)
      && s.tasks[i].next < CommitLength(c) && Writers.AtOwnPaths(before, s.files, c, s.tasks[i].next)
    else
      || (i in s.tasks && s.tasks[i] == Ended(false))
      || Made(s.files, p, good)
      || (Entry(s.files, p) == Entry(before, p) && Entry(s.files, TemporaryPath(p)) == Entry(before, TemporaryPath(p)))
  }

  ghost predicate AllFit(before: FileSystem, s: System, names: Names, good: Quality) {
    Staffed(s) && forall i: nat :: i < |s.actors.clients| ==> PathsFit(before, s, names, good, i)
  }

  /** What a set-up's paths are like depends on its own entries and its own task only. */
  lemma PathsStayFit(before: FileSystem, s: System, s': System, names: Names, good: Quality, i: nat)
    requires i < |s.actors.clients| && PathsFit(before, s, names, good, i) && |s'.actors.clients| == |s.actors.clients|
    requires s'.actors.clients[i].path == s.actors.clients[i].path
    requires (i in s'.tasks <==> i in s.tasks) && (i in s.tasks ==> s'.tasks[i] == s.tasks[i])
    requires var p := names(s.actors.clients[i].path);
      && Entry(s'.files, p) == Entry(s.files, p)
          && Entry(s'.files, TemporaryPath(p)) == Entry(s.files, TemporaryPath(p))
    ensures PathsFit(before, s', names, good, i)
  {
    hide TemporaryPath, CommitState;
  }

  lemma ActKeepsPaths(before: FileSystem, s: System, a: Actors.Action, names: Names, good: Quality)
    requires Allowed(s, Act(a)) && AllFit(before, s, names, good)
    ensures AllFit(before, Step(s, Act(a), names), names, good)
  {
    var s' := Step(s, Act(a), names);
    StepKeepsStaffed(s, Act(a), names);
    ActKeepsClients(s.actors, a);
    NewWorkIsFresh(s, a, names);
    assert s'.files == s.files;
    hide Step, Allowed, Actors.Enabled, Actors.Step, Ensuring, Writers.AtOwnPaths, Staffed, Entry, Made, TemporaryPath;
    forall i: nat | i < |s'.actors.clients| ensures PathsFit(before, s', names, good, i) {
      if s'.tasks == s.tasks || i != a.client {
        hide PathsFit;
        PathsStayFit(before, s, s', names, good, i);
      } else {
        assert PathsFit(before, s, names, good, i);
      }
    }
  }

  /** A client that failed takes up no new work. */
  lemma NewWorkIsFresh(s: System, a: Actors.Action, names: Names)
    requires Allowed(s, Act(a)) && Staffed(s)
    ensures var s' := Step(s, Act(a), names);
      || s'.tasks == s.tasks
      || (&& s'.tasks == s.tasks[a.client := Looking]
          && (a.client in s.tasks ==> !s.tasks[a.client].Committing? && s.tasks[a.client] != Ended(false)))
  {
    assert a.client in s.tasks ==> TaskFits(s, a.client);
  }

  lemma OthersAway(clients: seq<Actors.Client>, names: Names, i: nat, j: nat)
    requires Disjoint(clients, names) && i < |clients| && j < |clients| && i != j
    ensures var p, q := names(clients[i].path), names(clients[j].path);
      && p != q && p != TemporaryPath(q) && TemporaryPath(p) != q && TemporaryPath(p) != TemporaryPath(q)
  {
    var k, l := if i < j then i else j, if i < j then j else i;
    assert Own(clients, names, k) !! Own(clients, names, l);
    assert names(clients[k].path) in Own(clients, names, k)
        && TemporaryPath(names(clients[k].path)) in Own(clients, names, k);
    assert names(clients[l].path) in Own(clients, names, l)
        && TemporaryPath(names(clients[l].path)) in Own(clients, names, l);
  }

  /** The work of one set-up keeps its own paths as they should be and those of the others. */
  lemma WorkOnOwnPaths(before: FileSystem, s: System, m: Move, names: Names, good: Quality)
    requires Allowed(s, m) && !m.Act? && AllFit(before, s, names, good) && ProductsAreGood([m], good)
    requires m.client < |s.actors.clients|
    ensures var s' := Step(s, m, names);
      && PathsFit(before, s', names, good, m.client)
      && var p := names(s.actors.clients[m.client].path);
         forall q :: q != p && q != TemporaryPath(p) ==> Entry(s'.files, q) == Entry(s.files, q)
  {
    assert PathsFit(before, s, names, good, m.client) && [m][0] == m;
    if s.tasks[m.client].Committing? {
      Writers.StepAtOwnPaths(before, s.files, s.tasks[m.client].commit, s.tasks[m.client].next);
      if m.Advance? && s.tasks[m.client].next + 1 == CommitLength(s.tasks[m.client].commit) {
        FinishedCommitIsMade(before, Step(s, m, names).files, s.tasks[m.client].commit, good);
      }
      hide CommitOp, Enabled, Apply, CommitState, Writers.AtOwnPaths;
    } else {
      hide CommitOp, Enabled, Apply;
    }
  }

  lemma FinishedCommitIsMade(before: FileSystem, files: FileSystem, c: Commit, good: Quality)
    requires Writers.AtOwnPaths(before, files, c, CommitLength(c)) && c.mode == Issuance.PRIVATE_MODE
        && good(c.contents)
    ensures Made(files, c.path, good)
  {
  }

  lemma WorkKeepsPaths(before: FileSystem, s: System, m: Move, names: Names, good: Quality)
    requires Allowed(s, m) && !m.Act? && AllFit(before, s, names, good) && ProductsAreGood([m], good)
    requires Disjoint(s.actors.clients, names)
    ensures AllFit(before, Step(s, m, names), names, good)
  {
    var s' := Step(s, m, names);
    StepKeepsStaffed(s, m, names);
    assert m.client < |s.actors.clients| && s'.actors == s.actors && forall j :: j != m.client ==>
        (j in s'.tasks <==> j in s.tasks);
    assert forall j :: j != m.client && j in s.tasks ==> s'.tasks[j] == s.tasks[j];
    WorkOnOwnPaths(before, s, m, names, good);
    hide Step, Allowed, Staffed, Disjoint, ProductsAreGood, PathsFit, TemporaryPath, Entry;
    forall j: nat | j < |s'.actors.clients| ensures PathsFit(before, s', names, good, j) {
      if j != m.client {
        OthersAway(s.actors.clients, names, m.client, j);
        PathsStayFit(before, s, s', names, good, j);
      }
    }
  }

  lemma {:induction false} RunKeepsPaths(before: FileSystem, s: System, moves: seq<Move>, names: Names, good: Quality)
    requires Legal(s, moves, names) && AllFit(before, s, names, good) && ProductsAreGood(moves, good)
    requires Disjoint(s.actors.clients, names)
    ensures AllFit(before, Run(s, moves, names), names, good)
    decreases |moves|
  {
    hide AllFit, Allowed, Step, Disjoint;
    if moves != [] {
      assert [moves[0]][0] == moves[0] && ProductsAreGood([moves[0]], good) && ProductsAreGood(moves[1..], good);
      hide ProductsAreGood;
      if moves[0].Act? {
        ActKeepsPaths(before, s, moves[0].action, names, good);
      } else {
        WorkKeepsPaths(before, s, moves[0], names, good);
      }
      PathsOfClientsStay(s, moves[0], names);
      RunKeepsPaths(before, Step(s, moves[0], names), moves[1..], names, good);
    }
  }

  lemma PathsOfClientsStay(s: System, m: Move, names: Names)
    requires Allowed(s, m) && Disjoint(s.actors.clients, names)
    ensures Disjoint(Step(s, m, names).actors.clients, names)
  {
    if m.Act? {
      ActKeepsClients(s.actors, m.action);
      hide Actors.Enabled, Actors.Step;
      var clients, clients' := s.actors.clients, Step(s, m, names).actors.clients;
      forall i: nat, j: nat | i < j < |clients'| ensures Own(clients', names, i) !! Own(clients', names, j) {
        assert Own(clients, names, i) !! Own(clients, names, j);
      }
    }
  }

  /** Set-ups of disjoint paths: at every moment at which a client waits for its projection, or the
      task that makes it is at work, the file is the one from before or a whole generated one. */
  lemma {:induction false} ReadFindsAGoodFile(s0: System, moves: seq<Move>, names: Names, good: Quality, i: nat,
                                              ensured: nat)
    requires Initial(s0) && Legal(s0, moves, names) && ProductsAreGood(moves, good)
        && Disjoint(s0.actors.clients, names)
    requires Reading(Run(s0, moves, names).actors, i, ensured)
    ensures var s := Run(s0, moves, names); OldOrGood(s0.files, s.files, names(s.actors.clients[i].path), good)
  {
    InitialIsStaffed(s0);
    assert AllFit(s0.files, s0, names, good);
    RunKeepsPaths(s0.files, s0, moves, names, good);
    var s := Run(s0, moves, names);
    assert PathsFit(s0.files, s, names, good, i);
    assert i in s.tasks ==> TaskFits(s, i);
    hide Run, Legal, Initial, Writers.AtOwnPaths;
  }
  // ---- The hypothesis is needed

  /** Two set-ups, on these two paths, whatever they generate: each read finds a good file or the
      one from before. */
  ghost predicate ReadsAreGood(names: Names, a: nat, b: nat) {
    forall good: Quality, s0: System, moves: seq<Move>, i: nat, ensured: nat ::
      && Initial(s0) && |s0.actors.clients| == 2 && s0.actors.clients[0].path == a && s0.actors.clients[1].path == b
      && Legal(s0, moves, names) && ProductsAreGood(moves, good)
      && Reading(Run(s0, moves, names).actors, i, ensured)
      ==> OldOrGood(s0.files, Run(s0, moves, names).files, names(Run(s0, moves, names).actors.clients[i].path), good)
  }

  /** The exact condition: the two share neither a path nor a temporary, and neither path is the
      other's temporary. Two set-ups on one path can spoil each other's file. */
  lemma ReadsAreGoodExactly(names: Names, a: nat, b: nat)
    ensures ReadsAreGood(names, a, b)
       <==> {names(a), TemporaryPath(names(a))} !! {names(b), TemporaryPath(names(b))}
  {
    var p, q := names(a), names(b);
    var s0 := Fresh(a, b);
    var clients := s0.actors.clients;
    assert Begin(s0, clients[0], clients[1]);
    hide Begin;
    if TemporaryPath(q) == p {
      var moves := TornAfterwards(s0, clients, 0, 1, names);
      SomeReadIsTorn(s0, moves, 0, names, a, b);
    } else if TemporaryPath(p) == q {
      var moves := TornAfterwards(s0, clients, 1, 0, names);
      SomeReadIsTorn(s0, moves, 1, names, a, b);
    } else if TemporaryPath(p) == TemporaryPath(q) {
      var moves := TornBefore(s0, clients, 0, 1, names);
      SomeReadIsTorn(s0, moves, 0, names, a, b);
    } else {
      DisjointReadsAreGood(names, a, b);
    }
  }

  lemma DisjointReadsAreGood(names: Names, a: nat, b: nat)
    requires {names(a), TemporaryPath(names(a))} !! {names(b), TemporaryPath(names(b))}
    ensures ReadsAreGood(names, a, b)
  {
    forall good: Quality, s0: System, moves: seq<Move>, i: nat, ensured: nat |
      && Initial(s0) && |s0.actors.clients| == 2 && s0.actors.clients[0].path == a && s0.actors.clients[1].path == b
      && Legal(s0, moves, names) && ProductsAreGood(moves, good)
      && Reading(Run(s0, moves, names).actors, i, ensured)
      ensures OldOrGood(s0.files, Run(s0, moves, names).files, names(Run(s0, moves, names).actors.clients[i].path),
                        good)
    {
      TwoAreDisjoint(s0, names);
      hide *;
      ReadFindsAGoodFile(s0, moves, names, good, i, ensured);
    }
  }

  lemma TwoAreDisjoint(s: System, names: Names)
    requires |s.actors.clients| == 2
    requires var p, q := names(s.actors.clients[0].path), names(s.actors.clients[1].path);
             {p, TemporaryPath(p)} !! {q, TemporaryPath(q)}
    ensures Disjoint(s.actors.clients, names)
  {
    hide TemporaryPath;
  }

  /** Two clients that ensure and then read, over an empty disk. */
  function Fresh(a: nat, b: nat): System {
    var program := [Actors.EnsureIdentity, Actors.ReadProjection];
    System(Actors.State(1, [Actors.Client(program, a, 0, Actors.Idle), Actors.Client(program, b, 0, Actors.Idle)],
                        [], [], [], None, {}, [], [], []), map[], map[])
  }

  predicate TheText(text: Bytes) {
    text == [7]
  }

  /** Client `x` waits for its projection and its file is empty. */
  predicate Torn(s: System, x: nat, names: Names) {
    && Reading(s.actors, x, 0)
    && var p := names(s.actors.clients[x].path); p in s.files && s.files[p].bytes == []
  }

  lemma SomeReadIsTorn(s0: System, moves: seq<Move>, x: nat, names: Names, a: nat, b: nat)
    requires s0 == Fresh(a, b) && x < 2 && Legal(s0, moves, names) && ProductsAreGood(moves, TheText)
    requires Torn(Run(s0, moves, names), x, names)
    ensures !ReadsAreGood(names, a, b)
  {
    assert Initial(s0);
    hide Initial, Legal, Run, ProductsAreGood, Reading;
    var s := Run(s0, moves, names);
    EmptyIsNotGood(s0, s.files, names(s.actors.clients[x].path));
    hide Fresh, OldOrGood;
    assert Reading(s.actors, x, 0);
  }

  lemma EmptyIsNotGood(s0: System, files: FileSystem, p: Path)
    requires p !in s0.files && p in files && files[p].bytes == []
    ensures !OldOrGood(s0.files, files, p, TheText)
  {
  }

  // ---- The two ways to spoil a file

  lemma GoodRunsJoin(s: System, first: seq<Move>, second: seq<Move>, names: Names)
    requires Legal(s, first, names) && ProductsAreGood(first, TheText)
    requires Legal(Run(s, first, names), second, names) && ProductsAreGood(second, TheText)
    ensures var moves := first + second;
      && Legal(s, moves, names) && ProductsAreGood(moves, TheText)
      && Run(s, moves, names) == Run(Run(s, first, names), second, names)
  {
    RunsJoin(s, first, second, names);
  }

  /** These two clients, about to ensure over an empty disk. */
  predicate Begin(s: System, c: Actors.Client, d: Actors.Client) {
    && Looks(s, [c, d], [], map[], map[])
    && c == Actors.Client([Actors.EnsureIdentity, Actors.ReadProjection], c.path, 0, Actors.Idle)
    && d == Actors.Client([Actors.EnsureIdentity, Actors.ReadProjection], d.path, 0, Actors.Idle)
  }

  function AtWork(c: Actors.Client): Actors.Client {
    c.(phase := Actors.Working)
  }

  /** A client's ensure message is asked and taken. */
  lemma AskedAndTaken(s: System, i: nat, names: Names) returns (moves: seq<Move>)
    requires i < |s.actors.clients| && s.actors.clients[i].phase == Actors.Idle
    requires s.actors.clients[i].done < |s.actors.clients[i].program|
    requires Actors.Current(s.actors.clients[i]) == Actors.EnsureIdentity
    requires Looks(s, s.actors.clients, [], s.files, s.tasks)
    ensures Legal(s, moves, names) && ProductsAreGood(moves, TheText)
    ensures Looks(Run(s, moves, names), s.actors.clients[i := AtWork(s.actors.clients[i])], [], s.files,
                  s.tasks[i := Looking])
  {
    hide Legal, Run, Allowed, Step;
    var first := Asks(s, i, names);
    var s1 := Run(s, first, names);
    var second := TakesEnsure(s1, i, names);
    GoodRunsJoin(s, first, second, names);
    moves := first + second;
    var c := s.actors.clients[i];
    assert s.actors.clients[i := c.(phase := Actors.Queued)][i := AtWork(c)] == s.actors.clients[i := AtWork(c)];
  }

  /** Both clients have their ensure message taken. */
  lemma BothTaken(s0: System, c: Actors.Client, d: Actors.Client, names: Names) returns (moves: seq<Move>)
    requires Begin(s0, c, d)
    ensures Legal(s0, moves, names) && ProductsAreGood(moves, TheText)
    ensures Looks(Run(s0, moves, names), [AtWork(c), AtWork(d)], [], map[], map[0 := Looking, 1 := Looking])
  {
    hide Legal, Run, Allowed, Step, Actors.WellFormed;
    moves := AskedAndTaken(s0, 0, names);
    var s := Run(s0, moves, names);
    assert [c, d][0 := AtWork(c)] == [AtWork(c), d];
    var more := AskedAndTaken(s, 1, names);
    GoodRunsJoin(s0, moves, more, names);
    moves := moves + more;
    assert [AtWork(c), d][1 := AtWork(d)] == [AtWork(c), AtWork(d)];
  }

  function Making(p: Path): Commit {
    Commit(p, [7], Issuance.PRIVATE_MODE, 0)
  }

  lemma LooksAbsent(s: System, i: nat, names: Names) returns (moves: seq<Move>)
    requires i < |s.actors.clients| && i in s.tasks && s.tasks[i] == Looking && s.files == map[]
    ensures Legal(s, moves, names) && ProductsAreGood(moves, TheText)
    ensures Run(s, moves, names) == s.(tasks := s.tasks[i := Committing(Making(names(s.actors.clients[i].path)), 0)])
  {
    var m := Look(i, Some([7]), 0);
    moves := [m];
    OneMove(s, m, names);
  }

  lemma LookTwice(s: System, names: Names) returns (moves: seq<Move>)
    requires |s.actors.clients| == 2 && s.files == map[] && s.tasks == map[0 := Looking, 1 := Looking]
    ensures Legal(s, moves, names) && ProductsAreGood(moves, TheText)
    ensures Run(s, moves, names) == s.(tasks := map[0 := Committing(Making(names(s.actors.clients[0].path)), 0),
                                                    1 := Committing(Making(names(s.actors.clients[1].path)), 0)])
  {
    hide Legal, Run, Allowed, Step, Making, ProductsAreGood;
    moves := LooksAbsent(s, 0, names);
    var next := Run(s, moves, names);
    var more := LooksAbsent(next, 1, names);
    GoodRunsJoin(s, moves, more, names);
    moves := moves + more;
  }

  /** Both have found nothing and are about to make their files. */
  lemma BothLook(s0: System, c: Actors.Client, d: Actors.Client, names: Names) returns (moves: seq<Move>)
    requires Begin(s0, c, d)
    ensures Legal(s0, moves, names) && ProductsAreGood(moves, TheText)
    ensures Looks(Run(s0, moves, names), [AtWork(c), AtWork(d)], [], map[],
                  map[0 := Committing(Making(names(c.path)), 0), 1 := Committing(Making(names(d.path)), 0)])
  {
    moves := BothTaken(s0, c, d, names);
    hide Legal, Run, Allowed, Step, Begin, Making, ProductsAreGood, Actors.WellFormed;
    var more := LookTwice(Run(s0, moves, names), names);
    GoodRunsJoin(s0, moves, more, names);
    moves := moves + more;
  }

  /** A client whose work has ended well gets its reply and asks for its projection. */
  lemma HearsAndAsks(s: System, x: nat, names: Names) returns (moves: seq<Move>)
    requires Looks(s, s.actors.clients, [], s.files, s.tasks) && x < |s.actors.clients|
    requires s.actors.clients[x].program == [Actors.EnsureIdentity, Actors.ReadProjection]
        && s.actors.clients[x].done == 0
    requires s.actors.clients[x].phase == Actors.Working && x in s.tasks && s.tasks[x] == Ended(true)
    ensures Legal(s, moves, names) && ProductsAreGood(moves, TheText)
    ensures var s' := Run(s, moves, names);
      && Reading(s'.actors, x, 0) && s'.actors.clients[x].path == s.actors.clients[x].path
      && s'.files == s.files && s'.tasks == s.tasks
  {
    hide Legal, Run, Allowed, Step;
    moves := Hears(s, x, names);
    var heard := Run(s, moves, names);
    var more := Asks(heard, x, names);
    GoodRunsJoin(s, moves, more, names);
    moves := moves + more;
  }

  /** Two clients at work that found nothing; this is where both accidents start. */
  predicate Ready(s: System, x: nat, y: nat, names: Names) {
    && x < 2 && y == 1 - x && |s.actors.clients| == 2
    && Looks(s, s.actors.clients, [], map[], s.tasks)
    && (forall i :: 0 <= i < 2 ==> i in s.tasks && s.tasks[i] == Committing(Making(names(s.actors.clients[i].path)), 0))
    && var c := s.actors.clients[x];
       c.program == [Actors.EnsureIdentity, Actors.ReadProjection] && c.done == 0 && c.phase == Actors.Working
  }

  lemma BothReady(s0: System, clients: seq<Actors.Client>, x: nat, y: nat, names: Names) returns (moves: seq<Move>)
    requires |clients| == 2 && Begin(s0, clients[0], clients[1]) && x < 2 && y == 1 - x
    ensures Legal(s0, moves, names) && ProductsAreGood(moves, TheText)
    ensures var s := Run(s0, moves, names);
            Ready(s, x, y, names) && s.actors.clients == [AtWork(clients[0]), AtWork(clients[1])]
  {
    moves := BothLook(s0, clients[0], clients[1], names);
    hide Legal, Run, ProductsAreGood, Making, Actors.WellFormed;
  }

  /** `y`'s temporary is `x`'s file: `x` makes it, asks to read it, and `y` begins. */
  lemma SpoilsAfterwards(s: System, x: nat, y: nat, names: Names) returns (moves: seq<Move>)
    requires Ready(s, x, y, names)
    requires TemporaryPath(names(s.actors.clients[y].path)) == names(s.actors.clients[x].path)
    ensures Legal(s, moves, names) && ProductsAreGood(moves, TheText) && Torn(Run(s, moves, names), x, names)
  {
    hide Legal, Run, Allowed, Step, CommitState, TemporaryPath, Reading, Actors.WellFormed;
    var c, d := Making(names(s.actors.clients[x].path)), Making(names(s.actors.clients[y].path));
    NothingDone(c);
    moves := Advances(s, map[], x, c, 0, 5, names);
    var s1 := Run(s, moves, names);
    var more := HearsAndAsks(s1, x, names);
    GoodRunsJoin(s, moves, more, names);
    moves := moves + more;
    var s2 := Run(s1, more, names);
    more := Begins(s2, y, d, names);
    GoodRunsJoin(s, moves, more, names);
    moves := moves + more;
  }

  lemma TornAfterwards(s0: System, clients: seq<Actors.Client>, x: nat, y: nat, names: Names) returns (moves: seq<Move>)
    requires |clients| == 2 && Begin(s0, clients[0], clients[1]) && x < 2 && y == 1 - x
    requires TemporaryPath(names(clients[y].path)) == names(clients[x].path)
    ensures Legal(s0, moves, names) && ProductsAreGood(moves, TheText) && Torn(Run(s0, moves, names), x, names)
  {
    hide Legal, Run, Begin, Ready, Looks, Torn, TemporaryPath, ProductsAreGood;
    moves := BothReady(s0, clients, x, y, names);
    var s := Run(s0, moves, names);
    var more := SpoilsAfterwards(s, x, y, names);
    GoodRunsJoin(s0, moves, more, names);
    moves := moves + more;
  }

  lemma NothingDone(c: Commit)
    ensures CommitState(map[], c, 0) == map[]
  {
  }

  /** The first step of a commit empties its temporary. */
  lemma Begins(s: System, y: nat, d: Commit, names: Names) returns (moves: seq<Move>)
    requires y in s.tasks && s.tasks[y] == Committing(d, 0)
    ensures Legal(s, moves, names) && ProductsAreGood(moves, TheText)
    ensures var s' := Run(s, moves, names);
      && s'.actors == s.actors && s'.tasks == s.tasks[y := Committing(d, 1)]
      && var t := TemporaryPath(d.path);
         s'.files == s.files[t := File([], if t in s.files then s.files[t].mode else d.initialMode)]
  {
    moves := [Advance(y)];
    OneMove(s, Advance(y), names);
  }

  /** Both have one temporary: `x` fills it, `y` empties it, and `x` gives it its name. */
  lemma SpoilsBefore(s: System, x: nat, y: nat, names: Names) returns (moves: seq<Move>)
    requires Ready(s, x, y, names)
    requires var p, q := names(s.actors.clients[x].path), names(s.actors.clients[y].path);
             TemporaryPath(p) == TemporaryPath(q) && TemporaryPath(p) != p
    ensures Legal(s, moves, names) && ProductsAreGood(moves, TheText) && Torn(Run(s, moves, names), x, names)
  {
    hide Legal, Run, Allowed, Step, CommitState, TemporaryPath, Reading, Actors.WellFormed;
    var c, d := Making(names(s.actors.clients[x].path)), Making(names(s.actors.clients[y].path));
    NothingDone(c);
    AllButName(c);
    moves := Advances(s, map[], x, c, 0, 4, names);
    var s1 := Run(s, moves, names);
    var more := Begins(s1, y, d, names);
    GoodRunsJoin(s, moves, more, names);
    moves := moves + more;
    var s2 := Run(s1, more, names);
    more := IsNamed(s2, x, c, names);
    GoodRunsJoin(s, moves, more, names);
    moves := moves + more;
    var s3 := Run(s2, more, names);
    more := HearsAndAsks(s3, x, names);
    GoodRunsJoin(s, moves, more, names);
    moves := moves + more;
  }

  lemma TornBefore(s0: System, clients: seq<Actors.Client>, x: nat, y: nat, names: Names) returns (moves: seq<Move>)
    requires |clients| == 2 && Begin(s0, clients[0], clients[1]) && x < 2 && y == 1 - x
    requires var p, q := names(clients[x].path), names(clients[y].path);
             TemporaryPath(p) == TemporaryPath(q) && TemporaryPath(p) != p
    ensures Legal(s0, moves, names) && ProductsAreGood(moves, TheText) && Torn(Run(s0, moves, names), x, names)
  {
    hide Legal, Run, Begin, Ready, Looks, Torn, TemporaryPath, ProductsAreGood;
    moves := BothReady(s0, clients, x, y, names);
    var s := Run(s0, moves, names);
    var more := SpoilsBefore(s, x, y, names);
    GoodRunsJoin(s0, moves, more, names);
    moves := moves + more;
  }

  lemma AllButName(c: Commit)
    requires c.contents == [7]
    ensures CommitState(map[], c, 4) == map[TemporaryPath(c.path) := File(c.contents, c.mode)]
  {
  }

  /** The last step of a commit gives the temporary, as it then is, its name. */
  lemma IsNamed(s: System, x: nat, c: Commit, names: Names) returns (moves: seq<Move>)
    requires |c.contents| == 1 && x in s.tasks && s.tasks[x] == Committing(c, 4)
    requires TemporaryPath(c.path) in s.files
    ensures Legal(s, moves, names) && ProductsAreGood(moves, TheText)
    ensures var s' := Run(s, moves, names);
      && s'.actors == s.actors && s'.tasks == s.tasks[x := Ended(true)]
      && c.path in s'.files && s'.files[c.path] == s.files[TemporaryPath(c.path)]
  {
    moves := [Advance(x)];
    OneMove(s, Advance(x), names);
  }
}
