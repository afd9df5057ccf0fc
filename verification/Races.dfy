/** Requests at work at the same time (src/request.rs): each looks at its files, then commits, and
    between any two steps of one the others may take theirs. Looking and the first write are apart,
    so what holds of requests that follow one another needs more here, and how much is exact. */
module Races {
  import opened ByteStrings
  import opened Paths
  import opened AtomicFile
  import opened Issuance
  import opened WriteOnce
  import Writers

  /** A request on its way: what it decided to commit once it looked, and how far it is. */
  datatype Job = Job(commits: seq<Commit>, looked: bool, next: nat, over: bool)

  datatype System = System(files: FileSystem, jobs: seq<Job>)

  datatype Choice = Go(job: nat) | Halt(job: nat)

  /** The step of a plan that follows `k` others. */
  function PlanOp(commits: seq<Commit>, k: nat): Op
    requires k < PlanLength(commits)
  {
    if k < CommitLength(commits[0]) then CommitOp(commits[0], k) else PlanOp(commits[1..], k - CommitLength(commits[0]))
  }

  /** One step of the chosen request: it looks, or takes the next step of its commits; a step that
      cannot be taken is an error and ends it. */
  function Step(s: System, runs: seq<Run>, choice: Choice, codec: PemCodec): System {
    var i := choice.job;
    if i >= |s.jobs| || i >= |runs| || s.jobs[i].over
        || (s.jobs[i].looked && s.jobs[i].next >= PlanLength(s.jobs[i].commits)) then s
    else if choice.Halt? then s.(jobs := s.jobs[i := s.jobs[i].(over := true)])
    else if !s.jobs[i].looked
        then s.(jobs := s.jobs[i := s.jobs[i].(looked := true, commits := Plan(s.files, runs[i], codec))])
    else
      var op := PlanOp(s.jobs[i].commits, s.jobs[i].next);
      if Enabled(s.files, op) then System(Apply(s.files, op), s.jobs[i := s.jobs[i].(next := s.jobs[i].next + 1)])
      else s.(jobs := s.jobs[i := s.jobs[i].(over := true)])
  }

  function After(s: System, runs: seq<Run>, choices: seq<Choice>, codec: PemCodec): System {
    if choices == [] then s
    else Step(After(s, runs, choices[..|choices| - 1], codec), runs, choices[|choices| - 1], codec)
  }

  function Start(files: FileSystem, runs: seq<Run>): System {
    System(files, seq(|runs|, i requires 0 <= i < |runs| => Job([], false, 0, false)))
  }

  /** The paths a request may touch. */
  ghost function Footprint(request: Request): set<Path> {
    Outputs(request) + set p | p in Outputs(request) :: TemporaryPath(p)
  }

  /** No two requests touch one path. */
  ghost predicate Apart(runs: seq<Run>) {
    forall i, j :: 0 <= i < j < |runs| ==> Footprint(runs[i].request) !! Footprint(runs[j].request)
  }

  // ---- Steps and the paths they touch

  /** The two file systems agree on these paths. */
  ghost predicate Agree(a: FileSystem, b: FileSystem, paths: set<Path>) {
    forall p :: p in paths ==> Entry(a, p) == Entry(b, p)
  }

  ghost predicate Touches(op: Op, paths: set<Path>) {
    match op
    case Rename(from, to) => from in paths && to in paths
    case other => other.path in paths
  }

  /** A step does the same wherever the paths it touches are the same, and nothing elsewhere. */
  lemma StepIsLocal(a: FileSystem, b: FileSystem, op: Op, paths: set<Path>)
    requires Agree(a, b, paths) && Touches(op, paths) && Enabled(b, op)
    ensures Enabled(a, op) && Agree(Apply(a, op), Apply(b, op), paths)
    ensures forall p :: p !in paths ==> Entry(Apply(a, op), p) == Entry(a, p)
  {
    match op
    case Create(p, _) => assert Entry(a, p) == Entry(b, p);
    case Rename(from, _) => assert Entry(a, from) == Entry(b, from);
    case other => assert Entry(a, other.path) == Entry(b, other.path);
  }

  lemma PlanAdvances(before: FileSystem, commits: seq<Commit>, k: nat)
    requires 1 <= |commits| <= 2 && k < PlanLength(commits)
    ensures Enabled(PlanState(before, commits, k), PlanOp(commits, k))
    ensures Apply(PlanState(before, commits, k), PlanOp(commits, k)) == PlanState(before, commits, k + 1)
  {
    var c := commits[0];
    if k < CommitLength(c) {
      CommitAdvances(before, c, k);
    } else {
      var d := commits[1];
      assert commits == [c, d] && commits[1..] == [d];
      TwoPlans(c, d);
      OnePlan(d);
      var l := k - CommitLength(c);
      CommitAdvances(CommitState(before, c, CommitLength(c)), d, l);
      hide PlanState, CommitState, CommitOp, Apply, Enabled;
      assert PlanState(before, commits, CommitLength(c) + l)
          == CommitState(CommitState(before, c, CommitLength(c)), d, l);
      assert PlanState(before, commits, CommitLength(c) + (l + 1))
          == CommitState(CommitState(before, c, CommitLength(c)), d, l + 1);
    }
  }

  lemma CommitTouches(c: Commit, k: nat, paths: set<Path>)
    requires k < CommitLength(c) && c.path in paths && TemporaryPath(c.path) in paths
    ensures Touches(CommitOp(c, k), paths)
  {
  }

  lemma PlanTouches(request: Request, product: Product, initialMode: nat, k: nat)
    requires k < PlanLength(Commits(request, product, initialMode))
    ensures Touches(PlanOp(Commits(request, product, initialMode), k), Footprint(request))
  {
    var commits := Commits(request, product, initialMode);
    assert commits[0].path in Outputs(request);
    if k < CommitLength(commits[0]) {
      CommitTouches(commits[0], k, Footprint(request));
    } else {
      assert commits[1].path in Outputs(request) && commits[1..] == [commits[1]];
      OnePlan(commits[1]);
      CommitTouches(commits[1], k - CommitLength(commits[0]), Footprint(request));
    }
  }

  // ---- Requests apart

  /** A request commits nothing, or its product into kept outputs that were absent in the
      beginning. */
  ghost predicate Meant(kept: set<Path>, before: FileSystem, run: Run, commits: seq<Commit>) {
    commits == []
    || (&& run.product.Some? && commits == Commits(run.request, run.product.value, run.initialMode)
        && forall p :: p in Outputs(run.request) && p in kept ==> p !in before)
  }

  /** On the paths of its own, a request is as far as it would be alone. */
  ghost predicate OnItsWay(kept: set<Path>, before: FileSystem, files: FileSystem, run: Run, job: Job) {
    && Meant(kept, before, run, job.commits) && job.next <= PlanLength(job.commits)
    && (!job.looked ==> job.commits == [])
    && Agree(files, PlanState(before, job.commits, job.next), Footprint(run.request))
  }

  ghost predicate AllOnTheirWay(kept: set<Path>, before: FileSystem, runs: seq<Run>, s: System) {
    && |s.jobs| == |runs|
    && (forall i :: 0 <= i < |runs| ==> OnItsWay(kept, before, s.files, runs[i], s.jobs[i]))
    && (forall p :: (forall i :: 0 <= i < |runs| ==> p !in Footprint(runs[i].request)) ==>
        Entry(s.files, p) == Entry(before, p))
  }

  /** Looking: what is absent now was absent in the beginning. */
  lemma LookIsMeant(kept: set<Path>, before: FileSystem, files: FileSystem, run: Run, codec: PemCodec)
    requires Respects(run.request, kept) && Agree(files, before, Footprint(run.request))
    ensures Meant(kept, before, run, Plan(files, run, codec))
  {
    PlanStartsAbsent(kept, files, run, codec);
    var commits := Plan(files, run, codec);
    if commits != [] {
      forall p | p in Outputs(run.request) && p in kept ensures p !in before {
        assert Entry(files, p) == Entry(before, p);
        OutputsAreCommitted(run, p);
      }
    }
  }

  lemma OutputsAreCommitted(run: Run, p: Path)
    requires run.product.Some? && p in Outputs(run.request)
    ensures exists c :: c in Commits(run.request, run.product.value, run.initialMode) && c.path == p
  {
    var commits := Commits(run.request, run.product.value, run.initialMode);
    assert commits[0] in commits && commits[|commits| - 1] in commits;
  }

  lemma CommitStepOnItsWay(kept: set<Path>, before: FileSystem, files: FileSystem, run: Run, job: Job)
    requires OnItsWay(kept, before, files, run, job) && job.looked && job.next < PlanLength(job.commits)
    ensures var op := PlanOp(job.commits, job.next);
      && Enabled(files, op)
      && OnItsWay(kept, before, Apply(files, op), run, job.(next := job.next + 1))
      && forall p :: p !in Footprint(run.request) ==> Entry(Apply(files, op), p) == Entry(files, p)
  {
    assert job.commits != [];
    PlanAdvances(before, job.commits, job.next);
    PlanTouches(run.request, run.product.value, run.initialMode, job.next);
    StepIsLocal(files, PlanState(before, job.commits, job.next), PlanOp(job.commits, job.next), Footprint(run.request));
    hide PlanState, PlanOp, Footprint, Apply, Enabled, Touches;
  }

  lemma StepOnOwnPaths(kept: set<Path>, before: FileSystem, runs: seq<Run>, s: System, choice: Choice, codec: PemCodec)
    requires choice.job < |runs| == |s.jobs| && Respects(runs[choice.job].request, kept)
    requires OnItsWay(kept, before, s.files, runs[choice.job], s.jobs[choice.job])
    ensures var s', i := Step(s, runs, choice, codec), choice.job;
      && |s'.jobs| == |s.jobs| && (forall j :: 0 <= j < |s.jobs| && j != i ==> s'.jobs[j] == s.jobs[j])
      && OnItsWay(kept, before, s'.files, runs[i], s'.jobs[i])
      && forall p :: p !in Footprint(runs[i].request) ==> Entry(s'.files, p) == Entry(s.files, p)
  {
    var i, job := choice.job, s.jobs[choice.job];
    if choice.Go? && !job.over && !job.looked {
      assert PlanState(before, [], 0) == before;
      LookIsMeant(kept, before, s.files, runs[i], codec);
    } else if choice.Go? && !job.over && job.next < PlanLength(job.commits) {
      CommitStepOnItsWay(kept, before, s.files, runs[i], job);
      hide PlanState, Plan, Meant, Footprint, Agree;
    }
    hide PlanOp, Apply, Enabled, Plan, Decide;
  }

  lemma StepKeepsWays(kept: set<Path>, before: FileSystem, runs: seq<Run>, s: System, choice: Choice, codec: PemCodec)
    requires Apart(runs) && (forall i :: 0 <= i < |runs| ==> Respects(runs[i].request, kept))
    requires AllOnTheirWay(kept, before, runs, s)
    ensures AllOnTheirWay(kept, before, runs, Step(s, runs, choice, codec))
  {
    var i := choice.job;
    if i < |runs| {
      assert OnItsWay(kept, before, s.files, runs[i], s.jobs[i]);
      StepOnOwnPaths(kept, before, runs, s, choice, codec);
      var s' := Step(s, runs, choice, codec);
      hide Step, OnItsWay, Footprint, Respects, Apart;
      forall j | 0 <= j < |runs| ensures OnItsWay(kept, before, s'.files, runs[j], s'.jobs[j]) {
        if j != i {
          assert OnItsWay(kept, before, s.files, runs[j], s.jobs[j]);
          FootprintsApart(runs, i, j);
          ElsewhereOnItsWay(kept, before, s.files, s'.files, runs[j], s.jobs[j]);
        }
      }
    }
  }

  lemma ElsewhereOnItsWay(kept: set<Path>, before: FileSystem, files: FileSystem, files': FileSystem, run: Run,
                          job: Job)
    requires OnItsWay(kept, before, files, run, job)
    requires forall p :: p in Footprint(run.request) ==> Entry(files', p) == Entry(files, p)
    ensures OnItsWay(kept, before, files', run, job)
  {
    hide PlanState, Footprint, Meant;
  }

  lemma FootprintsApart(runs: seq<Run>, i: nat, j: nat)
    requires Apart(runs) && i < |runs| && j < |runs| && i != j
    ensures Footprint(runs[i].request) !! Footprint(runs[j].request)
  {
    if j < i {
      assert Footprint(runs[j].request) !! Footprint(runs[i].request);
    }
  }

  lemma {:induction false} RunKeepsWays(kept: set<Path>, before: FileSystem, runs: seq<Run>, choices: seq<Choice>,
                                        codec: PemCodec)
    requires Apart(runs) && (forall i :: 0 <= i < |runs| ==> Respects(runs[i].request, kept))
    ensures AllOnTheirWay(kept, before, runs, After(Start(before, runs), runs, choices, codec))
  {
    if choices == [] {
      forall i | 0 <= i < |runs| ensures OnItsWay(kept, before, before, runs[i], Start(before, runs).jobs[i]) {
        assert PlanState(before, [], 0) == before;
      }
    } else {
      RunKeepsWays(kept, before, runs, choices[..|choices| - 1], codec);
      StepKeepsWays(kept, before, runs, After(Start(before, runs), runs, choices[..|choices| - 1], codec),
                    choices[|choices| - 1], codec);
    }
  }

  /** What commits that are meant make of the kept outputs, from one point to a later one. */
  lemma MeantGrows(kept: set<Path>, before: FileSystem, run: Run, commits: seq<Commit>, k: nat, l: nat)
    requires Respects(run.request, kept) && Meant(kept, before, run, commits) && k <= l <= PlanLength(commits)
    ensures forall p :: p in kept && p in Footprint(run.request) ==>
              var now := PlanState(before, commits, l);
              && (p in PlanState(before, commits, k) ==> Entry(now, p) == Entry(PlanState(before, commits, k), p))
              && (p in now ==> Entry(before, p) == Entry(now, p) || WholeProduct(run, p, now[p]))
  {
    if commits != [] {
      assert forall c :: c in commits ==> c.path in Outputs(run.request);
      PlanOnKept(kept, before, commits, k);
      PlanOnKept(kept, before, commits, l);
      hide PlanState;
      forall p | p in kept && p in Footprint(run.request) && p in PlanState(before, commits, l)
        ensures Entry(before, p) == Entry(PlanState(before, commits, l), p)
            || WholeProduct(run, p, PlanState(before, commits, l)[p])
      {
        assert commits[0] in commits && commits[|commits| - 1] in commits;
        assert Entry(PlanState(before, commits, l), p) == Some(PlanState(before, commits, l)[p]);
      }
      forall p | p in kept && p in Footprint(run.request) && p in PlanState(before, commits, k)
        ensures Entry(PlanState(before, commits, l), p) == Entry(PlanState(before, commits, k), p)
      {
        assert p in Outputs(run.request);
        assert Entry(PlanState(before, commits, k), p) == Some(PlanState(before, commits, k)[p]);
      }
    }
  }

  lemma StepGrows(kept: set<Path>, before: FileSystem, runs: seq<Run>, s: System, choice: Choice, codec: PemCodec)
    requires Apart(runs) && (forall i :: 0 <= i < |runs| ==> Respects(runs[i].request, kept))
    requires AllOnTheirWay(kept, before, runs, s)
    ensures Grows(kept, s.files, Step(s, runs, choice, codec).files)
  {
    var i := choice.job;
    var s' := Step(s, runs, choice, codec);
    if i < |runs| && s'.files != s.files {
      var job, job' := s.jobs[i], s'.jobs[i];
      assert job'.commits == job.commits && job'.next == job.next + 1;
      assert OnItsWay(kept, before, s.files, runs[i], job);
      StepOnOwnPaths(kept, before, runs, s, choice, codec);
      MeantGrows(kept, before, runs[i], job.commits, job.next, job'.next);
      hide Step, PlanState, Footprint, Meant, Respects, Apart;
      forall p | p in kept && p in s.files ensures p in s'.files && s'.files[p] == s.files[p] {
        assert Entry(s.files, p) == Some(s.files[p]);
        assert Entry(s'.files, p) == Entry(s.files, p);
      }
    }
  }

  lemma {:induction false} RunGrowsFrom(kept: set<Path>, before: FileSystem, runs: seq<Run>, choices: seq<Choice>,
                                        more: seq<Choice>, codec: PemCodec)
    requires Apart(runs) && (forall i :: 0 <= i < |runs| ==> Respects(runs[i].request, kept))
    ensures Grows(kept, After(Start(before, runs), runs, choices, codec).files,
                  After(Start(before, runs), runs, choices + more, codec).files)
    decreases |more|
  {
    if more == [] {
      assert choices + more == choices;
    } else {
      var earlier, last := more[..|more| - 1], more[|more| - 1];
      assert (choices + more)[..|choices + more| - 1] == choices + earlier
          && (choices + more)[|choices + more| - 1] == last;
      RunGrowsFrom(kept, before, runs, choices, earlier, codec);
      RunKeepsWays(kept, before, runs, choices + earlier, codec);
      StepGrows(kept, before, runs, After(Start(before, runs), runs, choices + earlier, codec), last, codec);
    }
  }

  /** Write-once at the same time: any number of requests of any kind that touch no common path and
      respect the kept ones, in any interleaving and stopped anywhere. What is at a kept path stays,
      and it is from before or the whole product of one of them. */
  lemma {:induction false} RacingRequestsWriteOnce(kept: set<Path>, before: FileSystem, runs: seq<Run>,
                                                   choices: seq<Choice>,
                                                   more: seq<Choice>, codec: PemCodec)
    requires Apart(runs) && (forall i :: 0 <= i < |runs| ==> Respects(runs[i].request, kept))
    ensures var files := After(Start(before, runs), runs, choices, codec).files;
      && Grows(kept, files, After(Start(before, runs), runs, choices + more, codec).files)
      && forall p :: p in kept && p in files ==> Explained(before, runs, p, files[p])
  {
    RunGrowsFrom(kept, before, runs, choices, more, codec);
    RunKeepsWays(kept, before, runs, choices, codec);
    var s := After(Start(before, runs), runs, choices, codec);
    hide After, Start, PlanState, Footprint, Meant, Respects, Apart;
    forall p | p in kept && p in s.files ensures Explained(before, runs, p, s.files[p]) {
      if i :| 0 <= i < |runs| && p in Footprint(runs[i].request) {
        assert OnItsWay(kept, before, s.files, runs[i], s.jobs[i]);
        MeantGrows(kept, before, runs[i], s.jobs[i].commits, s.jobs[i].next, s.jobs[i].next);
        assert Entry(s.files, p) == Entry(PlanState(before, s.jobs[i].commits, s.jobs[i].next), p);
      } else {
        assert Entry(s.files, p) == Entry(before, p);
      }
    }
  }

  // ---- The hypothesis is needed

  /** A request for one file that asks nothing of other files. */
  predicate Single(request: Request) {
    request.CertificateAuthority? || request.Yggdrasil?
  }

  function Target(request: Request): Path
    requires Single(request)
  {
    if request.CertificateAuthority? then request.output else request.keypair
  }

  /** Two requests at work at the same time, on any disk, in any interleaving. */
  ghost predicate RaceIsSafe(r: Request, q: Request)
    requires Single(r) && Single(q)
  {
    forall before: FileSystem, a: Run, b: Run, choices: seq<Choice>, more: seq<Choice>, codec: PemCodec ::
      a.request == r && b.request == q ==>
        var files := After(Start(before, [a, b]), [a, b], choices, codec).files;
        && Grows({Target(r), Target(q)}, files, After(Start(before, [a, b]), [a, b], choices + more, codec).files)
        && forall p :: p in {Target(r), Target(q)} && p in files ==> Explained(before, [a, b], p, files[p])
  }

  /** The exact condition for two such requests: their temporaries differ and are no targets. Two
      requests for one file at the same time can always leave something else than either meant. */
  lemma RaceIsSafeExactly(r: Request, q: Request)
    requires Single(r) && Single(q)
    ensures RaceIsSafe(r, q) <==> Writers.SeparatePaths(Target(r), Target(q))
  {
    if Writers.SeparatePaths(Target(r), Target(q)) {
      forall before: FileSystem, a: Run, b: Run, choices: seq<Choice>, more: seq<Choice>, codec: PemCodec |
        a.request == r && b.request == q
        ensures var files := After(Start(before, [a, b]), [a, b], choices, codec).files;
          && Grows({Target(r), Target(q)}, files, After(Start(before, [a, b]), [a, b], choices + more, codec).files)
          && forall p :: p in {Target(r), Target(q)} && p in files ==> Explained(before, [a, b], p, files[p])
      {
        TwoAreApart(a, b);
        RacingRequestsWriteOnce({Target(r), Target(q)}, before, [a, b], choices, more, codec);
      }
    } else {
      var a, b := Run(r, Some(Product([7], [])), 0, 0), Run(q, Some(Product([8], [])), 0, 0);
      UnsafeRace(a, b);
    }
  }

  lemma TwoAreApart(a: Run, b: Run)
    requires Single(a.request) && Single(b.request) && Writers.SeparatePaths(Target(a.request), Target(b.request))
    ensures Apart([a, b])
    ensures forall i :: 0 <= i < 2 ==> Respects([a, b][i].request, {Target(a.request), Target(b.request)})
  {
    hide TemporaryPath;
  }

  /** A request's only commit. */
  function TheCommit(run: Run): Commit
    requires Single(run.request) && run.product.Some?
  {
    Commits(run.request, run.product.value, run.initialMode)[0]
  }

  /** Two requests that found nothing are two writers. */
  predicate Follows(s: System, w: Writers.System) {
    && s.files == w.files && |s.jobs| == |w.writers| == 2
    && forall i :: 0 <= i < 2 ==>
         s.jobs[i] == Job([w.writers[i].commit], true, w.writers[i].next, w.writers[i].halted)
  }

  function AsChoice(choice: Writers.Choice): Choice {
    match choice
    case Advance(i) => Go(i)
    case Halt(i) => Halt(i)
  }

  function AsChoices(choices: seq<Writers.Choice>): seq<Choice> {
    seq(|choices|, k requires 0 <= k < |choices| => AsChoice(choices[k]))
  }

  lemma StepFollows(s: System, w: Writers.System, runs: seq<Run>, choice: Writers.Choice, codec: PemCodec)
    requires Follows(s, w) && |runs| == 2
    ensures Follows(Step(s, runs, AsChoice(choice), codec), Writers.Step(w, choice))
  {
    var i := choice.writer;
    if i < 2 {
      OnePlan(w.writers[i].commit);
      hide CommitOp, Apply, Enabled, CommitLength;
    }
  }

  lemma {:induction false} RunFollows(s: System, w: Writers.System, runs: seq<Run>, looks: seq<Choice>, start: System,
                                      choices: seq<Writers.Choice>, codec: PemCodec)
    requires Follows(s, w) && |runs| == 2 && After(start, runs, looks, codec) == s
    ensures Follows(After(start, runs, looks + AsChoices(choices), codec), Writers.Run(w, choices))
    decreases |choices|
  {
    var all := looks + AsChoices(choices);
    if choices == [] {
      assert all == looks;
    } else {
      var earlier, last := choices[..|choices| - 1], choices[|choices| - 1];
      RunFollows(s, w, runs, looks, start, earlier, codec);
      assert all[..|all| - 1] == looks + AsChoices(earlier) && all[|all| - 1] == AsChoice(last);
      StepFollows(After(start, runs, looks + AsChoices(earlier), codec), Writers.Run(w, earlier), runs, last, codec);
    }
  }

  /** Both look at an empty disk before either writes. */
  lemma BothLook(a: Run, b: Run, codec: PemCodec) returns (looks: seq<Choice>)
    requires Single(a.request) && Single(b.request) && a.product.Some? && b.product.Some?
    ensures Follows(After(Start(map[], [a, b]), [a, b], looks, codec),
                    Writers.Start(map[], [TheCommit(a), TheCommit(b)]))
  {
    looks := [Go(0), Go(1)];
    var start := Start(map[], [a, b]);
    assert looks[..1] == [Go(0)] && looks[..1][..0] == [];
    assert After(start, [a, b], looks[..1][..0], codec) == start;
    var s1 := After(start, [a, b], looks[..1], codec);
    assert s1 == Step(start, [a, b], Go(0), codec);
    assert s1.jobs[0] == Job([TheCommit(a)], true, 0, false);
    var s2 := After(start, [a, b], looks, codec);
    assert s2 == Step(s1, [a, b], Go(1), codec);
    assert s2.jobs[1] == Job([TheCommit(b)], true, 0, false);
  }

  lemma UnsafeRace(a: Run, b: Run)
    requires Single(a.request) && Single(b.request) && !Writers.SeparatePaths(Target(a.request), Target(b.request))
    requires a.product == Some(Product([7], [])) && b.product == Some(Product([8], []))
    ensures !RaceIsSafe(a.request, b.request)
  {
    var c, d := TheCommit(a), TheCommit(b);
    var codec := PemCodec(_ => None, _ => false);
    var choices := Writers.UnsafeRun(c, d);
    var looks := BothLook(a, b, codec);
    var start := Start(map[], [a, b]);
    RunFollows(After(start, [a, b], looks, codec), Writers.Start(map[], [c, d]), [a, b], looks, start, choices, codec);
    var all := looks + AsChoices(choices);
    var files := After(start, [a, b], all, codec).files;
    assert files == Writers.Run(Writers.Start(map[], [c, d]), choices).files;
    hide After, Start, Writers.Run, Writers.Start, Follows;
    assert !Writers.OldOrWhole(c.path, Entry(files, c.path), c, d)
        || !Writers.OldOrWhole(d.path, Entry(files, d.path), c, d);
    if !Writers.OldOrWhole(c.path, Entry(files, c.path), c, d) {
      NotExplained(a, b, files, c.path);
    } else {
      NotExplained(a, b, files, d.path);
    }
    assert all + [] == all;
    assert After(start, [a, b], all + [], codec).files == files;
  }

  lemma NotExplained(a: Run, b: Run, files: FileSystem, p: Path)
    requires Single(a.request) && Single(b.request) && a.product.Some? && b.product.Some?
    requires !Writers.OldOrWhole(p, Entry(files, p), TheCommit(a), TheCommit(b))
    ensures p in files && !Explained(map[], [a, b], p, files[p])
  {
    forall r | 0 <= r < 2 ensures !WholeProduct([a, b][r], p, files[p]) {
      var run := [a, b][r];
      assert Commits(run.request, run.product.value, run.initialMode) == [TheCommit(run)];
    }
  }

  // ---- Stopping

  /** A request that is over does nothing more, and ending it touches no file. */
  lemma {:induction false} StoppedRequestStays(s: System, runs: seq<Run>, choices: seq<Choice>, codec: PemCodec, i: nat)
    requires i < |s.jobs| && s.jobs[i].over
    ensures i < |After(s, runs, choices, codec).jobs| && After(s, runs, choices, codec).jobs[i] == s.jobs[i]
  {
    if choices != [] {
      StoppedRequestStays(s, runs, choices[..|choices| - 1], codec, i);
      hide PlanOp, Apply, Enabled, Plan, PlanLength;
    }
  }

  lemma StoppingEndsRequest(s: System, runs: seq<Run>, codec: PemCodec, i: nat)
    requires i < |s.jobs| && i < |runs| && !s.jobs[i].over
    requires s.jobs[i].looked ==> s.jobs[i].next < PlanLength(s.jobs[i].commits)
    ensures Step(s, runs, Halt(i), codec) == s.(jobs := s.jobs[i := s.jobs[i].(over := true)])
  {
    hide PlanOp, Apply, Enabled, Plan;
  }
}
