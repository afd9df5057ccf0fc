/** Any number of atomic writers at work at the same time (src/util.rs, `AtomicFile`): their
    steps interleave in any order and each may stop for good at any point. A writer's open
    handle is identified with the path of its temporary. */
module Writers {
  import opened ByteStrings
  import opened Paths
  import opened AtomicFile

  datatype Writer = Writer(commit: Commit, next: nat, halted: bool)

  datatype System = System(files: FileSystem, writers: seq<Writer>)

  datatype Choice = Advance(writer: nat) | Halt(writer: nat)

  /** One step of the chosen writer; a step that cannot be taken is an error and stops it. */
  function Step(s: System, choice: Choice): System {
    var i := choice.writer;
    if i >= |s.writers| || s.writers[i].halted || s.writers[i].next >= CommitLength(s.writers[i].commit) then s
    else
      var w := s.writers[i];
      var op := CommitOp(w.commit, w.next);
      if choice.Halt? || !Enabled(s.files, op) then s.(writers := s.writers[i := w.(halted := true)])
      else System(Apply(s.files, op), s.writers[i := w.(next := w.next + 1)])
  }

  function Run(s: System, choices: seq<Choice>): System {
    if choices == [] then s else Step(Run(s, choices[..|choices| - 1]), choices[|choices| - 1])
  }

  function Start(files: FileSystem, commits: seq<Commit>): System {
    System(files, seq(|commits|, i requires 0 <= i < |commits| => Writer(commits[i], 0, false)))
  }

  /** Temporaries are pairwise distinct, and none is anybody's target. */
  ghost predicate Separate(commits: seq<Commit>) {
    && (forall i, j :: 0 <= i < j < |commits| ==> TemporaryPath(commits[i].path) != TemporaryPath(commits[j].path))
    && (forall i, j :: 0 <= i < |commits| && 0 <= j < |commits| ==> TemporaryPath(commits[i].path) != commits[j].path)
  }

  /** Each writer is as far as its counter says, seen at its own two paths, and all other paths
      are as they were. */
  ghost predicate Consistent(files: FileSystem, commits: seq<Commit>, s: System) {
    && |s.writers| == |commits|
    && (forall i :: 0 <= i < |commits| ==> InStep(files, s.files, commits[i], s.writers[i]))
    && Untouched(files, s.files, commits)
  }

  ghost predicate InStep(before: FileSystem, files: FileSystem, c: Commit, w: Writer) {
    w.commit == c && w.next <= CommitLength(c) && AtOwnPaths(before, files, c, w.next)
  }

  ghost predicate Untouched(before: FileSystem, files: FileSystem, commits: seq<Commit>) {
    forall p :: (forall i :: 0 <= i < |commits| ==> p != commits[i].path && p != TemporaryPath(commits[i].path))
      ==> Entry(files, p) == Entry(before, p)
  }

  ghost predicate AtOwnPaths(before: FileSystem, files: FileSystem, c: Commit, k: nat)
    requires k <= CommitLength(c)
  {
    var alone := CommitState(before, c, k);
    && Entry(files, c.path) == Entry(alone, c.path)
    && Entry(files, TemporaryPath(c.path)) == Entry(alone, TemporaryPath(c.path))
  }

  /** A step of a commit reads and writes at its own two paths only. */
  lemma StepAtOwnPaths(before: FileSystem, files: FileSystem, c: Commit, k: nat)
    requires k < CommitLength(c) && AtOwnPaths(before, files, c, k)
    ensures Enabled(files, CommitOp(c, k))
    ensures AtOwnPaths(before, Apply(files, CommitOp(c, k)), c, k + 1)
    ensures forall p :: p != c.path && p != TemporaryPath(c.path) ==>
              Entry(Apply(files, CommitOp(c, k)), p) == Entry(files, p)
  {
    CommitAdvances(before, c, k);
    var alone := CommitState(before, c, k);
    var t := TemporaryPath(c.path);
    assert Entry(files, t) == Entry(alone, t);
  }

  lemma ConsistentAtStart(files: FileSystem, commits: seq<Commit>)
    ensures Consistent(files, commits, Start(files, commits))
  {
  }

  lemma StepKeepsConsistent(files: FileSystem, commits: seq<Commit>, s: System, choice: Choice)
    requires Separate(commits) && Consistent(files, commits, s)
    ensures Consistent(files, commits, Step(s, choice))
  {
    var i := choice.writer;
    if i < |commits| && choice.Advance? && !s.writers[i].halted
       && s.writers[i].next < CommitLength(s.writers[i].commit) {
      var w := s.writers[i];
      assert InStep(files, s.files, commits[i], w);
      StepAtOwnPaths(files, s.files, w.commit, w.next);
      var s' := Step(s, choice);
      hide CommitState, CommitOp, Apply, Enabled, Entry, TemporaryPath, Separate;
      forall j | 0 <= j < |commits| ensures InStep(files, s'.files, commits[j], s'.writers[j]) {
        assert InStep(files, s.files, commits[j], s.writers[j]);
        if j != i {
          DistinctPaths(commits, i, j);
        }
      }
      assert Untouched(files, s'.files, commits);
    } else if i < |commits| {
      assert InStep(files, s.files, commits[i], s.writers[i]);
    }
  }

  lemma DistinctPaths(commits: seq<Commit>, i: nat, j: nat)
    requires Separate(commits) && i < |commits| && j < |commits| && i != j
    ensures commits[i].path != commits[j].path && TemporaryPath(commits[i].path) != TemporaryPath(commits[j].path)
    ensures commits[i].path != TemporaryPath(commits[j].path) && commits[j].path != TemporaryPath(commits[i].path)
  {
    if i < j {
      assert TemporaryPath(commits[i].path) != TemporaryPath(commits[j].path);
    } else {
      assert TemporaryPath(commits[j].path) != TemporaryPath(commits[i].path);
    }
  }

  lemma {:induction false} RunKeepsConsistent(files: FileSystem, commits: seq<Commit>, choices: seq<Choice>)
    requires Separate(commits)
    ensures Consistent(files, commits, Run(Start(files, commits), choices))
  {
    if choices == [] {
      ConsistentAtStart(files, commits);
    } else {
      RunKeepsConsistent(files, commits, choices[..|choices| - 1]);
      StepKeepsConsistent(files, commits, Run(Start(files, commits), choices[..|choices| - 1]), choices[|choices| - 1]);
    }
  }

  /** In every interleaving, with any stops, each target holds its initial entry until its writer
      is done and the whole contents with that writer's mode from then on; nothing else changes
      but the temporaries. */
  lemma InterleavedWritersAreAtomic(files: FileSystem, commits: seq<Commit>, choices: seq<Choice>)
    requires Separate(commits)
    ensures var s := Run(Start(files, commits), choices);
            && |s.writers| == |commits|
            && (forall i :: 0 <= i < |commits| ==>
                  Entry(s.files, commits[i].path)
                  == if s.writers[i].next == CommitLength(commits[i])
                     then Some(File(commits[i].contents, commits[i].mode))
                     else Entry(files, commits[i].path))
            && (forall p ::
                (forall i :: 0 <= i < |commits| ==> p != commits[i].path && p != TemporaryPath(commits[i].path))
                  ==> Entry(s.files, p) == Entry(files, p))
  {
    RunKeepsConsistent(files, commits, choices);
    var s := Run(Start(files, commits), choices);
    forall i | 0 <= i < |commits|
      ensures Entry(s.files, commits[i].path)
           == if s.writers[i].next == CommitLength(commits[i])
              then Some(File(commits[i].contents, commits[i].mode))
              else Entry(files, commits[i].path)
    {
      assert TemporaryPath(commits[i].path) != commits[i].path;
      assert InStep(files, s.files, commits[i], s.writers[i]);
      CommitIsAtomic(files, commits[i], s.writers[i].next);
    }
  }

  // ---- Presence, whatever is shared

  /** No writer moves `p` away as its temporary. */
  ghost predicate Spared(p: Path, s: System) {
    forall i :: 0 <= i < |s.writers| && TemporaryPath(s.writers[i].commit.path) == p ==> s.writers[i].commit.path == p
  }

  lemma StepSpares(s: System, choice: Choice, p: Path)
    requires Spared(p, s) && p in s.files
    ensures Spared(p, Step(s, choice)) && p in Step(s, choice).files
  {
    var i := choice.writer;
    if i < |s.writers| && s.writers[i].next < CommitLength(s.writers[i].commit) {
      var c, k := s.writers[i].commit, s.writers[i].next;
      if Enabled(s.files, CommitOp(c, k)) {
        StepKeepsPresent(s.files, c, k, p);
      }
      hide CommitOp, Enabled, Apply, TemporaryPath, Entry;
    }
  }

  /** Writers may share temporaries and targets: a present path that none of them moves away is
      present in every state of every interleaving. */
  lemma {:induction false} PresentPathsStay(s: System, choices: seq<Choice>, p: Path)
    requires Spared(p, s) && p in s.files
    ensures Spared(p, Run(s, choices)) && p in Run(s, choices).files
  {
    if choices != [] {
      PresentPathsStay(s, choices[..|choices| - 1], p);
      StepSpares(Run(s, choices[..|choices| - 1]), choices[|choices| - 1], p);
    }
  }

  /** A writer that came to its end among any others has left a file. */
  lemma {:induction false} FinishedWriterLeavesFile(s: System, choices: seq<Choice>, i: nat)
    requires i < |s.writers| && s.writers[i].next < CommitLength(s.writers[i].commit)
        && Spared(s.writers[i].commit.path, s)
    ensures var end := Run(s, choices);
      && |end.writers| == |s.writers| && end.writers[i].commit == s.writers[i].commit
          && Spared(s.writers[i].commit.path, end)
      && (end.writers[i].next >= CommitLength(s.writers[i].commit) ==> s.writers[i].commit.path in end.files)
  {
    if choices != [] {
      FinishedWriterLeavesFile(s, choices[..|choices| - 1], i);
      LastStepOfWriter(Run(s, choices[..|choices| - 1]), choices[|choices| - 1], i);
    }
  }

  lemma LastStepOfWriter(s: System, choice: Choice, i: nat)
    requires i < |s.writers| && Spared(s.writers[i].commit.path, s)
    requires s.writers[i].next >= CommitLength(s.writers[i].commit) ==> s.writers[i].commit.path in s.files
    ensures var s' := Step(s, choice);
      && |s'.writers| == |s.writers| && s'.writers[i].commit == s.writers[i].commit
          && Spared(s.writers[i].commit.path, s')
      && (s'.writers[i].next >= CommitLength(s.writers[i].commit) ==> s.writers[i].commit.path in s'.files)
  {
    if s.writers[i].commit.path in s.files {
      StepSpares(s, choice, s.writers[i].commit.path);
    } else if Enabled(s.files, CommitOp(s.writers[i].commit, CommitLength(s.writers[i].commit) - 1)) {
      LastStepLeavesFile(s.files, s.writers[i].commit);
    }
    hide CommitOp, Enabled, Apply, CommitLength, TemporaryPath;
  }

  // ---- The hypothesis is needed

  /** `seen` is nothing or the whole file of one of the two commits to this path. */
  predicate OldOrWhole(p: Path, seen: Option<File>, a: Commit, b: Commit) {
    || seen == None
    || (a.path == p && seen == Some(File(a.contents, a.mode)))
    || (b.path == p && seen == Some(File(b.contents, b.mode)))
  }

  /** Two writers on `p` and `q` never show a reader anything but old or whole files. */
  ghost predicate PairIsSafe(p: Path, q: Path) {
    forall a: Commit, b: Commit, choices: seq<Choice> :: a.path == p && b.path == q ==>
      var s := Run(Start(map[], [a, b]), choices);
      OldOrWhole(p, Entry(s.files, p), a, b) && OldOrWhole(q, Entry(s.files, q), a, b)
  }

  /** Two writers are safe exactly when their temporaries differ and are no targets; two on one
      path never are. */
  lemma PairIsSafeExactly(p: Path, q: Path)
    ensures PairIsSafe(p, q) <==> SeparatePaths(p, q)
  {
    if SeparatePaths(p, q) {
      forall a: Commit, b: Commit, choices: seq<Choice> | a.path == p && b.path == q
        ensures var s := Run(Start(map[], [a, b]), choices);
                OldOrWhole(p, Entry(s.files, p), a, b) && OldOrWhole(q, Entry(s.files, q), a, b)
      {
        var commits := [a, b];
        assert Separate(commits);
        InterleavedWritersAreAtomic(map[], commits, choices);
        assert commits[0].path == p && commits[1].path == q;
      }
    } else {
      var a, b := Commit(p, [7], 1, 0), Commit(q, [8], 2, 0);
      var choices := UnsafeRun(a, b);
      assert a.path == p && b.path == q;
    }
  }

  predicate SeparatePaths(p: Path, q: Path) {
    TemporaryPath(p) != TemporaryPath(q) && TemporaryPath(p) !in {p, q} && TemporaryPath(q) !in {p, q}
  }

  /** A run of two writers that shows a reader something else than old or whole files. */
  lemma UnsafeRun(a: Commit, b: Commit) returns (choices: seq<Choice>)
    requires |a.contents| == 1 && |b.contents| == 1 && !SeparatePaths(a.path, b.path)
    ensures var s := Run(Start(map[], [a, b]), choices);
            !(OldOrWhole(a.path, Entry(s.files, a.path), a, b) && OldOrWhole(b.path, Entry(s.files, b.path), a, b))
  {
    if TemporaryPath(a.path) in {a.path, b.path} {
      choices := CreateShows(a, b, 0);
    } else if TemporaryPath(b.path) in {a.path, b.path} {
      choices := CreateShows(a, b, 1);
    } else {
      choices := SharedTemporaryShows(a, b);
    }
  }

  /** Creating a temporary that is a target shows an empty file there. */
  lemma CreateShows(a: Commit, b: Commit, i: nat) returns (choices: seq<Choice>)
    requires i < 2 && a.contents != [] && b.contents != []
    requires TemporaryPath([a, b][i].path) in {a.path, b.path}
    ensures var t := TemporaryPath([a, b][i].path);
            !OldOrWhole(t, Entry(Run(Start(map[], [a, b]), choices).files, t), a, b)
  {
    var start := Start(map[], [a, b]);
    var t := TemporaryPath([a, b][i].path);
    choices := [Advance(i)];
    assert choices[..0] == [];
    assert Run(start, choices[..0]) == start;
    var s := Run(start, choices);
    assert s == Step(start, Advance(i));
    assert Entry(s.files, t) == Some(File([], [a, b][i].initialMode));
  }

  /** With one temporary for two targets, a writer can publish the file that the other has just
      truncated. */
  lemma SharedTemporaryShows(a: Commit, b: Commit) returns (choices: seq<Choice>)
    requires |a.contents| == 1 && b.contents != []
    requires TemporaryPath(a.path) == TemporaryPath(b.path) && TemporaryPath(a.path) !in {a.path, b.path}
    ensures !OldOrWhole(a.path, Entry(Run(Start(map[], [a, b]), choices).files, a.path), a, b)
  {
    hide Run, TemporaryPath;
    choices := [Advance(0), Advance(0), Advance(0), Advance(0), Advance(1), Advance(0)];
    TruncatedIsPublished(a, b, choices);
  }

  lemma TruncatedIsPublished(a: Commit, b: Commit, choices: seq<Choice>)
    requires |a.contents| == 1
    requires TemporaryPath(a.path) == TemporaryPath(b.path) && TemporaryPath(a.path) !in {a.path, b.path}
    requires choices == [Advance(0), Advance(0), Advance(0), Advance(0), Advance(1), Advance(0)]
    ensures Entry(Run(Start(map[], [a, b]), choices).files, a.path) == Some(File([], a.mode))
  {
    RunUnrolls(Start(map[], [a, b]), choices);
    hide Run, TemporaryPath;
    var s4 := AllButRename(a, b);
    var s5 := Step(s4, Advance(1));
    assert CommitOp(b, 0) == Create(TemporaryPath(a.path), b.initialMode);
    assert s5.files == map[TemporaryPath(a.path) := File([], a.mode)];
    assert s5.writers[0] == Writer(a, 4, false);
    assert CommitOp(a, 4) == Rename(TemporaryPath(a.path), a.path);
    hide CommitOp;
    assert Entry(Step(s5, Advance(0)).files, a.path) == Some(File([], a.mode));
  }

  /** The first writer alone, up to its rename. */
  lemma AllButRename(a: Commit, b: Commit) returns (s4: System)
    requires |a.contents| == 1
    ensures var start := Start(map[], [a, b]);
            s4 == Step(Step(Step(Step(start, Advance(0)), Advance(0)), Advance(0)), Advance(0))
    ensures s4.files == map[TemporaryPath(a.path) := File(a.contents, a.mode)]
    ensures s4.writers == [Writer(a, 4, false), Writer(b, 0, false)]
  {
    var t := TemporaryPath(a.path);
    var start := Start(map[], [a, b]);
    assert start.writers == [Writer(a, 0, false), Writer(b, 0, false)];
    var s1 := Step(start, Advance(0));
    assert s1 == System(map[t := File([], a.initialMode)], [Writer(a, 1, false), Writer(b, 0, false)]);
    var s2 := Step(s1, Advance(0));
    assert [] + [a.contents[0]] == a.contents;
    assert s2 == System(map[t := File(a.contents, a.initialMode)], [Writer(a, 2, false), Writer(b, 0, false)]);
    var s3 := Step(s2, Advance(0));
    assert s3 == System(s2.files, [Writer(a, 3, false), Writer(b, 0, false)]);
    s4 := Step(s3, Advance(0));
  }

  lemma RunUnrolls(s: System, c: seq<Choice>)
    requires |c| == 6
    ensures Run(s, c) == Step(Step(Step(Step(Step(Step(s, c[0]), c[1]), c[2]), c[3]), c[4]), c[5])
  {
    assert c[..5][..4] == c[..4] && c[..4][..3] == c[..3] && c[..3][..2] == c[..2] && c[..2][..1] == c[..1];
    assert c[..1][..0] == [];
    assert Run(s, c[..1]) == Step(s, c[0]);
    assert Run(s, c[..2]) == Step(Run(s, c[..1]), c[1]);
    assert Run(s, c[..3]) == Step(Run(s, c[..2]), c[2]);
    assert Run(s, c[..4]) == Step(Run(s, c[..3]), c[3]);
    assert Run(s, c[..5]) == Step(Run(s, c[..4]), c[4]);
  }

  // ---- Stopping

  /** A writer that has stopped stays stopped where it is, and the step that stops it touches no file. */
  lemma {:induction false} StoppedWriterStays(s: System, choices: seq<Choice>, i: nat)
    requires i < |s.writers| && s.writers[i].halted
    ensures i < |Run(s, choices).writers| && Run(s, choices).writers[i] == s.writers[i]
  {
    if choices != [] {
      StoppedWriterStays(s, choices[..|choices| - 1], i);
      hide CommitOp, Apply, Enabled;
    }
  }

  lemma StoppingStops(s: System, i: nat)
    requires i < |s.writers| && s.writers[i].next < CommitLength(s.writers[i].commit)
    ensures Step(s, Halt(i)) == s.(writers := s.writers[i := s.writers[i].(halted := true)])
  {
    hide CommitOp, Apply, Enabled;
    if s.writers[i].halted {
      assert s.writers[i := s.writers[i].(halted := true)] == s.writers;
    }
  }
}
