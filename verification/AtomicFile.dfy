/** The file system and the five-step commit of `AtomicFile::write_bytes` (src/util.rs). */
module AtomicFile {
  import opened ByteStrings
  import opened Paths

  datatype File = File(bytes: Bytes, mode: nat)

  type FileSystem = map<Path, File>

  /** The primitive steps; bytes are written one at a time, so that a write can stop anywhere. */
  datatype Op =
    | Create(path: Path, initialMode: nat)   // create, or truncate and keep the mode
    | Write(path: Path, b: Byte)
    | Sync(path: Path)
    | Chmod(path: Path, mode: nat)
    | Rename(from: Path, to: Path)

  /** A call of `write_bytes`; `initialMode` is what the process gives to a file it creates. */
  datatype Commit = Commit(path: Path, contents: Bytes, mode: nat, initialMode: nat)

  function Entry(fs: FileSystem, p: Path): Option<File> {
    if p in fs then Some(fs[p]) else None
  }

  predicate Enabled(fs: FileSystem, op: Op) {
    match op
    case Create(_, _) => true
    case Rename(from, _) => from in fs
    case other => other.path in fs
  }

  function Apply(fs: FileSystem, op: Op): FileSystem
    requires Enabled(fs, op)
  {
    match op
    case Create(p, initialMode) => fs[p := File([], if p in fs then fs[p].mode else initialMode)]
    case Write(p, b) => fs[p := File(fs[p].bytes + [b], fs[p].mode)]
    case Sync(_) => fs
    case Chmod(p, mode) => fs[p := File(fs[p].bytes, mode)]
    case Rename(from, to) => (fs - {from})[to := fs[from]]
  }

  function CommitLength(c: Commit): nat {
    |c.contents| + 4
  }

  /** The step of a commit that follows `k` others. */
  function CommitOp(c: Commit, k: nat): Op
    requires k < CommitLength(c)
  {
    var n := |c.contents|;
    var t := TemporaryPath(c.path);
    if k == 0 then Create(t, c.initialMode)
    else if k <= n then Write(t, c.contents[k - 1])
    else if k == n + 1 then Sync(t)
    else if k == n + 2 then Chmod(t, c.mode)
    else Rename(t, c.path)
  }

  /** The steps of a commit in their order: nothing is renamed before all of it was written and
      synced, and nothing is synced before it was written. */
  function Steps(c: Commit): (steps: seq<Op>)
    ensures |steps| == |c.contents| + 4
  {
    var t := TemporaryPath(c.path);
    [Create(t, c.initialMode)] + seq(|c.contents|, i requires 0 <= i < |c.contents| => Write(t, c.contents[i]))
    + [Sync(t), Chmod(t, c.mode), Rename(t, c.path)]
  }

  lemma StepsAreOps(c: Commit, k: nat)
    requires k < CommitLength(c)
    ensures CommitLength(c) == |Steps(c)| && CommitOp(c, k) == Steps(c)[k]
  {
  }

  /** The file system after the first `k` steps of a commit. */
  function CommitState(fs: FileSystem, c: Commit, k: nat): FileSystem
    requires k <= CommitLength(c)
  {
    var n := |c.contents|;
    var t := TemporaryPath(c.path);
    if k == 0 then fs
    else if k <= n + 2 then
      fs[t := File(c.contents[..if k - 1 < n then k - 1 else n], if t in fs then fs[t].mode else c.initialMode)]
    else if k == n + 3 then fs[t := File(c.contents, c.mode)]
    else (fs - {t})[c.path := File(c.contents, c.mode)]
  }

  /** One step of a commit leads from one of these states to the next. */
  lemma CommitAdvances(fs: FileSystem, c: Commit, k: nat)
    requires k < CommitLength(c)
    ensures Enabled(CommitState(fs, c, k), CommitOp(c, k))
    ensures Apply(CommitState(fs, c, k), CommitOp(c, k)) == CommitState(fs, c, k + 1)
  {
    var n := |c.contents|;
    if 1 <= k <= n {
      assert c.contents[..k - 1] + [c.contents[k - 1]] == c.contents[..k];
    } else if k == n + 1 || k == n + 2 {
      assert c.contents[..n] == c.contents;
    }
  }

  /** Where the temporary is another path, the target keeps its entry until the last step gives
      it the whole contents and the mode; nothing but these two paths is ever touched. */
  lemma CommitIsAtomic(fs: FileSystem, c: Commit, k: nat)
    requires k <= CommitLength(c) && TemporaryPath(c.path) != c.path
    ensures Entry(CommitState(fs, c, k), c.path)
         == if k == CommitLength(c) then Some(File(c.contents, c.mode)) else Entry(fs, c.path)
    ensures forall p :: p != c.path && p != TemporaryPath(c.path) ==> Entry(CommitState(fs, c, k), p) == Entry(fs, p)
    ensures k == CommitLength(c) ==> TemporaryPath(c.path) !in CommitState(fs, c, k)
  {
  }

  /** A reader of `p` finds what was there or the whole new file, whenever it looks. */
  ghost predicate AlwaysWhole(p: Path) {
    forall fs: FileSystem, contents: Bytes, mode: nat, initialMode: nat, k: nat ::
      k <= CommitLength(Commit(p, contents, mode, initialMode)) ==>
        var seen := Entry(CommitState(fs, Commit(p, contents, mode, initialMode), k), p);
        seen == Entry(fs, p) || seen == Some(File(contents, mode))
  }

  /** The exact condition for that is that `p` is not its own temporary. */
  lemma WholeExactly(p: Path)
    ensures AlwaysWhole(p) <==> !IsOwnTemporary(p)
  {
    OwnTemporaryExactly(p);
    if IsOwnTemporary(p) {
      var c := Commit(p, [0], 0, 0);
      var seen := Entry(CommitState(map[], c, 1), p);
      assert c.contents[..0] == [];
      assert seen == Some(File([], 0));
    } else {
      forall fs: FileSystem, contents: Bytes, mode: nat, initialMode: nat, k: nat |
        k <= CommitLength(Commit(p, contents, mode, initialMode))
        ensures var seen := Entry(CommitState(fs, Commit(p, contents, mode, initialMode), k), p);
                seen == Entry(fs, p) || seen == Some(File(contents, mode))
      {
        CommitIsAtomic(fs, Commit(p, contents, mode, initialMode), k);
      }
    }
  }

  /** A step of a commit removes no path but the temporary of another. */
  lemma StepKeepsPresent(fs: FileSystem, c: Commit, k: nat, p: Path)
    requires k < CommitLength(c) && Enabled(fs, CommitOp(c, k))
    requires p in fs && (TemporaryPath(c.path) == p ==> c.path == p)
    ensures p in Apply(fs, CommitOp(c, k))
  {
  }

  /** The last step of a commit leaves the file, whatever became of it before. */
  lemma LastStepLeavesFile(fs: FileSystem, c: Commit)
    requires Enabled(fs, CommitOp(c, CommitLength(c) - 1))
    ensures c.path in Apply(fs, CommitOp(c, CommitLength(c) - 1))
  {
  }

  /** A path stays present through every commit to `p` exactly when it is no temporary that the
      commit moves away. */
  lemma PresentStaysExactly(p: Path, q: Path)
    ensures (forall fs: FileSystem, contents: Bytes, mode: nat, initialMode: nat, k: nat ::
               q in fs && k <= CommitLength(Commit(p, contents, mode, initialMode)) ==>
                 q in CommitState(fs, Commit(p, contents, mode, initialMode), k))
       <==> (TemporaryPath(p) == q ==> p == q)
  {
    if TemporaryPath(p) == q && p != q {
      var fs: FileSystem := map[q := File([], 0)];
      assert q !in CommitState(fs, Commit(p, [], 0, 0), 4);
    }
  }

  /** The directory and those above it; no name stands for the current one. */
  function Ancestors(directory: string): set<string> {
    set n | 0 < n <= |directory| && (n == |directory| || directory[n] == '/') :: directory[..n]
  }

  /** The directories a path needs: each of its prefixes that ends a name. */
  lemma AncestorsExactly(directory: string, prefix: string)
    ensures prefix in Ancestors(directory)
       <==> prefix != "" && prefix <= directory && (prefix == directory || directory[|prefix|] == '/')
  {
    if prefix != "" && prefix <= directory {
      assert directory[..|prefix|] == prefix;
    }
  }

  /** A disk that fails for good after `budget` more steps: the point where a run is stopped, by
      an I/O error or by a crash. */
  class Disk {
    var files: FileSystem
    var directories: set<string>
    var budget: nat
    var log: seq<Op>     // the steps that were performed

    constructor (files: FileSystem, directories: set<string>, budget: nat)
      ensures this.files == files && this.directories == directories && this.budget == budget && log == []
    {
      this.files := files;
      this.directories := directories;
      this.budget := budget;
      log := [];
    }

    /** `create_dir_all`, which may fail when it has made the directories of a part of the path. */
    method MakeDirectories(directory: string, reach: nat) returns (ok: bool)
      modifies this`directories
      ensures ok <==> reach >= |directory|
      ensures directories == old(directories) + Ancestors(if ok then directory else directory[..reach])
      ensures ok && directory != "" ==> directory in directories
    {
      assert directory[..|directory|] == directory;
      ok := reach >= |directory|;
      directories := directories + Ancestors(if ok then directory else directory[..reach]);
    }

    method Perform(op: Op) returns (ok: bool)
      modifies this`files, this`budget, this`log
      ensures log == if ok then old(log) + [op] else old(log)
      ensures ok <==> old(budget) > 0 && Enabled(old(files), op)
      ensures files == if ok then Apply(old(files), op) else old(files)
      ensures budget == if ok then old(budget) - 1 else old(budget)
    {
      ok := budget > 0 && Enabled(files, op);
      if ok {
        files := Apply(files, op);
        budget := budget - 1;
        log := log + [op];
      }
    }

    /** The next step of a commit that is under way. */
    method Proceed(op: Op, ghost c: Commit, ghost before: FileSystem, ghost logged: seq<Op>, ghost k: nat)
      returns (ok: bool)
      requires k < |Steps(c)| && op == Steps(c)[k]
      requires files == CommitState(before, c, k) && log == logged + Steps(c)[..k]
      modifies this`files, this`budget, this`log
      ensures ok <==> old(budget) > 0
      ensures budget == if ok then old(budget) - 1 else old(budget)
      ensures var n := if ok then k + 1 else k;
              files == CommitState(before, c, n) && log == logged + Steps(c)[..n]
    {
      StepsAreOps(c, k);
      CommitAdvances(before, c, k);
      hide CommitState, CommitOp, Steps, Apply, Enabled;
      ok := Perform(op);
      assert Steps(c)[..k] + [op] == Steps(c)[..k + 1];
    }

    /** `AtomicFile::write_bytes`: the commit as far as the budget carries it. */
    method WriteBytes(path: Path, contents: Bytes, mode: nat, initialMode: nat) returns (ok: bool)
      modifies this`files, this`budget, this`log
      ensures var c := Commit(path, contents, mode, initialMode);
              var steps := if old(budget) < CommitLength(c) then old(budget) else CommitLength(c);
              && files == CommitState(old(files), c, steps)
              && budget == old(budget) - steps
              && log == old(log) + Steps(c)[..steps]
              && (ok <==> steps == CommitLength(c))
    {
      ghost var c := Commit(path, contents, mode, initialMode);
      ghost var before, logged := files, log;
      var temporary := TemporaryPath(path);
      StepsInOrder(c);
      NothingDone(before, logged, c);
      hide CommitState, Steps, TemporaryPath;
      ok := Proceed(Create(temporary, initialMode), c, before, logged, 0);
      if !ok {
        return;
      }
      var written := 0;
      while written < |contents|
        invariant 0 <= written <= |contents|
        invariant files == CommitState(before, c, written + 1) && log == logged + Steps(c)[..written + 1]
        invariant budget + written + 1 == old(budget)
      {
        ok := Proceed(Write(temporary, contents[written]), c, before, logged, written + 1);
        if !ok {
          return;
        }
        written := written + 1;
      }
      ok := Proceed(Sync(temporary), c, before, logged, written + 1);
      if !ok {
        return;
      }
      ok := Proceed(Chmod(temporary, mode), c, before, logged, written + 2);
      if !ok {
        return;
      }
      ok := Proceed(Rename(temporary, path), c, before, logged, written + 3);
    }
  }

  lemma StepsInOrder(c: Commit)
    ensures var steps, t, n := Steps(c), TemporaryPath(c.path), |c.contents|;
      && steps[0] == Create(t, c.initialMode)
      && (forall i :: 0 <= i < n ==> steps[i + 1] == Write(t, c.contents[i]))
      && steps[n + 1] == Sync(t) && steps[n + 2] == Chmod(t, c.mode) && steps[n + 3] == Rename(t, c.path)
  {
  }

  lemma NothingDone(fs: FileSystem, log: seq<Op>, c: Commit)
    ensures CommitState(fs, c, 0) == fs && log + Steps(c)[..0] == log
  {
  }
}
