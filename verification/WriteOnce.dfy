/** What any sequence of runs, each stopped anywhere, leaves on the disk. */
module WriteOnce {
  import opened ByteStrings
  import opened Paths
  import opened AtomicFile
  import opened Issuance

  /** The paths a request may write. */
  function Outputs(request: Request): set<Path> {
    match request
    case CertificateAuthority(output) => {output}
    case Server(_, certificate, privateKey) => {certificate, privateKey}
    case Client(_, output) => {output}
    case Yggdrasil(keypair) => {keypair}
    case Publication(output) => {output}
  }

  /** What a request must respect for the paths in `kept` to be written once: no temporary of
      its outputs is one of them, a server's two outputs are not one file of theirs, and the
      publication, which is rewritten, is not among them. */
  ghost predicate Respects(request: Request, kept: set<Path>) {
    && (forall p :: p in Outputs(request) ==> TemporaryPath(p) !in kept)
    && (request.Server? ==> request.certificate != request.privateKey || request.certificate !in kept)
    && (request.Publication? ==> request.output !in kept)
  }

  /** On the kept paths, `b` is `a` with entries added. */
  ghost predicate Grows(kept: set<Path>, a: FileSystem, b: FileSystem) {
    forall p :: p in kept && p in a ==> p in b && b[p] == a[p]
  }

  /** `file` at `p` is the whole file, with its mode, that the run meant to write there. */
  ghost predicate WholeProduct(run: Run, p: Path, file: File) {
    && run.product.Some?
    && exists c :: c in Commits(run.request, run.product.value, run.initialMode)
                   && c.path == p && file == File(c.contents, c.mode)
  }

  lemma CommitOnKept(kept: set<Path>, fs: FileSystem, c: Commit, k: nat)
    requires k <= CommitLength(c) && TemporaryPath(c.path) !in kept
    ensures forall p :: p in kept ==>
              Entry(CommitState(fs, c, k), p)
              == if p == c.path && k == CommitLength(c) then Some(File(c.contents, c.mode)) else Entry(fs, p)
  {
  }

  /** The kept paths during a plan of at most two commits. */
  lemma PlanOnKept(kept: set<Path>, fs: FileSystem, commits: seq<Commit>, k: nat)
    requires |commits| <= 2 && k <= PlanLength(commits)
    requires forall c :: c in commits ==> TemporaryPath(c.path) !in kept
    requires |commits| == 2 ==> commits[0].path != commits[1].path || commits[0].path !in kept
    ensures forall p :: p in kept ==>
              Entry(PlanState(fs, commits, k), p)
              == if |commits| >= 1 && p == commits[0].path && k >= CommitLength(commits[0])
                 then Some(File(commits[0].contents, commits[0].mode))
                 else if |commits| == 2 && p == commits[1].path && k == PlanLength(commits)
                 then Some(File(commits[1].contents, commits[1].mode))
                 else Entry(fs, p)
  {
    if |commits| == 1 {
      assert commits == [commits[0]];
      OnePlan(commits[0]);
      CommitOnKept(kept, fs, commits[0], k);
    } else if |commits| == 2 {
      var c, d := commits[0], commits[1];
      assert commits == [c, d];
      TwoPlans(c, d);
      hide PlanState, CommitState;
      if k <= CommitLength(c) {
        CommitOnKept(kept, fs, c, k);
      } else {
        CommitOnKept(kept, fs, c, CommitLength(c));
        CommitOnKept(kept, CommitState(fs, c, CommitLength(c)), d, k - CommitLength(c));
        assert PlanState(fs, commits, CommitLength(c) + (k - CommitLength(c)))
            == CommitState(CommitState(fs, c, CommitLength(c)), d, k - CommitLength(c));
      }
    }
  }

  /** What a run plans to write among the kept paths is absent when it starts. */
  lemma PlanStartsAbsent(kept: set<Path>, fs: FileSystem, run: Run, codec: PemCodec)
    requires Respects(run.request, kept)
    ensures var commits := Plan(fs, run, codec);
            && (forall c :: c in commits ==> TemporaryPath(c.path) !in kept)
            && (forall c :: c in commits && c.path in kept ==> c.path !in fs)
            && (|commits| == 2 ==> commits[0].path != commits[1].path || commits[0].path !in kept)
  {
  }

  /** Within one run the kept paths only gain whole products. */
  lemma RunGrows(kept: set<Path>, fs: FileSystem, run: Run, codec: PemCodec, k: nat, l: nat)
    requires Respects(run.request, kept) && k <= l <= Reached(fs, run, codec)
    ensures var commits := Plan(fs, run, codec);
            && Grows(kept, PlanState(fs, commits, k), PlanState(fs, commits, l))
            && forall p :: p in kept && p in PlanState(fs, commits, l) && p !in fs ==>
                 WholeProduct(run, p, PlanState(fs, commits, l)[p])
  {
    var commits := Plan(fs, run, codec);
    PlanStartsAbsent(kept, fs, run, codec);
    PlanOnKept(kept, fs, commits, k);
    PlanOnKept(kept, fs, commits, l);
    hide PlanState, Decide;
    forall p | p in kept && p in PlanState(fs, commits, l) && p !in fs
      ensures WholeProduct(run, p, PlanState(fs, commits, l)[p])
    {
      assert Entry(PlanState(fs, commits, l), p) == Some(PlanState(fs, commits, l)[p]);
      if |commits| >= 1 && p == commits[0].path && l >= CommitLength(commits[0]) {
        assert commits[0] in commits;
      } else {
        assert commits[1] in commits;
      }
    }
    forall p | p in kept && p in PlanState(fs, commits, k)
      ensures p in PlanState(fs, commits, l) && PlanState(fs, commits, l)[p] == PlanState(fs, commits, k)[p]
    {
      assert Entry(PlanState(fs, commits, k), p) == Some(PlanState(fs, commits, k)[p]);
      assert Entry(PlanState(fs, commits, l), p) == Entry(PlanState(fs, commits, k), p);
    }
  }

  /** An entry is the one found at the beginning or the whole product of one of the runs. */
  ghost predicate Explained(fs: FileSystem, runs: seq<Run>, p: Path, file: File) {
    Entry(fs, p) == Some(file) || exists r :: 0 <= r < |runs| && WholeProduct(runs[r], p, file)
  }

  /** On the kept paths, every state of `h` has what an earlier one had, and whatever appears is
      the whole file and mode that some run meant to write. */
  ghost predicate WrittenOnce(kept: set<Path>, fs: FileSystem, runs: seq<Run>, h: seq<FileSystem>) {
    && (forall j :: 0 <= j < |h| ==> Grows(kept, fs, h[j]))
    && (forall i, j :: 0 <= i <= j < |h| ==> Grows(kept, h[i], h[j]))
    && (forall j, p :: 0 <= j < |h| && p in kept && p in h[j] ==> Explained(fs, runs, p, h[j][p]))
  }

  /** Write-once over all runs, each stopped anywhere. */
  lemma {:induction false} KeptPathsAreWrittenOnce(kept: set<Path>, fs: FileSystem, runs: seq<Run>, codec: PemCodec)
    requires forall r :: 0 <= r < |runs| ==> Respects(runs[r].request, kept)
    ensures WrittenOnce(kept, fs, runs, History(fs, runs, codec))
    decreases |runs|
  {
    if runs != [] {
      var run, others := runs[0], runs[1..];
      var end := EndOf(fs, run, codec);
      VisitedWrittenOnce(kept, fs, run, codec);
      KeptPathsAreWrittenOnce(kept, end, others, codec);
      assert runs == [run] + others;
      JoinWrittenOnce(kept, fs, run, others, Visited(fs, run, codec), end, History(end, others, codec));
    }
  }

  lemma VisitedWrittenOnce(kept: set<Path>, fs: FileSystem, run: Run, codec: PemCodec)
    requires Respects(run.request, kept)
    ensures WrittenOnce(kept, fs, [run], Visited(fs, run, codec))
  {
    var first := Visited(fs, run, codec);
    assert first[0] == fs;
    forall i, j | 0 <= i <= j < |first| ensures Grows(kept, first[i], first[j]) {
      RunGrows(kept, fs, run, codec, i, j);
    }
    forall j, p | 0 <= j < |first| && p in kept && p in first[j]
      ensures Explained(fs, [run], p, first[j][p])
    {
      RunGrows(kept, fs, run, codec, 0, j);
      if p !in fs {
        assert WholeProduct([run][0], p, first[j][p]);
      }
    }
  }

  lemma JoinWrittenOnce(kept: set<Path>, fs: FileSystem, run: Run, others: seq<Run>,
                        first: seq<FileSystem>, end: FileSystem, rest: seq<FileSystem>)
    requires first != [] && first[|first| - 1] == end
    requires WrittenOnce(kept, fs, [run], first) && WrittenOnce(kept, end, others, rest)
    ensures WrittenOnce(kept, fs, [run] + others, first + rest)
  {
    hide WholeProduct;
    var h := first + rest;
    assert Grows(kept, fs, end);
    forall i, j | 0 <= i <= j < |h| ensures Grows(kept, h[i], h[j]) {
      if i < |first| <= j {
        assert Grows(kept, first[i], first[|first| - 1]) && Grows(kept, end, rest[j - |first|]);
      }
    }
    forall j | 0 <= j < |h| ensures Grows(kept, fs, h[j]) {
      if |first| <= j {
        assert Grows(kept, end, rest[j - |first|]);
      }
    }
    forall j, p | 0 <= j < |h| && p in kept && p in h[j] ensures Explained(fs, [run] + others, p, h[j][p]) {
      if j < |first| || Entry(end, p) == Some(h[j][p]) {
        var state := if j < |first| then first[j] else end;
        assert Explained(fs, [run], p, state[p]);
        assert ([run] + others)[0] == [run][0];
      } else {
        var r :| 0 <= r < |others| && WholeProduct(others[r], p, h[j][p]);
        assert ([run] + others)[r + 1] == others[r];
      }
    }
  }

  // ---- The hypothesis is needed

  /** Whatever the disk and the products, runs of this request write the kept paths once. */
  ghost predicate KeepsOnce(request: Request, kept: set<Path>, codec: PemCodec) {
    forall fs: FileSystem, runs: seq<Run> :: (forall r :: 0 <= r < |runs| ==> runs[r].request == request) ==>
      WrittenOnce(kept, fs, runs, History(fs, runs, codec))
  }

  /** For a request whose authority is none of its outputs, what it has to respect is exact
      (provided some text is a certificate at all). */
  lemma RespectsExactly(request: Request, kept: set<Path>, codec: PemCodec, text: Bytes)
    requires codec.parses(text) && ValidUtf8(text)
    requires (request.Server? || request.Client?) ==> request.authority !in Outputs(request)
    ensures KeepsOnce(request, kept, codec) <==> Respects(request, kept)
  {
    if Respects(request, kept) {
      forall fs: FileSystem, runs: seq<Run> | forall r :: 0 <= r < |runs| ==> runs[r].request == request
        ensures WrittenOnce(kept, fs, runs, History(fs, runs, codec))
      {
        KeptPathsAreWrittenOnce(kept, fs, runs, codec);
      }
    } else {
      var fs, run, i, j := ChangingRun(request, kept, codec, text);
      hide *;
      VisitedBeginsHistory(fs, run, codec);
      assert [run][0].request == request;
      var h := History(fs, [run], codec);
      assert !Grows(kept, h[i], h[j]);
    }
  }

  lemma VisitedBeginsHistory(fs: FileSystem, run: Run, codec: PemCodec)
    ensures var h := History(fs, [run], codec);
            && |h| > Reached(fs, run, codec)
            && forall k :: 0 <= k <= Reached(fs, run, codec) ==> h[k] == PlanState(fs, Plan(fs, run, codec), k)
  {
    assert [run][0] == run;
    assert History(fs, [run], codec) == Visited(fs, run, codec) + History(EndOf(fs, run, codec), [run][1..], codec);
  }

  /** A disk that lets the request proceed; a publication already has a file in its place. */
  function OpenDisk(request: Request, text: Bytes): FileSystem {
    match request
    case Server(authority, _, _) => map[authority := File(text, 0)]
    case Client(authority, _) => map[authority := File(text, 0)]
    case Publication(output) => map[output := File([], 0)]
    case _ => map[]
  }

  /** A run that gives some kept path two different entries, one after the other. */
  lemma ChangingRun(request: Request, kept: set<Path>, codec: PemCodec, text: Bytes)
    returns (fs: FileSystem, run: Run, i: nat, j: nat)
    requires codec.parses(text) && ValidUtf8(text) && !Respects(request, kept)
    requires (request.Server? || request.Client?) ==> request.authority !in Outputs(request)
    ensures run.request == request && i <= j <= Reached(fs, run, codec)
    ensures var commits := Plan(fs, run, codec);
            !Grows(kept, PlanState(fs, commits, i), PlanState(fs, commits, j))
  {
    fs := OpenDisk(request, text);
    run := Run(request, Some(Product([1], [2])), 0, 10);
    var commits := Plan(fs, run, codec);
    assert Decide(fs, request, codec) == Proceed;
    assert commits == Commits(request, Product([1], [2]), 0);
    assert Reached(fs, run, codec) == if |commits| == 2 then 10 else 5 by {
      if |commits| == 2 {
        assert commits == [commits[0], commits[1]];
        TwoPlans(commits[0], commits[1]);
      } else {
        assert commits == [commits[0]];
        OnePlan(commits[0]);
      }
    }
    if TemporaryPath(commits[0].path) in kept {
      i, j := 1, 2;
      FirstTemporaryChanges(kept, fs, commits);
    } else if |commits| == 2 && TemporaryPath(commits[1].path) in kept {
      i, j := 6, 7;
      SecondTemporaryChanges(kept, fs, commits[0], commits[1]);
      assert commits == [commits[0], commits[1]];
    } else if |commits| == 2 {
      i, j := 5, 10;
      TargetChanges(kept, fs, commits[0], commits[1]);
      assert commits == [commits[0], commits[1]];
    } else {
      i, j := 0, 5;
      PublicationChanges(kept, fs, commits[0]);
      assert commits == [commits[0]];
    }
  }

  lemma FirstTemporaryChanges(kept: set<Path>, fs: FileSystem, commits: seq<Commit>)
    requires 1 <= |commits| <= 2 && |commits[0].contents| == 1 && TemporaryPath(commits[0].path) in kept
    ensures 2 <= PlanLength(commits) && !Grows(kept, PlanState(fs, commits, 1), PlanState(fs, commits, 2))
  {
    var c, t := commits[0], TemporaryPath(commits[0].path);
    assert PlanState(fs, commits, 1) == CommitState(fs, c, 1) && PlanState(fs, commits, 2) == CommitState(fs, c, 2);
    assert CommitState(fs, c, 1)[t].bytes == c.contents[..0] && CommitState(fs, c, 2)[t].bytes == c.contents[..1];
  }

  lemma SecondTemporaryChanges(kept: set<Path>, fs: FileSystem, c: Commit, d: Commit)
    requires |c.contents| == 1 && |d.contents| == 1 && TemporaryPath(d.path) in kept
    ensures 7 <= PlanLength([c, d]) && !Grows(kept, PlanState(fs, [c, d], 6), PlanState(fs, [c, d], 7))
  {
    TwoPlans(c, d);
    var middle, t := CommitState(fs, c, 5), TemporaryPath(d.path);
    assert PlanState(fs, [c, d], CommitLength(c) + 1) == CommitState(middle, d, 1);
    assert PlanState(fs, [c, d], CommitLength(c) + 2) == CommitState(middle, d, 2);
    hide PlanState;
    assert CommitState(middle, d, 1)[t].bytes == d.contents[..0]
        && CommitState(middle, d, 2)[t].bytes == d.contents[..1];
  }

  /** Two commits to one path leave one file after the other there. */
  lemma TargetChanges(kept: set<Path>, fs: FileSystem, c: Commit, d: Commit)
    requires |c.contents| == 1 && |d.contents| == 1 && c.path == d.path && c.path in kept && c.mode != d.mode
    ensures 10 == PlanLength([c, d]) && !Grows(kept, PlanState(fs, [c, d], 5), PlanState(fs, [c, d], 10))
  {
    TwoPlans(c, d);
    assert PlanState(fs, [c, d], CommitLength(c)) == CommitState(fs, c, 5);
    assert PlanState(fs, [c, d], CommitLength(c) + CommitLength(d)) == CommitState(CommitState(fs, c, 5), d, 5);
    hide PlanState;
    assert CommitState(fs, c, 5)[c.path].mode == c.mode;
    assert CommitState(CommitState(fs, c, 5), d, 5)[c.path].mode == d.mode;
  }

  lemma PublicationChanges(kept: set<Path>, fs: FileSystem, c: Commit)
    requires |c.contents| == 1 && c.path in kept && c.path in fs && fs[c.path].mode != c.mode
    ensures 5 == PlanLength([c]) && !Grows(kept, PlanState(fs, [c], 0), PlanState(fs, [c], 5))
  {
    OnePlan(c);
    assert PlanState(fs, [c], 0) == fs && PlanState(fs, [c], 5) == CommitState(fs, c, 5);
    assert CommitState(fs, c, 5)[c.path].mode == c.mode;
  }

  // ---- The two files of a server

  /** A run of server issuance into the given two paths. */
  predicate ServerRun(run: Run, certificate: Path, privateKey: Path) {
    run.request.Server? && run.request.certificate == certificate && run.request.privateKey == privateKey
  }

  /** Neither file, the certificate alone, or both from one key pair made in one run; in
      particular never the key alone. */
  ghost predicate PairState(runs: seq<Run>, fs: FileSystem, certificate: Path, privateKey: Path) {
    || (certificate !in fs && privateKey !in fs)
    || exists r :: 0 <= r < |runs| && MintedBy(runs[r], fs, certificate, privateKey)
  }

  ghost predicate MintedBy(run: Run, fs: FileSystem, certificate: Path, privateKey: Path) {
    && run.product.Some?
    && Entry(fs, certificate) == Some(File(run.product.value.text, PUBLIC_MODE))
    && Entry(fs, privateKey) in {None, Some(File(run.product.value.privateKey, PRIVATE_MODE))}
  }

  /** The paths on which the pair is safe; sharing one temporary is no harm. */
  predicate SafePair(certificate: Path, privateKey: Path) {
    && certificate != privateKey
    && TemporaryPath(certificate) !in {certificate, privateKey}
    && TemporaryPath(privateKey) !in {certificate, privateKey}
  }

  /** Once either file exists, every run leaves the whole disk alone. */
  lemma {:induction false} PairIsAbsorbing(fs: FileSystem, runs: seq<Run>, certificate: Path, privateKey: Path,
                                           codec: PemCodec)
    requires forall r :: 0 <= r < |runs| ==> ServerRun(runs[r], certificate, privateKey)
    requires certificate in fs || privateKey in fs
    ensures forall j :: 0 <= j < |History(fs, runs, codec)| ==> History(fs, runs, codec)[j] == fs
    decreases |runs|
  {
    if runs != [] {
      assert Plan(fs, runs[0], codec) == [];
      assert EndOf(fs, runs[0], codec) == fs;
      PairIsAbsorbing(fs, runs[1..], certificate, privateKey, codec);
    }
  }

  /** A certificate without its key is refused by every run, whatever the certificate is. */
  lemma CertificateAloneIsRefused(fs: FileSystem, run: Run, certificate: Path, privateKey: Path, codec: PemCodec)
    requires ServerRun(run, certificate, privateKey) && certificate in fs && privateKey !in fs
    ensures Respond(fs, run, codec).Failed? && EndOf(fs, run, codec) == fs
  {
  }

  lemma {:induction false} PairIsNeverTorn(fs: FileSystem, runs: seq<Run>, certificate: Path, privateKey: Path,
                                           codec: PemCodec)
    requires SafePair(certificate, privateKey)
    requires forall r :: 0 <= r < |runs| ==> ServerRun(runs[r], certificate, privateKey)
    requires certificate !in fs && privateKey !in fs
    ensures forall j :: 0 <= j < |History(fs, runs, codec)| ==>
              PairState(runs, History(fs, runs, codec)[j], certificate, privateKey)
    decreases |runs|
  {
    if runs != [] {
      var run, others := runs[0], runs[1..];
      var end := EndOf(fs, run, codec);
      var first, rest := Visited(fs, run, codec), History(end, others, codec);
      forall j | 0 <= j < |first| ensures PairState(runs, first[j], certificate, privateKey) {
        PairWithinRun(fs, run, certificate, privateKey, codec, j);
      }
      PairWithinRun(fs, run, certificate, privateKey, codec, Reached(fs, run, codec));
      if certificate !in end {
        PairIsNeverTorn(end, others, certificate, privateKey, codec);
      } else {
        PairIsAbsorbing(end, others, certificate, privateKey, codec);
      }
      forall j | 0 <= j < |rest| ensures PairState(runs, rest[j], certificate, privateKey) {
        if certificate !in end {
          LaterRunsExplain(run, others, rest[j], certificate, privateKey);
        }
      }
    }
  }

  lemma LaterRunsExplain(run: Run, others: seq<Run>, fs: FileSystem, certificate: Path, privateKey: Path)
    requires PairState(others, fs, certificate, privateKey)
    ensures PairState([run] + others, fs, certificate, privateKey)
  {
    if r :| 0 <= r < |others| && MintedBy(others[r], fs, certificate, privateKey) {
      assert ([run] + others)[r + 1] == others[r];
    }
  }

  /** One run that starts with neither file. */
  lemma PairWithinRun(fs: FileSystem, run: Run, certificate: Path, privateKey: Path, codec: PemCodec, k: nat)
    requires SafePair(certificate, privateKey) && ServerRun(run, certificate, privateKey)
    requires certificate !in fs && privateKey !in fs && k <= Reached(fs, run, codec)
    ensures var state := PlanState(fs, Plan(fs, run, codec), k);
            || (certificate !in state && privateKey !in state)
            || MintedBy(run, state, certificate, privateKey)
  {
    var kept := {certificate, privateKey};
    var commits := Plan(fs, run, codec);
    PlanStartsAbsent(kept, fs, run, codec);
    PlanOnKept(kept, fs, commits, k);
    hide PlanState, Decide;
    var state := PlanState(fs, commits, k);
    assert Entry(fs, certificate) == None && Entry(fs, privateKey) == None;
    assert certificate in state <==> Entry(state, certificate) != None;
    assert privateKey in state <==> Entry(state, privateKey) != None;
    if commits != [] {
      assert commits == Commits(run.request, run.product.value, run.initialMode);
      assert PlanLength(commits) == CommitLength(commits[0]) + CommitLength(commits[1]) by {
        TwoPlans(commits[0], commits[1]);
      }
    }
  }

  /** Whatever runs are made from neither file, the pair is never torn. */
  ghost predicate NeverTorn(certificate: Path, privateKey: Path, codec: PemCodec) {
    forall fs: FileSystem, runs: seq<Run>, j: nat ::
      && certificate !in fs && privateKey !in fs
      && (forall r :: 0 <= r < |runs| ==> ServerRun(runs[r], certificate, privateKey))
      && j < |History(fs, runs, codec)|
      ==> PairState(runs, History(fs, runs, codec)[j], certificate, privateKey)
  }

  /** The hypothesis on the two paths is exact, provided some text is a certificate at all. */
  lemma NeverTornExactly(certificate: Path, privateKey: Path, codec: PemCodec, text: Bytes)
    requires codec.parses(text) && ValidUtf8(text)
    ensures NeverTorn(certificate, privateKey, codec) <==> SafePair(certificate, privateKey)
  {
    if SafePair(certificate, privateKey) {
      forall fs: FileSystem, runs: seq<Run>, j: nat |
        && certificate !in fs && privateKey !in fs
        && (forall r :: 0 <= r < |runs| ==> ServerRun(runs[r], certificate, privateKey))
        && j < |History(fs, runs, codec)|
        ensures PairState(runs, History(fs, runs, codec)[j], certificate, privateKey)
      {
        PairIsNeverTorn(fs, runs, certificate, privateKey, codec);
      }
    } else {
      var authority := Path(certificate.directory + privateKey.directory + "/", "ca.pem");
      var fs := map[authority := File(text, 0)];
      var run := Run(Server(authority, certificate, privateKey), Some(Product([1], [2])), 0, 10);
      var k := TornRun(fs, run, codec);
      assert History(fs, [run], codec)[k] == Visited(fs, run, codec)[k];
      assert ServerRun([run][0], certificate, privateKey);
    }
  }

  /** On other paths, a run of its own leaves the pair torn at some step. */
  lemma TornRun(fs: FileSystem, run: Run, codec: PemCodec) returns (k: nat)
    requires run.request.Server? && run.product == Some(Product([1], [2])) && run.steps == 10
    requires run.request.certificate !in fs && run.request.privateKey !in fs
    requires ExistingCertificate(fs, run.request.authority, codec).Valid?
    requires !SafePair(run.request.certificate, run.request.privateKey)
    ensures k <= Reached(fs, run, codec)
    ensures !PairState([run], PlanState(fs, Plan(fs, run, codec), k), run.request.certificate, run.request.privateKey)
  {
    var certificate, privateKey := run.request.certificate, run.request.privateKey;
    var commits := Plan(fs, run, codec);
    var c, d := commits[0], commits[1];
    assert commits == [c, d] && CommitLength(c) == 5 && CommitLength(d) == 5;
    TwoPlans(c, d);
    hide PlanState;
    if TemporaryPath(certificate) in {certificate, privateKey} {
      k := 1;
      var state := PlanState(fs, commits, k);
      assert state == CommitState(fs, c, 1);
      assert Entry(state, TemporaryPath(certificate)) == Some(File(c.contents[..0], run.initialMode));
    } else if certificate == privateKey {
      k := 5;
      var state := PlanState(fs, commits, k);
      assert state == CommitState(fs, c, 5);
      assert Entry(state, certificate) == Some(File([1], PUBLIC_MODE));
    } else {
      k := 6;
      var state := PlanState(fs, commits, CommitLength(c) + 1);
      assert state == CommitState(CommitState(fs, c, 5), d, 1);
      assert TemporaryPath(privateKey) in state && state[TemporaryPath(privateKey)].bytes == d.contents[..0] == [];
    }
  }
}
