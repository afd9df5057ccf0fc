/** Running an issuance again: what a success leaves behind is recognised by every later run. */
module Idempotence {
  import opened ByteStrings
  import opened Paths
  import opened AtomicFile
  import opened Issuance

  predicate IsAscii(s: Bytes) {
    forall i :: 0 <= i < |s| ==> s[i] < 0x80
  }

  /** The PKCS#8 text that a server key is written as. */
  function PrivateKeyText(body: Bytes): Bytes {
    Ascii(BEGIN_LINE) + (Ascii(PRIVATE_KEY) + (Ascii("-----") + [LF] + body + [LF]
      + (Ascii(END_LINE) + (Ascii(PRIVATE_KEY) + Ascii("-----") + [LF]))))
  }

  lemma ContainsPieces(a: Bytes, b: Bytes, c: Bytes, d: Bytes, e: Bytes)
    ensures var text := a + (b + (c + (d + e))); Contains(text, a) && Contains(text, b) && Contains(text, d)
  {
    var text := a + (b + (c + (d + e)));
    assert text == [] + a + (b + (c + (d + e)));
    assert text == a + b + (c + (d + e));
    assert text == a + (b + c) + d + e;
    assert MatchAt(a, a, 0) && MatchAt(b, b, 0) && MatchAt(d, d, 0);
    ContainsExtends([], a, b + (c + (d + e)), a);
    ContainsExtends(a, b, c + (d + e), b);
    ContainsExtends(a + (b + c), d, e, d);
  }

  lemma AsciiParts(a: Bytes, b: Bytes)
    requires IsAscii(a) && IsAscii(b)
    ensures IsAscii(a + b)
  {
  }

  /** Written keys pass the test that later runs apply to them. */
  lemma PrivateKeyTextIsRecognised(body: Bytes)
    requires IsAscii(body)
    ensures LooksLikePrivateKey(PrivateKeyText(body)) && ValidUtf8(PrivateKeyText(body))
  {
    hide ValidUtf8, Contains;
    AsciiParts(Ascii("-----") + [LF] + body + [LF], Ascii(END_LINE) + (Ascii(PRIVATE_KEY) + Ascii("-----") + [LF]));
    AsciiParts(Ascii(BEGIN_LINE), Ascii(PRIVATE_KEY) + (Ascii("-----") + [LF] + body + [LF]
      + (Ascii(END_LINE) + (Ascii(PRIVATE_KEY) + Ascii("-----") + [LF]))));
    AsciiIsUtf8(PrivateKeyText(body));
    ContainsPieces(Ascii(BEGIN_LINE), Ascii(PRIVATE_KEY), Ascii("-----") + [LF] + body + [LF],
                   Ascii(END_LINE), Ascii(PRIVATE_KEY) + Ascii("-----") + [LF]);
  }

  /** What each request really produces: a certificate is an encoded one and a server's key is a
      PKCS#8 text. Nothing is asked of a key pair file or a publication. */
  ghost predicate Genuine(request: Request, product: Product, codec: PemCodec) {
    && (request.CertificateAuthority? || request.Server? || request.Client? ==>
          exists der :: codec.encode(der) == Some(product.text))
    && (request.Server? ==> exists body :: IsAscii(body) && product.privateKey == PrivateKeyText(body))
  }

  lemma CertificateIsRecognised(request: Request, product: Product, codec: PemCodec)
    requires Lawful(codec) && Genuine(request, product, codec)
    requires request.CertificateAuthority? || request.Server? || request.Client?
    ensures codec.parses(product.text) && ValidUtf8(product.text)
  {
    var der :| codec.encode(der) == Some(product.text);
    AsciiIsUtf8(product.text);
  }

  lemma KeyIsRecognised(request: Request, product: Product, codec: PemCodec)
    requires Genuine(request, product, codec) && request.Server?
    ensures LooksLikePrivateKey(product.privateKey) && ValidUtf8(product.privateKey)
  {
    var body :| IsAscii(body) && product.privateKey == PrivateKeyText(body);
    PrivateKeyTextIsRecognised(body);
  }

  /** The same kind of request into the same files; the authority, the names and the key may be
      others. */
  predicate SameOutputs(a: Request, b: Request) {
    match a
    case CertificateAuthority(output) => b == a
    case Server(_, certificate, privateKey) => b.Server? && b.certificate == certificate && b.privateKey == privateKey
    case Client(_, output) => b.Client? && b.output == output
    case Yggdrasil(keypair) => b == a
    case Publication(_) => false
  }

  /** A server's key must not take the certificate's place, nor pass through it. */
  predicate SurvivesItself(request: Request) {
    request.Server? ==>
      request.certificate != request.privateKey && TemporaryPath(request.privateKey) != request.certificate
  }

  lemma CommittedEntry(fs: FileSystem, c: Commit)
    ensures Entry(CommitState(fs, c, CommitLength(c)), c.path) == Some(File(c.contents, c.mode))
    ensures forall p :: p != c.path && p != TemporaryPath(c.path) ==>
              Entry(CommitState(fs, c, CommitLength(c)), p) == Entry(fs, p)
  {
  }

  /** A finished plan leaves each of its files whole, unless the second commit passes through
      the file of the first. */
  lemma FinishedPlan(fs: FileSystem, commits: seq<Commit>)
    requires 1 <= |commits| <= 2
    requires |commits| == 2 ==>
               commits[0].path != commits[1].path && TemporaryPath(commits[1].path) != commits[0].path
    ensures var end := PlanState(fs, commits, PlanLength(commits));
            forall c :: c in commits ==> c.path in end && end[c.path] == File(c.contents, c.mode)
  {
    var c := commits[0];
    CommittedEntry(fs, c);
    if |commits| == 1 {
      assert commits == [c];
      OnePlan(c);
    } else {
      var d := commits[1];
      assert commits == [c, d];
      TwoPlans(c, d);
      CommittedEntry(CommitState(fs, c, CommitLength(c)), d);
      hide CommitState, PlanState;
      var end := PlanState(fs, commits, CommitLength(c) + CommitLength(d));
      assert Entry(end, c.path) == Some(File(c.contents, c.mode));
      assert Entry(end, d.path) == Some(File(d.contents, d.mode));
    }
  }

  /** After a success, a run into the same files skips. */
  lemma SuccessIsRecognised(fs: FileSystem, run: Run, later: Request, codec: PemCodec)
    requires Lawful(codec) && (run.product.Some? ==> Genuine(run.request, run.product.value, codec))
    requires Respond(fs, run, codec) == Written
    requires SameOutputs(run.request, later) && SurvivesItself(run.request)
    ensures Decide(EndOf(fs, run, codec), later, codec) == Skip
  {
    if Decide(fs, run.request, codec).Proceed? {
      if !run.request.Yggdrasil? {
        CertificateIsRecognised(run.request, run.product.value, codec);
      }
      if run.request.Server? {
        KeyIsRecognised(run.request, run.product.value, codec);
      }
      hide PlanState, LooksLikePrivateKey, ValidUtf8, Lawful, Genuine;
      var commits := Plan(fs, run, codec);
      FinishedPlan(fs, commits);
      var end := EndOf(fs, run, codec);
      assert end == PlanState(fs, commits, PlanLength(commits));
      assert commits[0] in commits && commits[|commits| - 1] in commits;
    }
  }

  /** A run that does not proceed changes nothing. */
  lemma {:induction false} IdlingForEver(fs: FileSystem, runs: seq<Run>, codec: PemCodec)
    requires forall r :: 0 <= r < |runs| ==> !Decide(fs, runs[r].request, codec).Proceed?
    ensures forall j :: 0 <= j < |History(fs, runs, codec)| ==> History(fs, runs, codec)[j] == fs
    decreases |runs|
  {
    if runs != [] {
      assert Plan(fs, runs[0], codec) == [] && EndOf(fs, runs[0], codec) == fs;
      IdlingForEver(fs, runs[1..], codec);
    }
  }

  /** Idempotence: after a successful issuance, any number of further runs into the same files
      answers as the first did, asks no agent to sign and leaves the whole disk as it is. */
  lemma IssuanceIsIdempotent(fs: FileSystem, run: Run, later: seq<Run>, codec: PemCodec)
    requires Lawful(codec) && (run.product.Some? ==> Genuine(run.request, run.product.value, codec))
    requires Respond(fs, run, codec) == Written && SurvivesItself(run.request)
    requires forall r :: 0 <= r < |later| ==> SameOutputs(run.request, later[r].request)
    ensures var end := EndOf(fs, run, codec);
            && (forall r :: 0 <= r < |later| ==> Respond(end, later[r], codec) == Written
                                                 && !Decide(end, later[r].request, codec).Proceed?)
            && (forall j :: 0 <= j < |History(end, later, codec)| ==> History(end, later, codec)[j] == end)
  {
    var end := EndOf(fs, run, codec);
    forall r | 0 <= r < |later| ensures Decide(end, later[r].request, codec) == Skip {
      SuccessIsRecognised(fs, run, later[r].request, codec);
    }
    IdlingForEver(end, later, codec);
  }

  /** For a server the condition on the paths is exact: where it fails, a successful run leaves
      files that the next run refuses. (A private key text is no certificate.) */
  lemma ServerIsIdempotentExactly(fs: FileSystem, run: Run, codec: PemCodec)
    requires Lawful(codec) && run.request.Server?
    requires run.product.Some? && Genuine(run.request, run.product.value, codec)
        && !codec.parses(run.product.value.privateKey)
    requires Decide(fs, run.request, codec) == Proceed && Respond(fs, run, codec) == Written
    ensures Decide(EndOf(fs, run, codec), run.request, codec) == Skip <==> SurvivesItself(run.request)
  {
    if SurvivesItself(run.request) {
      SuccessIsRecognised(fs, run, run.request, codec);
    } else {
      KeyIsRecognised(run.request, run.product.value, codec);
      hide LooksLikePrivateKey, ValidUtf8, Lawful, Genuine, PlanState, CommitState, PlanLength, TemporaryPath;
      var commits := Plan(fs, run, codec);
      assert commits == [commits[0], commits[1]];
      assert EndOf(fs, run, codec) == PlanState(fs, commits, PlanLength(commits));
      SecondReplacesFirst(fs, commits[0], commits[1]);
      ReplacedPairIsRefused(EndOf(fs, run, codec), run.request, codec);
    }
  }

  lemma ReplacedPairIsRefused(fs: FileSystem, request: Request, codec: PemCodec)
    requires request.Server? && request.privateKey in fs && !codec.parses(fs[request.privateKey].bytes)
    requires request.certificate == request.privateKey || request.certificate !in fs
    ensures Decide(fs, request, codec) != Skip
  {
  }

  /** A second commit through the first one's file leaves no trace of the first. */
  lemma SecondReplacesFirst(fs: FileSystem, c: Commit, d: Commit)
    requires c.path == d.path || TemporaryPath(d.path) == c.path
    ensures var end := PlanState(fs, [c, d], PlanLength([c, d]));
            && d.path in end && end[d.path] == File(d.contents, d.mode)
            && (c.path == d.path || c.path !in end)
  {
    TwoPlans(c, d);
    assert PlanState(fs, [c, d], PlanLength([c, d]))
        == CommitState(CommitState(fs, c, CommitLength(c)), d, CommitLength(d));
  }

  /** The request writes a certificate to this path. */
  predicate CertifiesTo(request: Request, p: Path) {
    match request
    case CertificateAuthority(output) => output == p
    case Server(_, certificate, _) => certificate == p
    case Client(_, output) => output == p
    case _ => false
  }

  /** A damaged certificate stops issuance for good: as long as the file at the output is none, every
      run into it fails, asks no agent and leaves the whole disk as it is. */
  lemma {:induction false} DamagedCertificateStopsIssuance(fs: FileSystem, p: Path, runs: seq<Run>, codec: PemCodec)
    requires p in fs && !HoldsCertificate(fs, p, codec)
    requires forall r :: 0 <= r < |runs| ==> CertifiesTo(runs[r].request, p)
    ensures forall r :: 0 <= r < |runs| ==>
              Respond(fs, runs[r], codec).Failed? && !Decide(fs, runs[r].request, codec).Proceed?
    ensures forall j :: 0 <= j < |History(fs, runs, codec)| ==> History(fs, runs, codec)[j] == fs
  {
    forall r | 0 <= r < |runs| ensures Decide(fs, runs[r].request, codec).Refuse? {
      DamagedIsRefused(fs, p, runs[r].request, codec);
    }
    hide Decide, HoldsCertificate;
    IdlingForEver(fs, runs, codec);
  }

  lemma DamagedIsRefused(fs: FileSystem, p: Path, request: Request, codec: PemCodec)
    requires p in fs && !HoldsCertificate(fs, p, codec) && CertifiesTo(request, p)
    ensures Decide(fs, request, codec).Refuse?
  {
    hide ValidUtf8, LooksLikePrivateKey;
  }

  /** A run answers `Written` exactly if it found its files good, or did every step of its work: four
      steps for each file and one for each byte. */
  lemma RespondsExactly(fs: FileSystem, run: Run, codec: PemCodec)
    ensures Respond(fs, run, codec) == Written
       <==> match Decide(fs, run.request, codec)
            case Skip => true
            case Refuse(_) => false
            case Proceed =>
              && run.product.Some?
              && run.steps >= if run.request.Server?
                              then |run.product.value.text| + 4 + |run.product.value.privateKey| + 4
                              else |run.product.value.text| + 4
  {
    hide Decide;
    if run.product.Some? {
      var commits := Commits(run.request, run.product.value, run.initialMode);
      if |commits| == 1 {
        assert commits == [commits[0]];
        OnePlan(commits[0]);
      } else {
        assert commits == [commits[0], commits[1]];
        TwoPlans(commits[0], commits[1]);
      }
    }
  }

  /** What a run that did its work leaves: each product whole at its path, certificates and the
      publication readable by everyone (0644), keys by their owner only (0600). */
  lemma {:induction false} SuccessLeavesItsFiles(fs: FileSystem, run: Run, codec: PemCodec)
    requires Respond(fs, run, codec) == Written && Decide(fs, run.request, codec) == Proceed
    requires SurvivesItself(run.request)
    ensures run.product.Some?
    ensures var end, text := EndOf(fs, run, codec), run.product.value.text;
      match run.request
      case CertificateAuthority(output) => Entry(end, output) == Some(File(text, 6 * 64 + 4 * 8 + 4))
      case Client(_, output) => Entry(end, output) == Some(File(text, 6 * 64 + 4 * 8 + 4))
      case Publication(output) => Entry(end, output) == Some(File(text, 6 * 64 + 4 * 8 + 4))
      case Yggdrasil(keypair) => Entry(end, keypair) == Some(File(text, 6 * 64))
      case Server(_, certificate, privateKey) =>
        && Entry(end, certificate) == Some(File(text, 6 * 64 + 4 * 8 + 4))
        && Entry(end, privateKey) == Some(File(run.product.value.privateKey, 6 * 64))
  {
    hide PlanState, Decide;
    var commits := Plan(fs, run, codec);
    FinishedPlan(fs, commits);
    assert EndOf(fs, run, codec) == PlanState(fs, commits, PlanLength(commits));
    assert commits[0] in commits && commits[|commits| - 1] in commits;
  }
}
