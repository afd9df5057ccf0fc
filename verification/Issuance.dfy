/** The requests that leave files behind (src/request.rs, src/yggdrasil.rs): what each one reads
    first, what it refuses, and which commits it makes. */
module Issuance {
  import opened ByteStrings
  import opened Paths
  import opened AtomicFile

  const PUBLIC_MODE: nat := 420    // 0o644
  const PRIVATE_MODE: nat := 384   // 0o600

  datatype Request =
    | CertificateAuthority(output: Path)
    | Server(authority: Path, certificate: Path, privateKey: Path)
    | Client(authority: Path, output: Path)
    | Yggdrasil(keypair: Path)
    | Publication(output: Path)

  /** What the work in front of the first write produced: the text of a certificate, key pair
      file or publication, and for a server its private key. */
  datatype Product = Product(text: Bytes, privateKey: Bytes)

  /** PEM certificates: encoding (which may fail) and the test that `from_pem` performs. */
  datatype PemCodec = PemCodec(encode: Bytes -> Option<Bytes>, parses: Bytes -> bool)

  /** What RFC 7468 promises: an encoded certificate is ASCII text and parses. */
  ghost predicate Lawful(codec: PemCodec) {
    forall der: Bytes :: codec.encode(der).Some? ==>
      var text := codec.encode(der).value;
      codec.parses(text) && forall i :: 0 <= i < |text| ==> text[i] < 0x80
  }

  datatype Existing = Absent | Valid | Unparseable | Unreadable

  datatype Reason =
    | CannotRead
    | NotACertificate
    | NotAPrivateKey
    | HalfExisting
    | NoAuthority      // the authority's certificate is missing or does not parse
    | NotProduced      // an agent, a tool or an input failed before the first write
    | NotWritten       // a step of a commit failed

  datatype Decision = Skip | Refuse(reason: Reason) | Proceed

  datatype Response = Written | Failed(reason: Reason)

  function ExistingCertificate(fs: FileSystem, p: Path, codec: PemCodec): Existing {
    if p !in fs then Absent
    else if !ValidUtf8(fs[p].bytes) then Unreadable
    else if codec.parses(fs[p].bytes) then Valid
    else Unparseable
  }

  const BEGIN_LINE: string := "-----BEGIN "
  const END_LINE: string := "-----END "
  const PRIVATE_KEY: string := "PRIVATE KEY"

  predicate LooksLikePrivateKey(text: Bytes) {
    Contains(text, Ascii(BEGIN_LINE)) && Contains(text, Ascii(END_LINE)) && Contains(text, Ascii(PRIVATE_KEY))
  }

  function ExistingPrivateKey(fs: FileSystem, p: Path): Existing {
    if p !in fs then Absent
    else if !ValidUtf8(fs[p].bytes) then Unreadable
    else if LooksLikePrivateKey(fs[p].bytes) then Valid
    else Unparseable
  }

  function DecideOne(existing: Existing): Decision {
    match existing
    case Absent => Proceed
    case Valid => Skip
    case Unparseable => Refuse(NotACertificate)
    case Unreadable => Refuse(CannotRead)
  }

  function DecidePair(certificate: Existing, privateKey: Existing): Decision {
    if certificate.Unreadable? || privateKey.Unreadable? then Refuse(CannotRead)
    else if certificate.Valid? && privateKey.Valid? then Skip
    else if certificate.Absent? && privateKey.Absent? then Proceed
    else if certificate.Unparseable? then Refuse(NotACertificate)
    else if privateKey.Unparseable? then Refuse(NotAPrivateKey)
    else Refuse(HalfExisting)
  }

  /** What a request does with the files it finds. */
  function Decide(fs: FileSystem, request: Request, codec: PemCodec): Decision {
    match request
    case CertificateAuthority(output) => DecideOne(ExistingCertificate(fs, output, codec))
    case Server(authority, certificate, privateKey) =>
      var decision := DecidePair(ExistingCertificate(fs, certificate, codec), ExistingPrivateKey(fs, privateKey));
      if decision.Proceed? && !ExistingCertificate(fs, authority, codec).Valid? then Refuse(NoAuthority) else decision
    case Client(authority, output) =>
      var decision := DecideOne(ExistingCertificate(fs, output, codec));
      if decision.Proceed? && !ExistingCertificate(fs, authority, codec).Valid? then Refuse(NoAuthority) else decision
    case Yggdrasil(keypair) => if keypair in fs then Skip else Proceed
    case Publication(_) => Proceed
  }

  /** A certificate is at the path: a file, UTF-8, that parses. */
  predicate HoldsCertificate(fs: FileSystem, p: Path, codec: PemCodec) {
    p in fs && ValidUtf8(fs[p].bytes) && codec.parses(fs[p].bytes)
  }

  /** A private key is at the path, as far as its three marks tell. */
  predicate HoldsPrivateKey(fs: FileSystem, p: Path) {
    && p in fs && ValidUtf8(fs[p].bytes)
    && Contains(fs[p].bytes, Ascii("-----BEGIN ")) && Contains(fs[p].bytes, Ascii("-----END "))
    && Contains(fs[p].bytes, Ascii("PRIVATE KEY"))
  }

  lemma PrivateKeyMarks(fs: FileSystem, p: Path)
    ensures ExistingPrivateKey(fs, p) == Valid <==> HoldsPrivateKey(fs, p)
    ensures ExistingPrivateKey(fs, p) == Absent <==> p !in fs
  {
    hide Contains, ValidUtf8;
  }

  /** A request for one certificate is settled by a good file and proceeds on none (a node's only on
      a good authority); whatever else is at its output it refuses, and says why. */
  lemma SingleDecidesExactly(fs: FileSystem, authority: Path, output: Path, codec: PemCodec)
    ensures var decision := Decide(fs, CertificateAuthority(output), codec);
      && (decision == Skip <==> HoldsCertificate(fs, output, codec))
      && (decision == Proceed <==> output !in fs)
      && (decision == Refuse(CannotRead) <==> output in fs && !ValidUtf8(fs[output].bytes))
      && (decision == Refuse(NotACertificate) <==>
            output in fs && ValidUtf8(fs[output].bytes) && !codec.parses(fs[output].bytes))
    ensures var decision := Decide(fs, Client(authority, output), codec);
      && (decision == Skip <==> HoldsCertificate(fs, output, codec))
      && (decision == Proceed <==> output !in fs && HoldsCertificate(fs, authority, codec))
      && (decision == Refuse(NoAuthority) <==> output !in fs && !HoldsCertificate(fs, authority, codec))
      && (decision == Refuse(CannotRead) <==> output in fs && !ValidUtf8(fs[output].bytes))
      && (decision == Refuse(NotACertificate) <==>
            output in fs && ValidUtf8(fs[output].bytes) && !codec.parses(fs[output].bytes))
    ensures Decide(fs, Yggdrasil(output), codec) == if output in fs then Skip else Proceed
    ensures Decide(fs, Publication(output), codec) == Proceed
  {
    hide ValidUtf8;
  }

  /** A server's request is settled by two good files, proceeds on none and a good authority, and
      refuses a pair of which one file is good and the other missing. */
  lemma ServerDecidesExactly(fs: FileSystem, authority: Path, certificate: Path, privateKey: Path, codec: PemCodec)
    ensures var decision := Decide(fs, Server(authority, certificate, privateKey), codec);
            var goodCertificate, goodKey := HoldsCertificate(fs, certificate, codec), HoldsPrivateKey(fs, privateKey);
            && (decision == Skip <==> goodCertificate && goodKey)
            && (decision == Proceed <==>
                  certificate !in fs && privateKey !in fs && HoldsCertificate(fs, authority, codec))
            && (decision == Refuse(NoAuthority) <==>
                  certificate !in fs && privateKey !in fs && !HoldsCertificate(fs, authority, codec))
            && (decision == Refuse(HalfExisting) <==>
                  (goodCertificate && privateKey !in fs) || (certificate !in fs && goodKey))
  {
    PrivateKeyMarks(fs, privateKey);
    hide HoldsPrivateKey, ExistingPrivateKey, ValidUtf8;
  }

  /** The commits of a request that proceeds. */
  function Commits(request: Request, product: Product, initialMode: nat): (commits: seq<Commit>)
    ensures 1 <= |commits| <= 2
  {
    match request
    case CertificateAuthority(output) => [Commit(output, product.text, PUBLIC_MODE, initialMode)]
    case Server(_, certificate, privateKey) =>
      [Commit(certificate, product.text, PUBLIC_MODE, initialMode),
       Commit(privateKey, product.privateKey, PRIVATE_MODE, initialMode)]
    case Client(_, output) => [Commit(output, product.text, PUBLIC_MODE, initialMode)]
    case Yggdrasil(keypair) => [Commit(keypair, product.text, PRIVATE_MODE, initialMode)]
    case Publication(output) => [Commit(output, product.text, PUBLIC_MODE, initialMode)]
  }

  /** One run of the program: its request, what it managed to produce, the mode it gives to new
      files, and how many steps it was allowed before an error or a crash stopped it. */
  datatype Run = Run(request: Request, product: Option<Product>, initialMode: nat, steps: nat)

  function Plan(fs: FileSystem, run: Run, codec: PemCodec): (commits: seq<Commit>)
    ensures |commits| <= 2
  {
    if Decide(fs, run.request, codec).Proceed? && run.product.Some?
    then Commits(run.request, run.product.value, run.initialMode)
    else []
  }

  function PlanLength(commits: seq<Commit>): nat {
    if commits == [] then 0 else CommitLength(commits[0]) + PlanLength(commits[1..])
  }

  /** The file system after the first `k` steps of a plan. */
  function PlanState(fs: FileSystem, commits: seq<Commit>, k: nat): FileSystem
    requires k <= PlanLength(commits)
    decreases |commits|
  {
    if commits == [] then fs
    else if k <= CommitLength(commits[0]) then CommitState(fs, commits[0], k)
    else
      PlanState(CommitState(fs, commits[0], CommitLength(commits[0])), commits[1..], k - CommitLength(commits[0]))
  }

  /** How far a run gets. */
  function Reached(fs: FileSystem, run: Run, codec: PemCodec): (k: nat)
    ensures k <= PlanLength(Plan(fs, run, codec))
  {
    var length := PlanLength(Plan(fs, run, codec));
    if run.steps < length then run.steps else length
  }

  function EndOf(fs: FileSystem, run: Run, codec: PemCodec): FileSystem {
    PlanState(fs, Plan(fs, run, codec), Reached(fs, run, codec))
  }

  function Respond(fs: FileSystem, run: Run, codec: PemCodec): Response {
    match Decide(fs, run.request, codec)
    case Skip => Written
    case Refuse(reason) => Failed(reason)
    case Proceed =>
      if run.product.None? then Failed(NotProduced)
      else if run.steps < PlanLength(Plan(fs, run, codec)) then Failed(NotWritten)
      else Written
  }

  /** Every file system a run passes through, first to last. */
  function Visited(fs: FileSystem, run: Run, codec: PemCodec): (states: seq<FileSystem>)
    ensures |states| == Reached(fs, run, codec) + 1
  {
    seq(Reached(fs, run, codec) + 1, k requires 0 <= k <= Reached(fs, run, codec) =>
      PlanState(fs, Plan(fs, run, codec), k))
  }

  /** Every file system that a sequence of runs passes through. */
  function History(fs: FileSystem, runs: seq<Run>, codec: PemCodec): (states: seq<FileSystem>)
    ensures states != []
    decreases |runs|
  {
    if runs == [] then [fs]
    else Visited(fs, runs[0], codec) + History(EndOf(fs, runs[0], codec), runs[1..], codec)
  }

  // ---- The requests as programs

  /** The certificate authority's request; `asked` tells whether the agent was asked to sign. */
  method IssueCertificateAuthority(disk: Disk, output: Path, product: Option<Product>, initialMode: nat,
                                   codec: PemCodec)
    returns (response: Response, asked: bool)
    modifies disk`files, disk`budget, disk`log
    ensures var run := Run(CertificateAuthority(output), product, initialMode, old(disk.budget));
            && disk.files == EndOf(old(disk.files), run, codec)
            && response == Respond(old(disk.files), run, codec)
            && (asked <==> Decide(old(disk.files), run.request, codec).Proceed?)
  {
    match ExistingCertificate(disk.files, output, codec) {
      case Absent =>
      case Valid => return Written, false;
      case Unparseable => return Failed(NotACertificate), false;
      case Unreadable => return Failed(CannotRead), false;
    }
    asked := true;
    if product.None? {
      return Failed(NotProduced), true;
    }
    OnePlan(Commit(output, product.value.text, PUBLIC_MODE, initialMode));
    var ok := disk.WriteBytes(output, product.value.text, PUBLIC_MODE, initialMode);
    response := if ok then Written else Failed(NotWritten);
  }

  method IssueServer(disk: Disk, authority: Path, certificate: Path, privateKey: Path,
                     product: Option<Product>, initialMode: nat, codec: PemCodec)
    returns (response: Response, asked: bool)
    modifies disk`files, disk`budget, disk`log
    ensures var run := Run(Server(authority, certificate, privateKey), product, initialMode, old(disk.budget));
            && disk.files == EndOf(old(disk.files), run, codec)
            && response == Respond(old(disk.files), run, codec)
            && (asked <==> Decide(old(disk.files), run.request, codec).Proceed?)
  {
    asked := false;
    var existingCertificate := ExistingCertificate(disk.files, certificate, codec);
    if existingCertificate.Unreadable? {
      return Failed(CannotRead), false;
    }
    var existingKey := ExistingPrivateKey(disk.files, privateKey);
    if existingKey.Unreadable? {
      return Failed(CannotRead), false;
    }
    match (existingCertificate, existingKey) {
      case (Valid, Valid) => return Written, false;
      case (Absent, Absent) =>
      case (Unparseable, _) => return Failed(NotACertificate), false;
      case (_, Unparseable) => return Failed(NotAPrivateKey), false;
      case (_, _) => return Failed(HalfExisting), false;
    }
    if !ExistingCertificate(disk.files, authority, codec).Valid? {
      return Failed(NoAuthority), false;
    }
    asked := true;
    if product.None? {
      return Failed(NotProduced), true;
    }
    var ok := WriteServerCertificate(disk, certificate, privateKey, product.value, initialMode);
    response := if ok then Written else Failed(NotWritten);
  }

  /** `write_server_certificate`: the certificate first, the key only behind it. */
  method WriteServerCertificate(disk: Disk, certificate: Path, privateKey: Path, product: Product, initialMode: nat)
    returns (ok: bool)
    modifies disk`files, disk`budget, disk`log
    ensures var commits := Commits(Server(certificate, certificate, privateKey), product, initialMode);
            var k := if old(disk.budget) < PlanLength(commits) then old(disk.budget) else PlanLength(commits);
            disk.files == PlanState(old(disk.files), commits, k) && (ok <==> k == PlanLength(commits))
  {
    ghost var first := Commit(certificate, product.text, PUBLIC_MODE, initialMode);
    ghost var second := Commit(privateKey, product.privateKey, PRIVATE_MODE, initialMode);
    TwoPlans(first, second);
    ok := disk.WriteBytes(certificate, product.text, PUBLIC_MODE, initialMode);
    if ok {
      ok := disk.WriteBytes(privateKey, product.privateKey, PRIVATE_MODE, initialMode);
    }
  }

  method IssueClient(disk: Disk, authority: Path, output: Path, product: Option<Product>, initialMode: nat,
                     codec: PemCodec)
    returns (response: Response, asked: bool)
    modifies disk`files, disk`budget, disk`log
    ensures var run := Run(Client(authority, output), product, initialMode, old(disk.budget));
            && disk.files == EndOf(old(disk.files), run, codec)
            && response == Respond(old(disk.files), run, codec)
            && (asked <==> Decide(old(disk.files), run.request, codec).Proceed?)
  {
    match ExistingCertificate(disk.files, output, codec) {
      case Absent =>
      case Valid => return Written, false;
      case Unparseable => return Failed(NotACertificate), false;
      case Unreadable => return Failed(CannotRead), false;
    }
    if !ExistingCertificate(disk.files, authority, codec).Valid? {
      return Failed(NoAuthority), false;
    }
    asked := true;
    if product.None? {
      return Failed(NotProduced), true;
    }
    OnePlan(Commit(output, product.value.text, PUBLIC_MODE, initialMode));
    var ok := disk.WriteBytes(output, product.value.text, PUBLIC_MODE, initialMode);
    response := if ok then Written else Failed(NotWritten);
  }

  /** `YggdrasilKeypairFile::ensure`: create the key pair file, and the directories in front of it,
      unless there is one. */
  method EnsureYggdrasil(disk: Disk, keypair: Path, reach: nat, product: Option<Product>, initialMode: nat,
                         codec: PemCodec)
    returns (response: Response)
    modifies disk
    ensures var made := reach >= |keypair.directory|;
            var run := Run(Yggdrasil(keypair), if made then product else None, initialMode, old(disk.budget));
            && disk.files == EndOf(old(disk.files), run, codec)
            && response == Respond(old(disk.files), run, codec)
            && disk.directories == old(disk.directories)
               + if keypair in old(disk.files) then {}
                 else Ancestors(if made then keypair.directory else keypair.directory[..reach])
  {
    if keypair in disk.files {
      return Written;
    }
    var made := disk.MakeDirectories(keypair.directory, reach);
    if !made || product.None? {
      return Failed(NotProduced);
    }
    OnePlan(Commit(keypair, product.value.text, PRIVATE_MODE, initialMode));
    var ok := disk.WriteBytes(keypair, product.value.text, PRIVATE_MODE, initialMode);
    response := if ok then Written else Failed(NotWritten);
  }

  /** A key pair that was ensured is on the disk, found or made. */
  lemma EnsuredKeypairExists(fs: FileSystem, run: Run, codec: PemCodec)
    requires run.request.Yggdrasil? && Respond(fs, run, codec) == Written
    ensures run.request.keypair in EndOf(fs, run, codec)
  {
    if run.request.keypair !in fs {
      OnePlan(Plan(fs, run, codec)[0]);
      assert Plan(fs, run, codec) == [Plan(fs, run, codec)[0]];
    }
  }

  /** The publication is written anew on every run. */
  method WritePublication(disk: Disk, output: Path, product: Option<Product>, initialMode: nat, codec: PemCodec)
    returns (response: Response)
    modifies disk`files, disk`budget, disk`log
    ensures var run := Run(Publication(output), product, initialMode, old(disk.budget));
            && disk.files == EndOf(old(disk.files), run, codec)
            && response == Respond(old(disk.files), run, codec)
  {
    if product.None? {
      return Failed(NotProduced);
    }
    OnePlan(Commit(output, product.value.text, PUBLIC_MODE, initialMode));
    var ok := disk.WriteBytes(output, product.value.text, PUBLIC_MODE, initialMode);
    response := if ok then Written else Failed(NotWritten);
  }

  lemma OnePlan(c: Commit)
    ensures PlanLength([c]) == CommitLength(c)
    ensures forall fs: FileSystem, k: nat :: k <= CommitLength(c) ==> PlanState(fs, [c], k) == CommitState(fs, c, k)
  {
  }

  lemma TwoPlans(c: Commit, d: Commit)
    ensures PlanLength([c, d]) == CommitLength(c) + CommitLength(d)
    ensures forall fs: FileSystem, k: nat :: k <= CommitLength(c) ==> PlanState(fs, [c, d], k) == CommitState(fs, c, k)
    ensures forall fs: FileSystem, k: nat :: k <= CommitLength(d) ==>
              PlanState(fs, [c, d], CommitLength(c) + k)
              == CommitState(CommitState(fs, c, CommitLength(c)), d, k)
  {
    assert [c, d][1..] == [d];
    OnePlan(d);
    forall fs: FileSystem, k: nat | k <= CommitLength(d)
      ensures PlanState(fs, [c, d], CommitLength(c) + k) == CommitState(CommitState(fs, c, CommitLength(c)), d, k)
    {
      if k == 0 {
        assert PlanState(fs, [c, d], CommitLength(c)) == CommitState(fs, c, CommitLength(c));
      }
    }
  }
}
