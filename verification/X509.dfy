/** Issuing and verifying certificates (src/x509.rs). DER, SHA-256 and Ed25519 are a `Library`
    of functions with the laws they promise; hexadecimal text, clocks, windows and serial
    numbers are concrete. */
module X509 {
  import opened ByteStrings
  import Assuan

  const NANOSECONDS: int := 1_000_000_000
  const YEAR: int := 31_536_000                     // 365 * 24 * 3600 seconds
  const LAST_SECOND: int := 253_402_300_799         // 9999-12-31T23:59:59Z

  datatype Attribute = Attribute(oid: string, value: Bytes)

  type Name = seq<Attribute>

  datatype PublicKeyInfo = PublicKeyInfo(algorithm: string, key: Bytes)

  datatype Extension = BasicConstraints(authority: bool) | KeyUsage(signsCertificates: bool) | KeyIdentifier(id: Bytes)

  /** Both ends are whole seconds since the epoch. */
  datatype Validity = Validity(notBefore: int, notAfter: int)

  datatype Tbs = Tbs(serial: Bytes, issuer: Name, validity: Validity, subject: Name,
                     keyInfo: PublicKeyInfo, extensions: seq<Extension>)

  datatype Certificate = Certificate(tbs: Tbs, signature: Bytes)

  datatype Library = Library(
    encodeKeyInfo: PublicKeyInfo -> Option<Bytes>,
    encodeName: Name -> Option<Bytes>,
    encodeTbs: Tbs -> Option<Bytes>,
    encodeCertificate: Certificate -> Option<Bytes>,
    decodeCertificate: Bytes -> Option<Certificate>,
    sha256: Bytes -> Bytes,
    isPoint: Bytes -> bool,
    verifyStrict: (Bytes, Bytes, Bytes) -> bool)    // key, message, signature

  /** What the library promises: digests of 32 bytes, certificates that decode to what was
      encoded, and names that encode whenever a body that holds them does. */
  ghost predicate Lawful(lib: Library) {
    && (forall m: Bytes :: |lib.sha256(m)| == 32)
    && (forall c: Certificate :: lib.encodeCertificate(c).Some? ==>
          lib.decodeCertificate(lib.encodeCertificate(c).value) == Some(c))
    && (forall t: Tbs :: lib.encodeTbs(t).Some? ==>
          lib.encodeName(t.issuer).Some? && lib.encodeName(t.subject).Some?)
  }

  datatype Error =
    | Encoding
    | Parsing
    | ClockOutOfRange
    | SigningFailed
    | IssuerMismatch
    | NotYetValid
    | Expired
    | KeyLength
    | KeyInvalid
    | SignatureLength
    | SignatureWrong

  datatype Result<+T> = Ok(value: T) | Err(error: Error)

  // ---- Hexadecimal text

  function HexDigit(value: int): (digit: Byte)
    requires 0 <= value < 16
    ensures Assuan.HexadecimalValue(digit) == Some(value)
  {
    if value < 10 then 48 + value else 97 + value - 10
  }

  function Hex(bytes: Bytes): Bytes {
    if bytes == [] then [] else [HexDigit(bytes[0] / 16), HexDigit(bytes[0] % 16)] + Hex(bytes[1..])
  }

  /** What the agent makes of the text. */
  function FromHex(text: Bytes): Option<Bytes> {
    if text == [] then Some([])
    else if |text| == 1 then None
    else
      var high, low := Assuan.HexadecimalValue(text[0]), Assuan.HexadecimalValue(text[1]);
      var rest := FromHex(text[2..]);
      if high.Some? && low.Some? && rest.Some? then Some([16 * high.value + low.value] + rest.value) else None
  }

  lemma {:induction false} HexPlaces(bytes: Bytes, k: nat)
    requires k < |bytes|
    ensures |Hex(bytes)| == 2 * |bytes|
    ensures Hex(bytes)[2 * k] == HexDigit(bytes[k] / 16) && Hex(bytes)[2 * k + 1] == HexDigit(bytes[k] % 16)
  {
    hide HexDigit;
    assert Hex(bytes)[2..] == Hex(bytes[1..]);
    if k > 0 {
      HexPlaces(bytes[1..], k - 1);
      assert Hex(bytes)[2 * k] == Hex(bytes)[2..][2 * (k - 1)];
      assert Hex(bytes)[2 * k + 1] == Hex(bytes)[2..][2 * (k - 1) + 1];
    } else if |bytes| > 1 {
      HexPlaces(bytes[1..], 0);
    } else {
      assert bytes[1..] == [];
    }
  }

  /** The text has two digits for each byte, the high one first, and in lower case. */
  lemma HexInWords(bytes: Bytes, k: nat)
    requires k < |bytes|
    ensures |Hex(bytes)| == 2 * |bytes|
    ensures Hex(bytes)[2 * k] == "0123456789abcdef"[bytes[k] / 16] as int
    ensures Hex(bytes)[2 * k + 1] == "0123456789abcdef"[bytes[k] % 16] as int
  {
    HexPlaces(bytes, k);
    hide Hex;
    DigitInWords(bytes[k] / 16);
    DigitInWords(bytes[k] % 16);
    hide HexDigit;
  }

  lemma DigitInWords(value: int)
    requires 0 <= value < 16
    ensures HexDigit(value) == "0123456789abcdef"[value] as int
  {
  }

  lemma {:induction false} HexIsReadBack(bytes: Bytes)
    ensures FromHex(Hex(bytes)) == Some(bytes)
  {
    if bytes != [] {
      var b, text := bytes[0], Hex(bytes);
      HexIsReadBack(bytes[1..]);
      assert text[0] == HexDigit(b / 16) && text[1] == HexDigit(b % 16);
      assert text[2..] == Hex(bytes[1..]);
      assert 16 * (b / 16) + b % 16 == b;
      assert [b] + bytes[1..] == bytes;
    }
  }

  // ---- Clocks, windows and serial numbers

  /** `Time::try_from`: a time is encoded in whole seconds, between 1970 and 9999. */
  function EncodedSecond(nanoseconds: int): Option<int> {
    if nanoseconds < 0 || nanoseconds / NANOSECONDS > LAST_SECOND then None
    else Some(nanoseconds / NANOSECONDS)
  }

  /** `CertificateLifetime::validity` at the time `now`, in nanoseconds since the epoch. */
  function LifetimeValidity(years: nat, now: int): Result<Validity> {
    var notBefore := EncodedSecond(now);
    var notAfter := EncodedSecond(now + years * YEAR * NANOSECONDS);
    if notBefore.None? || notAfter.None? then Err(ClockOutOfRange)
    else Ok(Validity(notBefore.value, notAfter.value))
  }

  /** The window includes the moment it is made in (to the second) and spans exactly its years. */
  lemma WindowSpansYears(years: nat, now: int)
    requires LifetimeValidity(years, now).Ok?
    ensures var v := LifetimeValidity(years, now).value;
            && v.notBefore * NANOSECONDS <= now < (v.notBefore + 1) * NANOSECONDS
            && v.notAfter == v.notBefore + years * YEAR
  {
    var span := years * YEAR;
    DivisionShifts(now, span);
    assert years * YEAR * NANOSECONDS == span * NANOSECONDS;
  }

  /** There is a window exactly if both its ends lie between 1970 and 9999. */
  lemma WindowExistsExactly(years: nat, now: int)
    ensures LifetimeValidity(years, now).Ok?
       <==> 0 <= now && now / 1_000_000_000 + years * 31_536_000 <= 253_402_300_799
    ensures LifetimeValidity(years, now).Err? ==> LifetimeValidity(years, now) == Err(ClockOutOfRange)
  {
    DivisionShifts(now, years * YEAR);
    assert years * YEAR * NANOSECONDS == (years * YEAR) * NANOSECONDS;
    assert years * YEAR >= 0;
  }

  lemma DivisionShifts(n: int, seconds: int)
    ensures (n + seconds * NANOSECONDS) / NANOSECONDS == n / NANOSECONDS + seconds
  {
  }

  /** A leaf's window lies inside its authority's exactly when it is issued between the second of
      the authority's issuance and eight years later. */
  lemma LeafWithinAuthority(authorityClock: int, leafClock: int)
    requires LifetimeValidity(10, authorityClock).Ok? && LifetimeValidity(2, leafClock).Ok?
    ensures var a, l := LifetimeValidity(10, authorityClock).value, LifetimeValidity(2, leafClock).value;
            a.notBefore <= l.notBefore && l.notAfter <= a.notAfter
            <==> authorityClock / NANOSECONDS <= leafClock / NANOSECONDS
                 <= authorityClock / NANOSECONDS + 8 * YEAR
  {
    WindowSpansYears(10, authorityClock);
    WindowSpansYears(2, leafClock);
  }

  function Power256(n: nat): (p: nat)
    ensures p > 0
  {
    if n == 0 then 1 else 256 * Power256(n - 1)
  }

  /** `to_le_bytes`. */
  function LittleEndian(n: nat, width: nat): (bytes: Bytes)
    ensures |bytes| == width
  {
    seq(width, i requires 0 <= i < width => n / Power256(i) % 256)
  }

  /** The number that a little-endian octet string denotes. */
  function LittleEndianValue(octets: Bytes): nat {
    if octets == [] then 0 else octets[0] + 256 * LittleEndianValue(octets[1..])
  }

  lemma DivisionTwice(n: nat, p: nat)
    requires p > 0
    ensures n / (256 * p) == n / 256 / p
  {
    var m := n / 256;
    var q, r := m / p, m % p;
    var rest := n - 256 * m;
    assert m == p * q + r;
    assert n == 256 * (p * q) + (256 * r + rest);
    Scale(q, p);
    assert n == (256 * p) * q + (256 * r + rest) && 0 <= 256 * r + rest < 256 * p;
    DivisionIs(n, 256 * p, q, 256 * r + rest);
  }

  lemma DivisionIs(n: nat, d: nat, q: nat, r: nat)
    requires d > 0 && r < d && n == d * q + r
    ensures n / d == q
  {
    var x, y := n / d, n % d;
    QuotientsAgree(d, x, y, q, r);
  }

  lemma QuotientsAgree(d: nat, x: nat, y: nat, q: nat, r: nat)
    requires y < d && r < d && d * x + y == d * q + r
    ensures x == q
  {
    if x > q {
      Distribute(d, x - q, q);
    } else if x < q {
      Distribute(d, q - x, x);
    }
  }

  lemma {:induction false} Distribute(d: nat, k: nat, q: nat)
    requires k > 0
    ensures d * (k + q) >= d + d * q
  {
    if k > 1 {
      Distribute(d, k - 1, q);
    }
  }

  /** The clock is written with its lowest byte first, and can be read back. */
  lemma {:induction false} LittleEndianIsReadBack(n: nat, width: nat)
    requires n < Power256(width)
    ensures LittleEndianValue(LittleEndian(n, width)) == n
  {
    if width > 0 {
      var octets, others := LittleEndian(n, width), LittleEndian(n / 256, width - 1);
      forall i | 0 <= i < width - 1 ensures octets[i + 1] == others[i] {
        DivisionTwice(n, Power256(i));
      }
      assert octets[1..] == others;
      LittleEndianIsReadBack(n / 256, width - 1);
      assert octets[0] == n / 1 % 256;
    }
  }

  /** What the serial number hashes: the key and the clock, the epoch standing in for times
      before it. */
  function SerialSeed(keyInfoDer: Bytes, clock: int): Bytes {
    keyInfoDer + LittleEndian(if clock < 0 then 0 else clock, 16)
  }

  function Serial(lib: Library, keyInfoDer: Bytes, clock: int): (serial: Bytes)
    requires Lawful(lib)
    ensures |serial| == 20
  {
    var hash := lib.sha256(SerialSeed(keyInfoDer, clock));
    var first := hash[0] % 128;
    [if first == 0 then 1 else first] + hash[1..20]
  }

  /** The number that a big-endian octet string denotes. */
  function BigEndian(octets: Bytes): nat {
    if octets == [] then 0 else 256 * BigEndian(octets[..|octets| - 1]) + octets[|octets| - 1]
  }

  lemma {:induction false} LeadingOctet(first: Byte, rest: Bytes)
    ensures first * Power256(|rest|) <= BigEndian([first] + rest) < (first + 1) * Power256(|rest|)
  {
    var octets := [first] + rest;
    if rest == [] {
      assert octets[..0] == [];
    } else {
      assert octets[..|octets| - 1] == [first] + rest[..|rest| - 1];
      LeadingOctet(first, rest[..|rest| - 1]);
      Scale(first, Power256(|rest| - 1));
      Scale(first + 1, Power256(|rest| - 1));
    }
  }

  lemma Scale(x: int, p: int)
    ensures x * (256 * p) == 256 * (x * p)
  {
  }

  lemma Power256Of19()
    ensures Power256(19) == 0x100_0000_0000_0000_0000_0000_0000_0000_0000_0000
  {
    assert Power256(4) == 0x1_0000_0000;
    assert Power256(8) == 0x1_0000_0000_0000_0000;
    assert Power256(12) == 0x1_0000_0000_0000_0000_0000_0000;
    assert Power256(16) == 0x1_0000_0000_0000_0000_0000_0000_0000_0000;
  }

  /** Every serial number is a positive INTEGER in minimal form of exactly 20 octets: between
      2^152 and 2^159. */
  lemma SerialIsPositiveAndMinimal(lib: Library, keyInfoDer: Bytes, clock: int)
    requires Lawful(lib)
    ensures var serial := Serial(lib, keyInfoDer, clock);
            && |serial| == 20 && 1 <= serial[0] < 128
            && 0x100_0000_0000_0000_0000_0000_0000_0000_0000_0000 <= BigEndian(serial)
               < 0x8000_0000_0000_0000_0000_0000_0000_0000_0000_0000
  {
    var serial := Serial(lib, keyInfoDer, clock);
    assert 1 <= serial[0] < 128;
    hide Serial, BigEndian, Power256;
    var rest := serial[1..];
    assert serial == [serial[0]] + rest;
    LeadingOctet(serial[0], rest);
    Power256Of19();
  }

  /** `serial_number`: the first 20 bytes of the digest, with the sign bit cleared in place and a
      leading zero raised to one. */
  method SerialNumber(lib: Library, keyInfoDer: Bytes, clock: int) returns (serial: Bytes)
    requires Lawful(lib)
    ensures serial == Serial(lib, keyInfoDer, clock)
  {
    var hash := lib.sha256(SerialSeed(keyInfoDer, clock));
    var octets := new Byte[20](i requires 0 <= i < 20 => hash[i]);
    octets[0] := octets[0] % 128;
    if octets[0] == 0 {
      octets[0] := 1;
    }
    serial := octets[..];
    assert serial[1..] == hash[1..20];
  }

  // ---- Issuing

  const ORGANIZATION: string := "2.5.4.10"
  const COMMON_NAME: string := "2.5.4.3"
  const ED25519: string := "1.3.101.112"

  function DistinguishedName(commonName: Bytes): Name {
    [Attribute(ORGANIZATION, Ascii("CriomOS")), Attribute(COMMON_NAME, commonName)]
  }

  /** What the gpg-agent session does with a digest in hexadecimal. */
  type Signer = Bytes -> Option<Bytes>

  /** The parts in which the three kinds of certificate differ. */
  datatype Profile = Authority | Leaf

  function Extensions(lib: Library, profile: Profile, keyInfoDer: Bytes): seq<Extension>
    requires Lawful(lib)
  {
    [BasicConstraints(profile.Authority?), KeyUsage(profile.Authority?),
     KeyIdentifier(lib.sha256(keyInfoDer)[..20])]
  }

  function Unsigned(lib: Library, profile: Profile, issuer: Name, subject: Name, keyInfo: PublicKeyInfo,
                    serialClock: int, now: int): Result<Tbs>
    requires Lawful(lib)
  {
    var keyInfoDer := lib.encodeKeyInfo(keyInfo);
    var validity := LifetimeValidity(if profile.Authority? then 10 else 2, now);
    if keyInfoDer.None? then Err(Encoding)
    else if validity.Err? then Err(validity.error)
    else Ok(Tbs(Serial(lib, keyInfoDer.value, serialClock), issuer, validity.value, subject, keyInfo,
                Extensions(lib, profile, keyInfoDer.value)))
  }

  /** `hash_hex`, the signer, `assemble`. */
  function Signed(lib: Library, tbs: Tbs, sign: Signer): Result<Bytes> {
    var der := lib.encodeTbs(tbs);
    if der.None? then Err(Encoding)
    else
      var signature := sign(Hex(lib.sha256(der.value)));
      if signature.None? then Err(SigningFailed)
      else
        var bytes := lib.encodeCertificate(Certificate(tbs, signature.value));
        if bytes.None? then Err(Encoding) else Ok(bytes.value)
  }

  function SelfSigned(lib: Library, commonName: Bytes, keyInfo: PublicKeyInfo,
                      serialClock: int, now: int, sign: Signer): Result<Bytes>
    requires Lawful(lib)
  {
    var subject := DistinguishedName(commonName);
    var tbs := Unsigned(lib, Authority, subject, subject, keyInfo, serialClock, now);
    if tbs.Err? then Err(tbs.error) else Signed(lib, tbs.value, sign)
  }

  /** Node and server certificates alike; a server's key is a fresh one. */
  function Issued(lib: Library, authority: Bytes, commonName: Bytes, keyInfo: PublicKeyInfo,
                  serialClock: int, now: int, sign: Signer): Result<Bytes>
    requires Lawful(lib)
  {
    var parsed := lib.decodeCertificate(authority);
    if parsed.None? then Err(Parsing)
    else
      var tbs := Unsigned(lib, Leaf, parsed.value.tbs.subject, DistinguishedName(commonName), keyInfo, serialClock,
                          now);
      if tbs.Err? then Err(tbs.error) else Signed(lib, tbs.value, sign)
  }

  /** When and why issuing fails: the authority's certificate must parse and the key encode, the
      window must lie between 1970 and 9999, and then the agent must sign. */
  lemma {:induction false} IssuedFailsExactly(lib: Library, authority: Bytes, commonName: Bytes,
                                              keyInfo: PublicKeyInfo, serialClock: int, clock: int, sign: Signer)
    requires Lawful(lib)
    ensures var issued := Issued(lib, authority, commonName, keyInfo, serialClock, clock, sign);
            var parsed, der := lib.decodeCertificate(authority).Some?, lib.encodeKeyInfo(keyInfo).Some?;
            var inRange := 0 <= clock && clock / 1_000_000_000 + 63_072_000 <= 253_402_300_799;
      && (issued == Err(Parsing) <==> !parsed)
      && (issued == Err(ClockOutOfRange) <==> parsed && der && !inRange)
      && (issued == Err(SigningFailed) ==> parsed && der && inRange)
      && (issued.Ok? ==> parsed && der && inRange)
      && (parsed && (!der || !inRange) ==> issued == Err(if der then ClockOutOfRange else Encoding))
  {
    WindowExistsExactly(2, clock);
    hide Serial, Extensions, LifetimeValidity, Hex, DistinguishedName;
  }

  // ---- Verifying

  function CheckWindow(validity: Validity, now: int): Result<()> {
    if now < validity.notBefore * NANOSECONDS then Err(NotYetValid)
    else if now > validity.notAfter * NANOSECONDS then Err(Expired)
    else Ok(())
  }

  function CheckSignature(lib: Library, authority: Certificate, certificate: Certificate): Result<()> {
    var key := authority.tbs.keyInfo.key;
    if |key| != 32 then Err(KeyLength)
    else if !lib.isPoint(key) then Err(KeyInvalid)
    else
      var der := lib.encodeTbs(certificate.tbs);
      if der.None? then Err(Encoding)
      else if |certificate.signature| != 64 then Err(SignatureLength)
      else if !lib.verifyStrict(key, lib.sha256(der.value), certificate.signature) then Err(SignatureWrong)
      else Ok(())
  }

  /** `verify_with_clock`: names, then window, then signature. */
  function Verify(lib: Library, authority: Bytes, certificate: Bytes, now: int): Result<()> {
    var a := lib.decodeCertificate(authority);
    if a.None? then Err(Parsing)
    else
      var c := lib.decodeCertificate(certificate);
      if c.None? then Err(Parsing)
      else
        var subject, issuer := lib.encodeName(a.value.tbs.subject), lib.encodeName(c.value.tbs.issuer);
        if subject.None? || issuer.None? then Err(Encoding)
        else if subject != issuer then Err(IssuerMismatch)
        else
          var window := CheckWindow(c.value.tbs.validity, now);
          if window.Err? then window else CheckSignature(lib, a.value, c.value)
  }

  /** A signer that holds the secret of `key`: what it answers to the hexadecimal text of a
      digest is a 64-byte signature of the digest. */
  ghost predicate SignsFor(lib: Library, sign: Signer, key: Bytes) {
    forall text: Bytes :: sign(text).Some? && FromHex(text).Some? && |FromHex(text).value| == 32 ==>
      |sign(text).value| == 64 && lib.verifyStrict(key, FromHex(text).value, sign(text).value)
  }

  lemma SignedDecodes(lib: Library, tbs: Tbs, sign: Signer, key: Bytes)
    requires Lawful(lib) && SignsFor(lib, sign, key) && Signed(lib, tbs, sign).Ok?
    ensures var decoded := lib.decodeCertificate(Signed(lib, tbs, sign).value);
            && decoded.Some? && decoded.value.tbs == tbs && |decoded.value.signature| == 64
            && lib.encodeTbs(tbs).Some?
            && lib.verifyStrict(key, lib.sha256(lib.encodeTbs(tbs).value), decoded.value.signature)
  {
    HexIsReadBack(lib.sha256(lib.encodeTbs(tbs).value));
  }

  /** A serial number is what the digest of the key and the clock says: its first 20 octets, the
      first of them without its highest bit and never zero. */
  predicate SerialOf(serial: Bytes, hash: Bytes) {
    && |serial| == 20 && |hash| == 32 && serial[1..] == hash[1..20]
    && serial[0] == if hash[0] == 0 || hash[0] == 128 then 1 else if hash[0] > 128 then hash[0] - 128 else hash[0]
  }

  lemma SerialIsOf(lib: Library, keyInfoDer: Bytes, clock: int)
    requires Lawful(lib)
    ensures SerialOf(Serial(lib, keyInfoDer, clock),
                     lib.sha256(keyInfoDer + LittleEndian(if clock < 0 then 0 else clock, 16)))
  {
  }

  /** What is in an issued certificate, read back from its bytes: the authority's own name as
      issuer, the name and the key that were asked for, two years from the clock, a serial number
      and identifier of that key, and no right to sign certificates. */
  lemma {:induction false} IssuedSaysWhatWasAsked(
    lib: Library, authoritySign: Signer, sign: Signer,
    authorityName: Bytes, authorityKeyInfo: PublicKeyInfo, authoritySerialClock: int, authorityClock: int,
    authority: Bytes,
    commonName: Bytes, keyInfo: PublicKeyInfo, serialClock: int, clock: int, certificate: Bytes)
    requires Lawful(lib)
    requires SelfSigned(lib, authorityName, authorityKeyInfo, authoritySerialClock, authorityClock, authoritySign)
        == Ok(authority)
    requires Issued(lib, authority, commonName, keyInfo, serialClock, clock, sign) == Ok(certificate)
    ensures var read := lib.decodeCertificate(certificate);
            && read.Some? && lib.encodeKeyInfo(keyInfo).Some?
            && var tbs, der := read.value.tbs, lib.encodeKeyInfo(keyInfo).value;
               && tbs.issuer == [Attribute("2.5.4.10", Ascii("CriomOS")), Attribute("2.5.4.3", authorityName)]
               && tbs.subject == [Attribute("2.5.4.10", Ascii("CriomOS")), Attribute("2.5.4.3", commonName)]
               && tbs.keyInfo == keyInfo
               && tbs.validity == Validity(clock / 1_000_000_000, clock / 1_000_000_000 + 63_072_000)
               && SerialOf(tbs.serial, lib.sha256(der + LittleEndian(if serialClock < 0 then 0 else serialClock, 16)))
               && tbs.extensions == [BasicConstraints(false), KeyUsage(false), KeyIdentifier(lib.sha256(der)[..20])]
  {
    AuthorityDecodes(lib, authorityName, authorityKeyInfo, authoritySerialClock, authorityClock, authoritySign);
    hide SelfSigned, Hex, LifetimeValidity, Serial, LittleEndian;
    WindowSpansYears(2, clock);
    SerialIsOf(lib, lib.encodeKeyInfo(keyInfo).value, serialClock);
  }

  /** What is in a self-signed authority: one name on both sides, its key, ten years and the right
      to sign certificates. */
  lemma {:induction false} AuthoritySaysWhatWasAsked(lib: Library, sign: Signer, commonName: Bytes,
                                                     keyInfo: PublicKeyInfo, serialClock: int, clock: int,
                                                     authority: Bytes)
    requires Lawful(lib) && SelfSigned(lib, commonName, keyInfo, serialClock, clock, sign) == Ok(authority)
    ensures var read := lib.decodeCertificate(authority);
            && read.Some? && lib.encodeKeyInfo(keyInfo).Some?
            && var tbs, der := read.value.tbs, lib.encodeKeyInfo(keyInfo).value;
               && tbs.issuer == tbs.subject
                  == [Attribute("2.5.4.10", Ascii("CriomOS")), Attribute("2.5.4.3", commonName)]
               && tbs.keyInfo == keyInfo
               && tbs.validity == Validity(clock / 1_000_000_000, clock / 1_000_000_000 + 315_360_000)
               && SerialOf(tbs.serial, lib.sha256(der + LittleEndian(if serialClock < 0 then 0 else serialClock, 16)))
               && tbs.extensions == [BasicConstraints(true), KeyUsage(true), KeyIdentifier(lib.sha256(der)[..20])]
  {
    hide Hex, LifetimeValidity, Serial, LittleEndian;
    WindowSpansYears(10, clock);
    SerialIsOf(lib, lib.encodeKeyInfo(keyInfo).value, serialClock);
  }

  /** Certificates for different common names have different subjects, issued by whom- and whenever. */
  lemma {:induction false} NamesTellApart(
    lib: Library, authoritySign: Signer, sign: Signer,
    authorityName: Bytes, authorityKeyInfo: PublicKeyInfo, authoritySerialClock: int, authorityClock: int,
    authority: Bytes,
    a: Bytes, aKeyInfo: PublicKeyInfo, aSerialClock: int, aClock: int, aCertificate: Bytes,
    b: Bytes, bKeyInfo: PublicKeyInfo, bSerialClock: int, bClock: int, bCertificate: Bytes)
    requires Lawful(lib)
    requires SelfSigned(lib, authorityName, authorityKeyInfo, authoritySerialClock, authorityClock, authoritySign)
        == Ok(authority)
    requires Issued(lib, authority, a, aKeyInfo, aSerialClock, aClock, sign) == Ok(aCertificate)
    requires Issued(lib, authority, b, bKeyInfo, bSerialClock, bClock, sign) == Ok(bCertificate)
    ensures var aRead, bRead := lib.decodeCertificate(aCertificate), lib.decodeCertificate(bCertificate);
      && aRead.Some? && bRead.Some?
      && (aRead.value.tbs.subject == bRead.value.tbs.subject <==> a == b)
  {
    IssuedSaysWhatWasAsked(lib, authoritySign, sign, authorityName, authorityKeyInfo, authoritySerialClock,
                           authorityClock, authority, a, aKeyInfo, aSerialClock, aClock, aCertificate);
    IssuedSaysWhatWasAsked(lib, authoritySign, sign, authorityName, authorityKeyInfo, authoritySerialClock,
                           authorityClock, authority, b, bKeyInfo, bSerialClock, bClock, bCertificate);
    hide Issued, SelfSigned, Ascii;
    assert lib.decodeCertificate(aCertificate).value.tbs.subject[1] == Attribute("2.5.4.3", a);
    assert lib.decodeCertificate(bCertificate).value.tbs.subject[1] == Attribute("2.5.4.3", b);
  }

  /** An authority is read back with the name it was asked for. */
  lemma AuthorityDecodes(lib: Library, authorityName: Bytes, keyInfo: PublicKeyInfo, serialClock: int, clock: int,
                         sign: Signer)
    requires Lawful(lib) && SelfSigned(lib, authorityName, keyInfo, serialClock, clock, sign).Ok?
    ensures var read := lib.decodeCertificate(SelfSigned(lib, authorityName, keyInfo, serialClock, clock, sign).value);
            read.Some? && read.value.tbs.subject == DistinguishedName(authorityName)
  {
    hide Hex, Serial, Extensions, LifetimeValidity, DistinguishedName;
  }

  /** A leaf's body that is made has the window of two years from its clock. */
  lemma WindowOfBody(lib: Library, issuer: Name, subject: Name, keyInfo: PublicKeyInfo, serialClock: int, clock: int)
    requires Lawful(lib) && Unsigned(lib, Leaf, issuer, subject, keyInfo, serialClock, clock).Ok?
    ensures Unsigned(lib, Leaf, issuer, subject, keyInfo, serialClock, clock).value.validity
         == Validity(clock / NANOSECONDS, clock / NANOSECONDS + 2 * YEAR)
  {
    WindowSpansYears(2, clock);
  }

  lemma BodyErrorIsNotSigning(lib: Library, profile: Profile, issuer: Name, subject: Name, keyInfo: PublicKeyInfo,
                              serialClock: int, clock: int)
    requires Lawful(lib)
    ensures Unsigned(lib, profile, issuer, subject, keyInfo, serialClock, clock) != Err(SigningFailed)
  {
  }

  /** Nothing between signing and writing looks at the signature, so any bytes that the signer
      returns become part of a certificate; it is accepted exactly within its window and if those
      bytes are a 64-byte signature that the authority's key accepts. */
  lemma {:induction false} IssuedVerifiesExactlyWhenSigned(
    lib: Library, key: Bytes, sign: Signer, authoritySign: Signer,
    authorityName: Bytes, authoritySerialClock: int, authorityClock: int, authority: Bytes,
    commonName: Bytes, keyInfo: PublicKeyInfo, serialClock: int, clock: int, tbs: Tbs, der: Bytes,
        certificate: Bytes, now: int)
    requires Lawful(lib) && |key| == 32 && lib.isPoint(key)
    requires SelfSigned(lib, authorityName, PublicKeyInfo(ED25519, key), authoritySerialClock, authorityClock,
                        authoritySign) == Ok(authority)
    requires Unsigned(lib, Leaf, DistinguishedName(authorityName), DistinguishedName(commonName), keyInfo,
                      serialClock, clock) == Ok(tbs)
    requires lib.encodeTbs(tbs) == Some(der)
    requires Issued(lib, authority, commonName, keyInfo, serialClock, clock, sign) == Ok(certificate)
    ensures sign(Hex(lib.sha256(der))).Some?
    ensures var bytes := sign(Hex(lib.sha256(der))).value;
            && lib.decodeCertificate(certificate) == Some(Certificate(tbs, bytes))
            && (Verify(lib, authority, certificate, now).Ok?
                <==> tbs.validity.notBefore * NANOSECONDS <= now <= tbs.validity.notAfter * NANOSECONDS
                     && |bytes| == 64 && lib.verifyStrict(key, lib.sha256(der), bytes))
  {
    var subject := DistinguishedName(authorityName);
    var authorityTbs := Unsigned(lib, Authority, subject, subject, PublicKeyInfo(ED25519, key), authoritySerialClock,
                                 authorityClock).value;
    hide Hex, Serial, Extensions, LifetimeValidity;
    assert lib.decodeCertificate(authority).Some? && lib.decodeCertificate(authority).value.tbs == authorityTbs;
  }

  /** Issue then verify: a certificate issued from an authority of the same key is accepted
      exactly within its encoded window, both ends included, and rejected with the right error
      outside it. */
  lemma {:induction false} IssuedVerifiesExactlyInWindow(
    lib: Library, key: Bytes, sign: Signer,
    authorityName: Bytes, authoritySerialClock: int, authorityClock: int, authority: Bytes,
    commonName: Bytes, keyInfo: PublicKeyInfo, serialClock: int, clock: int, certificate: Bytes, now: int)
    requires Lawful(lib) && SignsFor(lib, sign, key) && |key| == 32 && lib.isPoint(key)
    requires SelfSigned(lib, authorityName, PublicKeyInfo(ED25519, key), authoritySerialClock, authorityClock, sign)
        == Ok(authority)
    requires Issued(lib, authority, commonName, keyInfo, serialClock, clock, sign) == Ok(certificate)
    ensures var notBefore := clock / NANOSECONDS;
            var notAfter := notBefore + 2 * YEAR;
            Verify(lib, authority, certificate, now)
            == if now < notBefore * NANOSECONDS then Err(NotYetValid)
               else if now > notAfter * NANOSECONDS then Err(Expired)
               else Ok(())
  {
    var subject := DistinguishedName(authorityName);
    var authorityTbs := Unsigned(lib, Authority, subject, subject, PublicKeyInfo(ED25519, key), authoritySerialClock,
                                 authorityClock).value;
    SignedDecodes(lib, authorityTbs, sign, key);
    var tbs := Unsigned(lib, Leaf, subject, DistinguishedName(commonName), keyInfo, serialClock, clock).value;
    SignedDecodes(lib, tbs, sign, key);
    WindowSpansYears(2, clock);
  }

  /** The authority's own certificate, against itself, in its ten years. */
  lemma {:induction false} AuthorityVerifiesExactlyInWindow(
    lib: Library, key: Bytes, sign: Signer, commonName: Bytes, serialClock: int, clock: int, authority: Bytes, now: int)
    requires Lawful(lib) && SignsFor(lib, sign, key) && |key| == 32 && lib.isPoint(key)
    requires SelfSigned(lib, commonName, PublicKeyInfo(ED25519, key), serialClock, clock, sign) == Ok(authority)
    ensures var notBefore := clock / NANOSECONDS;
            Verify(lib, authority, authority, now).Ok?
            <==> notBefore * NANOSECONDS <= now <= (notBefore + 10 * YEAR) * NANOSECONDS
  {
    var subject := DistinguishedName(commonName);
    var tbs := Unsigned(lib, Authority, subject, subject, PublicKeyInfo(ED25519, key), serialClock, clock).value;
    SignedDecodes(lib, tbs, sign, key);
    WindowSpansYears(10, clock);
  }

  // ---- What is accepted at all

  /** Whatever the two byte strings are: what is accepted, and which check is the one that fails. */
  lemma VerifyDecidesExactly(lib: Library, authority: Bytes, certificate: Bytes, now: int)
    ensures var verdict := Verify(lib, authority, certificate, now);
            var a, c := lib.decodeCertificate(authority), lib.decodeCertificate(certificate);
      if a.None? || c.None? then verdict == Err(Parsing)
      else
        var subject, issuer := lib.encodeName(a.value.tbs.subject), lib.encodeName(c.value.tbs.issuer);
        var key, der := a.value.tbs.keyInfo.key, lib.encodeTbs(c.value.tbs);
        var early := now < c.value.tbs.validity.notBefore * 1_000_000_000;
        var late := now > c.value.tbs.validity.notAfter * 1_000_000_000;
        && (verdict.Ok? <==>
              && subject.Some? && subject == issuer && !early && !late
              && |key| == 32 && lib.isPoint(key) && der.Some? && |c.value.signature| == 64
              && lib.verifyStrict(key, lib.sha256(der.value), c.value.signature))
        && (verdict == Err(IssuerMismatch) <==> subject.Some? && issuer.Some? && subject != issuer)
        && (verdict == Err(NotYetValid) <==> subject.Some? && subject == issuer && early)
        && (verdict == Err(Expired) <==> subject.Some? && subject == issuer && !early && late)
        && (subject.Some? && subject == issuer && !early && !late ==>
              && (verdict == Err(KeyLength) <==> |key| != 32)
              && (verdict == Err(KeyInvalid) <==> |key| == 32 && !lib.isPoint(key))
              && (verdict == Err(SignatureLength) <==>
                    |key| == 32 && lib.isPoint(key) && der.Some? && |c.value.signature| != 64))
  {
  }

  /** A certificate is for its own authority: verified against another one, whatever its key and
      whenever, it is turned away exactly if the two encoded names differ. */
  lemma {:induction false} IssuerIsComparedExactly(
    lib: Library, sign: Signer, leafSign: Signer, otherSign: Signer,
    name: Bytes, authorityKeyInfo: PublicKeyInfo, authoritySerialClock: int, authorityClock: int, authority: Bytes,
    otherName: Bytes, otherKeyInfo: PublicKeyInfo, otherSerialClock: int, otherClock: int, other: Bytes,
    commonName: Bytes, keyInfo: PublicKeyInfo, serialClock: int, clock: int, certificate: Bytes, now: int)
    requires Lawful(lib)
    requires SelfSigned(lib, name, authorityKeyInfo, authoritySerialClock, authorityClock, sign) == Ok(authority)
    requires SelfSigned(lib, otherName, otherKeyInfo, otherSerialClock, otherClock, otherSign) == Ok(other)
    requires Issued(lib, authority, commonName, keyInfo, serialClock, clock, leafSign) == Ok(certificate)
    ensures Verify(lib, other, certificate, now) == Err(IssuerMismatch)
       <==> lib.encodeName([Attribute("2.5.4.10", Ascii("CriomOS")), Attribute("2.5.4.3", name)])
            != lib.encodeName([Attribute("2.5.4.10", Ascii("CriomOS")), Attribute("2.5.4.3", otherName)])
  {
    AuthorityDecodes(lib, name, authorityKeyInfo, authoritySerialClock, authorityClock, sign);
    AuthorityDecodes(lib, otherName, otherKeyInfo, otherSerialClock, otherClock, otherSign);
    AuthorityNameIsEncoded(lib, otherName, otherKeyInfo, otherSerialClock, otherClock, otherSign);
    IssuedNamesIssuer(lib, authority, commonName, keyInfo, serialClock, clock, leafSign);
    VerifyDecidesExactly(lib, other, certificate, now);
    hide SelfSigned, Issued, Verify;
  }

  lemma AuthorityNameIsEncoded(lib: Library, commonName: Bytes, keyInfo: PublicKeyInfo, serialClock: int, clock: int,
                               sign: Signer)
    requires Lawful(lib) && SelfSigned(lib, commonName, keyInfo, serialClock, clock, sign).Ok?
    ensures lib.encodeName(DistinguishedName(commonName)).Some?
  {
    hide Hex, Serial, Extensions, LifetimeValidity, DistinguishedName;
  }

  lemma IssuedNamesIssuer(lib: Library, authority: Bytes, commonName: Bytes, keyInfo: PublicKeyInfo,
                          serialClock: int, clock: int, sign: Signer)
    requires Lawful(lib) && Issued(lib, authority, commonName, keyInfo, serialClock, clock, sign).Ok?
    ensures var issued := Issued(lib, authority, commonName, keyInfo, serialClock, clock, sign);
            var read := lib.decodeCertificate(issued.value);
      && lib.decodeCertificate(authority).Some? && read.Some?
      && read.value.tbs.issuer == lib.decodeCertificate(authority).value.tbs.subject
      && lib.encodeName(read.value.tbs.issuer).Some?
  {
    hide Hex, Serial, Extensions, LifetimeValidity, DistinguishedName;
  }
}
