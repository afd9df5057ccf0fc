/** The two halves together: certificates signed by an agent over its wire protocol are the
    ones that the verifier accepts. */
module Chain {
  import opened ByteStrings
  import opened Extraction
  import opened SExpression
  import opened Wire
  import opened Signature
  import opened AgentSide
  import X509

  /** The signer that issuing is given: a fresh connection for each digest, then `sign`. */
  function WireSigner(connect: Bytes -> Connection, keygrip: Bytes, turns: nat): X509.Signer {
    (text: Bytes) =>
      match Signing(connect(text), keygrip, text, turns).0
      case Some(Ok(signature)) => Some(signature)
      case _ => None
  }

  /** A fresh connection to an agent that holds the secret of `key` under `keygrip`: it plays a
      legal transcript, and the signature in it is one of the digest that the agent has heard. */
  ghost predicate Honest(lib: X509.Library, key: Bytes, keygrip: Bytes, c: Connection, turns: nat, text: Bytes,
                         t: Transcript)
  {
    && c.sent == [] && Plays(c, t, turns)
    && forall asked :: asked in Told(Signing(c, keygrip, text, turns).1.sent).signatures
                       && asked.0 == keygrip && X509.FromHex(asked.1).Some? ==>
         lib.verifyStrict(key, X509.FromHex(asked.1).value, t.r + t.s)
  }

  /** The connection is to such an agent, and the R of its signature holds no opening of S. */
  ghost predicate BringsSignature(lib: X509.Library, key: Bytes, keygrip: Bytes, c: Connection, turns: nat,
                                  text: Bytes)
  {
    exists t :: Brings(c, t, turns) && Honest(lib, key, keygrip, c, turns, text, t)
  }

  /** The agent is so for the hexadecimal text of any digest. */
  ghost predicate AgentHolds(lib: X509.Library, key: Bytes, keygrip: Bytes, connect: Bytes -> Connection, turns: nat) {
    forall text: Bytes :: X509.FromHex(text).Some? && |X509.FromHex(text).value| == 32 ==>
      BringsSignature(lib, key, keygrip, connect(text), turns, text)
  }

  /** The agent is so for this certificate body, if there is one and it can be encoded. */
  ghost predicate AgentSignsBody(lib: X509.Library, key: Bytes, keygrip: Bytes, connect: Bytes -> Connection,
                                 turns: nat, tbs: X509.Result<X509.Tbs>)
  {
    tbs.Ok? && lib.encodeTbs(tbs.value).Some? ==>
      var text := X509.Hex(lib.sha256(lib.encodeTbs(tbs.value).value));
      BringsSignature(lib, key, keygrip, connect(text), turns, text)
  }

  lemma {:induction false} HexadecimalIsOneLine(text: Bytes)
    requires X509.FromHex(text).Some?
    ensures LF !in text
  {
    if text != [] {
      HexadecimalIsOneLine(text[2..]);
      assert text == [text[0], text[1]] + text[2..];
    }
  }

  /** What an honest agent brings, if it is read, is a signature of the digest that the text says. */
  lemma HonestySigns(lib: X509.Library, key: Bytes, keygrip: Bytes, c: Connection, turns: nat, text: Bytes,
                     digest: Bytes, t: Transcript)
    requires Honest(lib, key, keygrip, c, turns, text, t) && LF !in keygrip
    requires X509.FromHex(text) == Some(digest)
    ensures BytesRead(t).Ok? ==> lib.verifyStrict(key, digest, t.r + t.s)
  {
    HexadecimalIsOneLine(text);
    SigningAsksForTheDigest(c, keygrip, text, turns);
    SigningReadsSignature(c, keygrip, text, t, turns);
    hide Plays, Signing, Told, BytesRead, X509.FromHex;
    if BytesRead(t).Ok? {
      assert (keygrip, text) in Told(Signing(c, keygrip, text, turns).1.sent).signatures;
    }
  }

  lemma AgentSigns(lib: X509.Library, key: Bytes, connect: Bytes -> Connection, keygrip: Bytes, turns: nat,
                   text: Bytes, digest: Bytes)
    requires BringsSignature(lib, key, keygrip, connect(text), turns, text) && LF !in keygrip
    requires X509.FromHex(text) == Some(digest)
    ensures var signature := WireSigner(connect, keygrip, turns)(text);
            && signature.Some? && |signature.value| == 64
            && lib.verifyStrict(key, digest, signature.value)
  {
    var t :| Brings(connect(text), t, turns) && Honest(lib, key, keygrip, connect(text), turns, text, t);
    assert |t.r + t.s| == 64;
    HonestySigns(lib, key, keygrip, connect(text), turns, text, digest, t);
    SigningReadsSignature(connect(text), keygrip, text, t, turns);
    SignatureIsRead(t.r, t.s) by {
      assert |t.r| == 32 && |t.s| == 32 && !Contains(t.r, Needle(TAG_S));
    }
    hide Plays, Signing, Honest, SignatureBytes, Canonical, SignatureValue, Contains, X509.FromHex;
  }

  lemma {:induction false} WireSignerSigns(lib: X509.Library, key: Bytes, connect: Bytes -> Connection,
                                           keygrip: Bytes, turns: nat)
    requires AgentHolds(lib, key, keygrip, connect, turns) && LF !in keygrip
    ensures X509.SignsFor(lib, WireSigner(connect, keygrip, turns), key)
  {
    hide WireSigner, BringsSignature;
    forall text: Bytes | X509.FromHex(text).Some? && |X509.FromHex(text).value| == 32
      ensures var signature := WireSigner(connect, keygrip, turns)(text);
              signature.Some? && |signature.value| == 64
              && lib.verifyStrict(key, X509.FromHex(text).value, signature.value)
    {
      AgentSigns(lib, key, connect, keygrip, turns, text, X509.FromHex(text).value);
    }
  }

  lemma SigningSucceeds(lib: X509.Library, key: Bytes, connect: Bytes -> Connection, keygrip: Bytes, turns: nat,
                        tbs: X509.Tbs)
    requires X509.Lawful(lib) && AgentSignsBody(lib, key, keygrip, connect, turns, X509.Ok(tbs)) && LF !in keygrip
    ensures var signed := X509.Signed(lib, tbs, WireSigner(connect, keygrip, turns));
            && signed != X509.Err(X509.SigningFailed)
            && (signed.Ok? ==>
                  var digest := lib.sha256(lib.encodeTbs(tbs).value);
                  var signature := WireSigner(connect, keygrip, turns)(X509.Hex(digest));
                  signature.Some? && |signature.value| == 64 && lib.verifyStrict(key, digest, signature.value))
  {
    hide WireSigner, BringsSignature;
    if lib.encodeTbs(tbs).Some? {
      var digest := lib.sha256(lib.encodeTbs(tbs).value);
      X509.HexIsReadBack(digest);
      AgentSigns(lib, key, connect, keygrip, turns, X509.Hex(digest), digest);
    }
  }

  /** A certificate issued through the agent, from an authority made through the agent, verifies
      exactly in its window; and signing is never what stops either from being issued. */
  lemma {:induction false} IssuedOverTheWireVerifies(
    lib: X509.Library, key: Bytes, connect: Bytes -> Connection, keygrip: Bytes, turns: nat,
    authorityName: Bytes, authoritySerialClock: int, authorityClock: int,
    commonName: Bytes, keyInfo: X509.PublicKeyInfo, serialClock: int, clock: int, now: int)
    requires X509.Lawful(lib) && |key| == 32 && lib.isPoint(key) && LF !in keygrip
    requires AgentSignsBody(lib, key, keygrip, connect, turns,
               AuthorityBody(lib, key, authorityName, authoritySerialClock, authorityClock))
    requires AgentSignsBody(lib, key, keygrip, connect, turns,
               LeafBody(lib, authorityName, commonName, keyInfo, serialClock, clock))
    ensures var sign := WireSigner(connect, keygrip, turns);
            var authority := X509.SelfSigned(lib, authorityName, X509.PublicKeyInfo(X509.ED25519, key),
                                             authoritySerialClock, authorityClock, sign);
            && authority != X509.Err(X509.SigningFailed)
            && (authority.Ok? ==>
                  var certificate := X509.Issued(lib, authority.value, commonName, keyInfo, serialClock, clock, sign);
                  && certificate != X509.Err(X509.SigningFailed)
                  && (certificate.Ok? ==>
                        (X509.Verify(lib, authority.value, certificate.value, now).Ok?
                         <==> clock / X509.NANOSECONDS * X509.NANOSECONDS <= now
                              <= (clock / X509.NANOSECONDS + 2 * X509.YEAR) * X509.NANOSECONDS)))
  {
    var sign := WireSigner(connect, keygrip, turns);
    var authority := X509.SelfSigned(lib, authorityName, X509.PublicKeyInfo(X509.ED25519, key),
                                     authoritySerialClock, authorityClock, sign);
    var authorityBody := AuthorityBody(lib, key, authorityName, authoritySerialClock, authorityClock);
    var body := LeafBody(lib, authorityName, commonName, keyInfo, serialClock, clock);
    hide WireSigner, AgentSignsBody, X509.Verify, X509.Unsigned, X509.DistinguishedName;
    if authorityBody.Ok? {
      SigningSucceeds(lib, key, connect, keygrip, turns, authorityBody.value);
    }
    if authority.Ok? && body.Ok? {
      SigningSucceeds(lib, key, connect, keygrip, turns, body.value);
      X509.AuthorityDecodes(lib, authorityName, X509.PublicKeyInfo(X509.ED25519, key),
                            authoritySerialClock, authorityClock, sign);
      var certificate := X509.Issued(lib, authority.value, commonName, keyInfo, serialClock, clock, sign);
      assert certificate == X509.Signed(lib, body.value, sign);
      if certificate.Ok? {
        X509.WindowOfBody(lib, X509.DistinguishedName(authorityName), X509.DistinguishedName(commonName),
                          keyInfo, serialClock, clock);
        X509.IssuedVerifiesExactlyWhenSigned(
          lib, key, sign, sign, authorityName, authoritySerialClock, authorityClock, authority.value,
          commonName, keyInfo, serialClock, clock, body.value, lib.encodeTbs(body.value).value, certificate.value, now);
      }
    } else if authority.Ok? {
      X509.AuthorityDecodes(lib, authorityName, X509.PublicKeyInfo(X509.ED25519, key),
                            authoritySerialClock, authorityClock, sign);
      X509.BodyErrorIsNotSigning(lib, X509.Leaf, X509.DistinguishedName(authorityName),
                                 X509.DistinguishedName(commonName), keyInfo, serialClock, clock);
    } else {
      X509.BodyErrorIsNotSigning(lib, X509.Authority, X509.DistinguishedName(authorityName),
                                 X509.DistinguishedName(authorityName), X509.PublicKeyInfo(X509.ED25519, key),
                                 authoritySerialClock, authorityClock);
    }
  }

  /** The bodies that are signed for an authority and for a leaf of it. */
  function AuthorityBody(lib: X509.Library, key: Bytes, authorityName: Bytes, serialClock: int,
                         clock: int): X509.Result<X509.Tbs>
    requires X509.Lawful(lib)
  {
    var name := X509.DistinguishedName(authorityName);
    X509.Unsigned(lib, X509.Authority, name, name, X509.PublicKeyInfo(X509.ED25519, key), serialClock, clock)
  }

  function LeafBody(lib: X509.Library, authorityName: Bytes, commonName: Bytes, keyInfo: X509.PublicKeyInfo,
                    serialClock: int, clock: int): X509.Result<X509.Tbs>
    requires X509.Lawful(lib)
  {
    X509.Unsigned(lib, X509.Leaf, X509.DistinguishedName(authorityName), X509.DistinguishedName(commonName),
                  keyInfo, serialClock, clock)
  }

  /** Whatever the signature, the scan reads its R, so 64 bytes that were read start with it. */
  lemma BytesReadStartWithR(t: Transcript)
    requires |t.r| == 32 && |t.s| == 32
    ensures BytesRead(t).Ok? && |BytesRead(t).value| == 64 ==> BytesRead(t).value[..32] == t.r
  {
    FirstComponentIsRead(t.r, t.s);
    hide Extract, Canonical, SignatureValue;
  }

  /** The same chain for an agent that answers with whatever signature it likes of the digest it
      heard: the certificate is issued with the bytes that the scan read, and within its window it verifies
      exactly if those are R and S; an R without an opening of S is enough for that. The law of
      strict verification this rests on is that a digest and an R leave room for one S only. */
  lemma {:induction false} OverTheWireVerifiesExactlyWhenRead(
    lib: X509.Library, key: Bytes, connect: Bytes -> Connection, keygrip: Bytes, turns: nat, authoritySign: X509.Signer,
    authorityName: Bytes, authoritySerialClock: int, authorityClock: int, authority: Bytes,
    commonName: Bytes, keyInfo: X509.PublicKeyInfo, serialClock: int, clock: int,
    tbs: X509.Tbs, der: Bytes, t: Transcript, certificate: Bytes, now: int)
    requires X509.Lawful(lib) && |key| == 32 && lib.isPoint(key) && LF !in keygrip
    requires X509.SelfSigned(lib, authorityName, X509.PublicKeyInfo(X509.ED25519, key),
                             authoritySerialClock, authorityClock, authoritySign) == X509.Ok(authority)
    requires X509.Unsigned(lib, X509.Leaf, X509.DistinguishedName(authorityName), X509.DistinguishedName(commonName),
                           keyInfo, serialClock, clock) == X509.Ok(tbs)
    requires lib.encodeTbs(tbs) == Some(der)
    requires var text := X509.Hex(lib.sha256(der)); Honest(lib, key, keygrip, connect(text), turns, text, t)
    requires forall x: Bytes :: |x| == 64 && x[..32] == t.r && lib.verifyStrict(key, lib.sha256(der), x) ==>
        x == t.r + t.s
    ensures !Contains(t.r, Needle(TAG_S)) ==> BytesRead(t) == Ok(t.r + t.s)
    ensures var issued := X509.Issued(lib, authority, commonName, keyInfo, serialClock, clock,
                                      WireSigner(connect, keygrip, turns));
            && (BytesRead(t).Err? ==> issued == X509.Err(X509.SigningFailed))
            && (issued == X509.Ok(certificate) ==>
                  && lib.decodeCertificate(certificate) == Some(X509.Certificate(tbs, BytesRead(t).value))
                  && (X509.Verify(lib, authority, certificate, now).Ok?
                      <==> tbs.validity.notBefore * X509.NANOSECONDS <= now <= tbs.validity.notAfter * X509.NANOSECONDS
                           && BytesRead(t) == Ok(t.r + t.s)))
  {
    var sign, text := WireSigner(connect, keygrip, turns), X509.Hex(lib.sha256(der));
    SigningReadsSignature(connect(text), keygrip, text, t, turns);
    X509.HexIsReadBack(lib.sha256(der));
    HonestySigns(lib, key, keygrip, connect(text), turns, text, lib.sha256(der), t);
    assert sign(text) == if BytesRead(t).Ok? then Some(BytesRead(t).value) else None;
    assert |t.r + t.s| == 64;
    BytesReadStartWithR(t);
    if !Contains(t.r, Needle(TAG_S)) {
      SignatureIsRead(t.r, t.s);
    }
    var issued := X509.Issued(lib, authority, commonName, keyInfo, serialClock, clock, sign);
    hide Plays, Honest, BytesRead, WireSigner, Contains, X509.Hex, X509.Verify;
    if BytesRead(t).Err? {
      FailingSignerIssuesNothing(lib, key, sign, authoritySign, authorityName, authoritySerialClock, authorityClock,
                                 authority, commonName, keyInfo, serialClock, clock, tbs, der);
    } else if issued == X509.Ok(certificate) {
      X509.IssuedVerifiesExactlyWhenSigned(lib, key, sign, authoritySign, authorityName, authoritySerialClock,
                                           authorityClock, authority, commonName, keyInfo, serialClock, clock,
                                           tbs, der, certificate, now);
    }
  }

  lemma {:induction false} FailingSignerIssuesNothing(
    lib: X509.Library, key: Bytes, sign: X509.Signer, authoritySign: X509.Signer,
    authorityName: Bytes, authoritySerialClock: int, authorityClock: int, authority: Bytes,
    commonName: Bytes, keyInfo: X509.PublicKeyInfo, serialClock: int, clock: int, tbs: X509.Tbs, der: Bytes)
    requires X509.Lawful(lib)
    requires X509.SelfSigned(lib, authorityName, X509.PublicKeyInfo(X509.ED25519, key),
                             authoritySerialClock, authorityClock, authoritySign) == X509.Ok(authority)
    requires X509.Unsigned(lib, X509.Leaf, X509.DistinguishedName(authorityName), X509.DistinguishedName(commonName),
                           keyInfo, serialClock, clock) == X509.Ok(tbs)
    requires lib.encodeTbs(tbs) == Some(der) && sign(X509.Hex(lib.sha256(der))).None?
    ensures X509.Issued(lib, authority, commonName, keyInfo, serialClock, clock, sign) == X509.Err(X509.SigningFailed)
  {
    hide X509.Hex, X509.Serial, X509.Extensions, X509.LifetimeValidity;
  }
}
