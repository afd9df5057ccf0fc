/** Signing and reading a key from end to end: what `sign` and `readkey` return when the agent
    answers with the S-expressions that libgcrypt prints. */
module Signature {
  import opened ByteStrings
  import opened Extraction
  import opened SExpression
  import opened Wire

  function Labelled(tag: Byte, v: Bytes): Sexp {
    List([Atom([tag]), Atom(v)])
  }

  /** `(sig-val (eddsa (r R) (s S)))`. */
  function SignatureValue(r: Bytes, s: Bytes): Sexp {
    List([Atom(Ascii("sig-val")), List([Atom(Ascii("eddsa")), Labelled(TAG_R, r), Labelled(TAG_S, s)])])
  }

  function SignatureTokens(r: Bytes, s: Bytes): seq<Token> {
    [Open, Octets(Ascii("sig-val")), Open, Octets(Ascii("eddsa")),
     Open, Octets([TAG_R]), Octets(r), Close] + SecondTokens(s)
  }

  function SecondTokens(s: Bytes): seq<Token> {
    [Open, Octets([TAG_S]), Octets(s), Close, Close, Close]
  }

  lemma SignaturePrints(r: Bytes, s: Bytes)
    ensures Tokens(SignatureValue(r, s)) == SignatureTokens(r, s)
  {
    var inner := List([Atom(Ascii("eddsa")), Labelled(TAG_R, r), Labelled(TAG_S, s)]);
    LabelledPrints(TAG_R, r);
    LabelledPrints(TAG_S, s);
    TokensOfThree(Atom(Ascii("eddsa")), Labelled(TAG_R, r), Labelled(TAG_S, s));
    assert Tokens(inner) == [Open, Octets(Ascii("eddsa")), Open, Octets([TAG_R]), Octets(r), Close,
                             Open, Octets([TAG_S]), Octets(s), Close, Close];
    TokensOfTwo(Atom(Ascii("sig-val")), inner);
  }

  lemma LabelledPrints(tag: Byte, v: Bytes)
    ensures Tokens(Labelled(tag, v)) == [Open, Octets([tag]), Octets(v), Close]
  {
    TokensOfTwo(Atom([tag]), Atom(v));
  }

  /** Tokens in front of which nothing opens and nothing imitates are passed over. */
  lemma {:induction false} PassOver(ts: seq<Token>, tag: Byte, k: nat)
    requires k <= |ts|
    requires forall i :: 0 <= i < k ==> !HeadHere(ts[i..], tag) && !Imitates(ts[i..], tag)
    ensures FirstHit(ts, tag) == FirstHit(ts[k..], tag)
  {
    assert ts[0..] == ts;
    if k > 0 {
      forall i | 0 <= i < k - 1
        ensures !HeadHere(ts[1..][i..], tag) && !Imitates(ts[1..][i..], tag)
      {
        assert ts[1..][i..] == ts[i + 1..];
      }
      PassOver(ts[1..], tag, k - 1);
      assert ts[1..][k - 1..] == ts[k..];
    }
  }

  /** Octets without a parenthesis imitate nothing. */
  lemma PlainOctets(ts: seq<Token>, tag: Byte)
    requires ts != [] && ts[0].Octets? && OPEN !in ts[0].octets
    ensures !Imitates(ts, tag)
  {
    var octets := ts[0].octets;
    forall k: nat | k <= |octets| ensures !MatchAt(octets, Needle(tag), k) {
      NeedleBytes(octets, tag, k);
    }
  }

  /** The fixed front of a signature, up to where the component R opens. */
  lemma FrontIsPassedOver(r: Bytes, s: Bytes, tag: Byte)
    requires TagByte(tag)
    ensures FirstHit(SignatureTokens(r, s), tag) == FirstHit(SignatureTokens(r, s)[4..], tag)
  {
    var ts := SignatureTokens(r, s);
    assert |ts[1].octets| == 7 && |ts[3].octets| == 5;
    forall i | 0 <= i < 4 ensures !HeadHere(ts[i..], tag) && !Imitates(ts[i..], tag) {
      if ts[i].Octets? {
        PlainOctets(ts[i..], tag);
      } else {
        assert ts[i..][1] == ts[i + 1];
        assert ts[i + 1].octets != [tag];
      }
    }
    PassOver(ts, tag, 4);
  }

  lemma FirstComponentIsReal(r: Bytes, s: Bytes)
    ensures NoEarlierImitation(SignatureValue(r, s), TAG_R)
  {
    SignaturePrints(r, s);
    FrontIsPassedOver(r, s, TAG_R);
    var ts := SignatureTokens(r, s)[4..];
    assert HeadHere(ts, TAG_R);
  }

  /** No opening of S is imitated before the real one exactly when R does not hold one. */
  lemma SecondComponentIsReal(r: Bytes, s: Bytes)
    ensures NoEarlierImitation(SignatureValue(r, s), TAG_S) <==> !Contains(r, Needle(TAG_S))
  {
    SignaturePrints(r, s);
    FrontIsPassedOver(r, s, TAG_S);
    hide Tokens, SignatureValue, Contains;
    var ts := SignatureTokens(r, s)[4..];
    forall i | 0 <= i < 2 ensures !HeadHere(ts[i..], TAG_S) && !Imitates(ts[i..], TAG_S) {
      assert [TAG_R][0] != TAG_S;
      if i == 1 {
        PlainOctets(ts[i..], TAG_S);
      } else {
        assert ts[i..][1] == ts[1] == Octets([TAG_R]);
      }
    }
    PassOver(ts, TAG_S, 2);
    assert ts[2..] == [Octets(r), Close] + SecondTokens(s);
    SecondHit(r, s);
  }

  lemma SecondHit(r: Bytes, s: Bytes)
    ensures FirstHit([Octets(r), Close] + SecondTokens(s), TAG_S).Imitation? <==> Contains(r, Needle(TAG_S))
  {
    hide Contains;
    var rs := [Octets(r), Close] + SecondTokens(s);
    assert rs[0] == Octets(r) && rs[1] == Close;
    assert !HeadHere(rs, TAG_S) && (Imitates(rs, TAG_S) <==> Contains(r, Needle(TAG_S)));
    if !Contains(r, Needle(TAG_S)) {
      var tail := [Close] + SecondTokens(s);
      assert tail[1..] == SecondTokens(s) && HeadHere(SecondTokens(s), TAG_S);
      assert FirstHit(tail, TAG_S).Real?;
      assert rs == [Octets(r)] + tail && rs[1..] == tail;
    }
  }

  lemma ComponentsOfSignature(r: Bytes, s: Bytes)
    ensures ComponentOf(SignatureValue(r, s), TAG_R) == Found(r)
    ensures ComponentOf(SignatureValue(r, s), TAG_S) == Found(s)
  {
    var eddsa := Atom(Ascii("eddsa"));
    var inner := [eddsa, Labelled(TAG_R, r), Labelled(TAG_S, s)];
    var outer := [Atom(Ascii("sig-val")), List(inner)];
    assert |Ascii("eddsa")| == 5 && |Ascii("sig-val")| == 7;
    assert [TAG_R][0] != [TAG_S][0];
    assert FindHead(Labelled(TAG_R, r), TAG_R) == Head([Atom(r)]);
    assert FindHead(Labelled(TAG_S, s), TAG_S) == Head([Atom(s)]);
    assert FindHead(Labelled(TAG_R, r), TAG_S) == NoHead by {
      LabelledHasOneHead(TAG_R, r, TAG_S);
    }
    assert inner[1..][1..] == [Labelled(TAG_S, s)];
    assert FindHeadAll(inner[1..][1..], TAG_S) == Head([Atom(s)]);
    assert FindHeadAll(inner[1..], TAG_S) == Head([Atom(s)]);
    assert FindHeadAll(inner, TAG_S) == Head([Atom(s)]);
    assert FindHeadAll(inner[1..], TAG_R) == Head([Atom(r)]);
    assert FindHeadAll(inner, TAG_R) == Head([Atom(r)]);
    assert outer[1..] == [List(inner)];
    assert FindHeadAll(outer[1..], TAG_R) == Head([Atom(r)]);
    assert FindHeadAll(outer[1..], TAG_S) == Head([Atom(s)]);
    assert FindHeadAll(outer, TAG_R) == Head([Atom(r)]);
    assert FindHeadAll(outer, TAG_S) == Head([Atom(s)]);
  }

  lemma LabelledHasOneHead(own: Byte, v: Bytes, tag: Byte)
    requires own != tag
    ensures FindHead(Labelled(own, v), tag) == NoHead
  {
    var items := [Atom([own]), Atom(v)];
    assert [own][0] != [tag][0];
    assert items[1..] == [Atom(v)] && items[1..][1..] == [];
    assert FindHeadAll(items[1..][1..], tag) == NoHead;
    assert FindHeadAll(items[1..], tag) == NoHead;
    assert FindHeadAll(items, tag) == NoHead;
  }

  /** Printing at most doubles octets and adds two bytes. */
  lemma {:induction false} DecimalIsShort(n: nat)
    ensures |Decimal(n)| <= n + 1
  {
    if n >= 10 {
      DecimalIsShort(n / 10);
    }
  }

  lemma TokenIsShort(t: Token)
    requires t.Octets? ==> |t.octets| < 0x1000_0000
    ensures |PrintToken(t)| <= 0x2000_0002
  {
    if t.Octets? {
      DecimalIsShort(|t.octets|);
    }
  }

  lemma SignatureIsShort(r: Bytes, s: Bytes)
    requires |r| < 0x1000_0000 && |s| < 0x1000_0000
    ensures |Canonical(SignatureValue(r, s))| < LENGTH_LIMIT
  {
    CanonicalPrintsTokens(SignatureValue(r, s));
    SignaturePrints(r, s);
    hide Print, Tokens, Canonical, PrintToken;
    var ts := SignatureTokens(r, s);
    forall i | 0 <= i < |ts| ensures |PrintToken(ts[i])| <= 0x2000_0002 {
      assert ts[i].Octets? ==> |ts[i].octets| <= 7 || ts[i].octets == r || ts[i].octets == s;
      TokenIsShort(ts[i]);
    }
    PrintIsShort(ts);
  }

  lemma {:induction false} PrintIsShort(ts: seq<Token>)
    requires forall i :: 0 <= i < |ts| ==> |PrintToken(ts[i])| <= 0x2000_0002
    ensures |Print(ts)| <= 0x2000_0002 * |ts|
  {
    if ts != [] {
      PrintIsShort(ts[1..]);
    }
  }

  /** The signature is read out of its printed form whenever R holds no opening of S. */
  lemma SignatureIsRead(r: Bytes, s: Bytes)
    requires |r| < 0x1000_0000 && |s| < 0x1000_0000 && !Contains(r, Needle(TAG_S))
    ensures SignatureBytes(Canonical(SignatureValue(r, s))) == Ok(r + s)
  {
    var e := SignatureValue(r, s);
    SignatureIsShort(r, s);
    ComponentsOfSignature(r, s);
    FirstComponentIsReal(r, s);
    SecondComponentIsReal(r, s);
    ExtractRefinesLookup(e, TAG_R);
    ExtractRefinesLookup(e, TAG_S);
  }

  // ---- When R does hold an opening of S

  /** Everything in front of S in the printed signature; only the length of S shows in it. */
  function FrontOfSecond(r: Bytes): Bytes {
    Print(SignatureTokens(r, [])[..8]) + (Needle(TAG_S) + (Decimal(32) + [COLON]))
  }

  lemma SignatureText(r: Bytes, s: Bytes)
    requires |s| == 32
    ensures Canonical(SignatureValue(r, s)) == FrontOfSecond(r) + (s + [CLOSE, CLOSE, CLOSE])
  {
    CanonicalPrintsTokens(SignatureValue(r, s));
    SignaturePrints(r, s);
    var front := SignatureTokens(r, [])[..8];
    assert SignatureTokens(r, s) == front + SecondTokens(s);
    PrintConcat(front, SecondTokens(s));
    SecondText(s);
    Regroup(Print(front), Needle(TAG_S), Decimal(32) + [COLON], s);
  }

  lemma SecondText(s: Bytes)
    requires |s| == 32
    ensures Print(SecondTokens(s)) == Needle(TAG_S) + (Decimal(32) + [COLON]) + s + [CLOSE, CLOSE, CLOSE]
  {
    var ts := SecondTokens(s);
    assert ts == [Open, Octets([TAG_S])] + ([Octets(s)] + [Close, Close, Close]);
    PrintConcat([Open, Octets([TAG_S])], [Octets(s)] + [Close, Close, Close]);
    PrintConcat([Octets(s)], [Close, Close, Close]);
    ClosingText();
    OneOctetPrints([Octets([TAG_S])], TAG_S);
    assert Print([Open, Octets([TAG_S])]) == Needle(TAG_S) by {
      assert [Open, Octets([TAG_S])][1..] == [Octets([TAG_S])];
    }
    assert Print([Octets(s)]) == Decimal(32) + [COLON] + s;
  }

  lemma ClosingText()
    ensures Print([Close, Close, Close]) == [CLOSE, CLOSE, CLOSE]
  {
    assert [Close, Close, Close][1..] == [Close, Close] && [Close, Close][1..] == [Close];
    assert Print([Close]) == [CLOSE];
  }

  lemma Regroup(a: Bytes, b: Bytes, c: Bytes, s: Bytes)
    ensures a + (b + c + s + [CLOSE, CLOSE, CLOSE]) == a + (b + c) + (s + [CLOSE, CLOSE, CLOSE])
  {
  }

  /** What a match that ends before a parenthesis inside `common` yields starts with a byte of
      `common`, whatever follows. */
  lemma FirstByteIsFixed(common: Bytes, tag: Byte, m: nat, q: nat) returns (b: Byte)
    requires MatchAt(common, Needle(tag), m) && m + 4 <= q < |common| && common[q] == CLOSE
    ensures forall x, v :: Extract(common + x, tag) == Found(v) && v != [] ==> v[0] == b
  {
    FirstMatchIsLeftmost(common, Needle(tag));
    var at := FirstMatch(common, Needle(tag), 0).value;
    var end := DigitsEnd(common, at + 4);
    DigitsStopAt(common, at + 4, q);
    b := if end + 1 < |common| then common[end + 1] else 0;
    forall x, v | Extract(common + x, tag) == Found(v) && v != []
      ensures v[0] == b
    {
      FirstByteOfValue(common, x, tag, at, end, v);
    }
  }

  lemma {:induction false} DigitsStopAt(data: Bytes, i: nat, q: nat)
    requires i <= q < |data| && !IsDigit(data[q])
    ensures DigitsEnd(data, i) <= q
    decreases q - i
  {
    if i < q {
      DigitsStopAt(data, i + 1, q);
    }
  }

  lemma FirstByteOfValue(common: Bytes, x: Bytes, tag: Byte, at: nat, end: nat, v: Bytes)
    requires IsFirstMatch(common, Needle(tag), at)
    requires at + 4 <= end < |common| && DigitsEnd(common, at + 4) == end
    requires Extract(common + x, tag) == Found(v) && v != []
    requires end + 1 == |common| ==> common[end] == CLOSE
    ensures end + 1 < |common| && v[0] == common[end + 1]
  {
    PrefixKeepsFirstMatch(common, x, Needle(tag), at);
    assert (common + x)[at + 4..end] == common[at + 4..end];
    assert (common + x)[end] == common[end];
    DigitsEndIs(common + x, at + 4, end);
  }

  lemma PrefixKeepsFirstMatch(common: Bytes, x: Bytes, needle: Bytes, at: nat)
    requires needle != [] && IsFirstMatch(common, needle, at)
    ensures FirstMatch(common + x, needle, 0) == Some(at)
  {
    forall k: nat | k <= at ensures MatchAt(common + x, needle, k) <==> MatchAt(common, needle, k) {
      MatchInPrefix(common, x, needle, k);
    }
    FirstMatchIs(common + x, needle, at);
  }

  /** R inside the printed front, with the parenthesis that closes its list. */
  lemma FirstComponentText(r: Bytes) returns (offset: nat)
    ensures var front := FrontOfSecond(r);
            && offset + |r| < |front|
            && front[offset..offset + |r|] == r && front[offset + |r|] == CLOSE
  {
    var ts := SignatureTokens(r, [])[..8];
    assert ts == ts[..6] + ([Octets(r)] + [Close]);
    PrintConcat(ts[..6], [Octets(r)] + [Close]);
    PrintConcat([Octets(r)], [Close]);
    assert Print([Octets(r)]) == Decimal(|r|) + [COLON] + r && Print([Close]) == [CLOSE];
    assert FrontOfSecond(r)
        == Print(ts[..6]) + (Decimal(|r|) + [COLON] + r + [CLOSE]) + (Needle(TAG_S) + (Decimal(32) + [COLON]));
    hide Print, FrontOfSecond, Decimal, SignatureTokens, Needle;
    offset := |Print(ts[..6])| + |Decimal(|r|) + [COLON]|;
    Locate(Print(ts[..6]), Decimal(|r|) + [COLON], r, Needle(TAG_S) + (Decimal(32) + [COLON]));
  }

  lemma Locate(a: Bytes, b: Bytes, r: Bytes, z: Bytes)
    ensures var text := a + (b + r + [CLOSE]) + z;
            && text[|a| + |b|..|a| + |b| + |r|] == r
            && text[|a| + |b| + |r|] == CLOSE
  {
  }

  function Uniform(b: Byte): (s: Bytes)
    ensures |s| == 32 && s[0] == b
  {
    seq(32, _ => b)
  }

  /** With an opening of S inside R, the byte that should start S is read from R or from the
      text behind it, whatever S is. */
  lemma SecondStartsWithFixedByte(r: Bytes) returns (b: Byte)
    requires |r| == 32 && Contains(r, Needle(TAG_S))
    ensures forall s: Bytes, v ::
        |s| == 32 && v != [] && Extract(Canonical(SignatureValue(r, s)), TAG_S) == Found(v) ==> v[0] == b
  {
    hide Extract, FrontOfSecond, Canonical, SignatureValue;
    var k: nat :| k <= |r| && MatchAt(r, Needle(TAG_S), k);
    var common := FrontOfSecond(r);
    var offset := FirstComponentText(r);
    assert common[offset + k..offset + k + 4] == common[offset..offset + |r|][k..k + 4];
    b := FirstByteIsFixed(common, TAG_S, offset + k, offset + |r|);
    forall s: Bytes, v | |s| == 32 && v != [] && Extract(Canonical(SignatureValue(r, s)), TAG_S) == Found(v)
      ensures v[0] == b
    {
      SignatureText(r, s);
    }
  }

  /** So not every S can be read back. */
  lemma SomeSignatureIsMisread(r: Bytes) returns (s: Bytes)
    requires |r| == 32 && Contains(r, Needle(TAG_S))
    ensures |s| == 32 && SignatureBytes(Canonical(SignatureValue(r, s))) != Ok(r + s)
  {
    hide Extract, Canonical, SignatureValue, Contains;
    var b := SecondStartsWithFixedByte(r);
    s := Uniform(if b == 0 then 1 else 0);
    FirstComponentIsRead(r, s);
    var text := Canonical(SignatureValue(r, s));
    match Extract(text, TAG_S)
    case Found(v) => SameTails(r, v, s);
    case _ =>
  }

  lemma SameTails(r: Bytes, v: Bytes, s: Bytes)
    ensures r + v == r + s ==> v == s
  {
    assert (r + v)[|r|..] == v && (r + s)[|r|..] == s;
  }

  lemma FirstComponentIsRead(r: Bytes, s: Bytes)
    requires |r| < 0x1000_0000 && |s| < 0x1000_0000
    ensures Extract(Canonical(SignatureValue(r, s)), TAG_R) == Found(r)
  {
    SignatureIsShort(r, s);
    ComponentsOfSignature(r, s);
    FirstComponentIsReal(r, s);
    ExtractRefinesLookup(SignatureValue(r, s), TAG_R);
  }

  /** The exact condition: a 32-byte R lets every signature with it be read back if and only if
      it does not hold the opening of S. */
  lemma SignatureReadExactly(r: Bytes)
    requires |r| == 32
    ensures !Contains(r, Needle(TAG_S))
       <==> forall s: Bytes :: |s| == 32 ==> SignatureBytes(Canonical(SignatureValue(r, s))) == Ok(r + s)
  {
    if Contains(r, Needle(TAG_S)) {
      var s := SomeSignatureIsMisread(r);
    } else {
      forall s: Bytes | |s| == 32
        ensures SignatureBytes(Canonical(SignatureValue(r, s))) == Ok(r + s)
      {
        SignatureIsRead(r, s);
      }
    }
  }

  // ---- The conversation

  /** The lines an agent acknowledges with. */
  predicate Acknowledgement(tail: Bytes) {
    LF !in tail && ValidUtf8(OK + tail + [LF])
  }

  lemma OrderIsAcknowledged(c: Connection, command: Bytes, tail: Bytes, rest: Bytes)
    requires Acknowledgement(tail) && c.writesLeft > 0
    requires c.incoming == OK + tail + [LF] + rest
    ensures Order(c, command)
         == (Ok(()), Connection(rest, c.readFault, c.writesLeft - 1, c.cut, c.sent + [command + [LF]]))
  {
    var (_, c') := Send(c, command);
    RawLineIs(c', OK + tail, rest);
  }

  /** A query that gets a legal answer returns its payload, answers every INQUIRE with END and
      leaves what follows the final OK line unread. */
  lemma QueryIsAnswered(c: Connection, command: Bytes, frames: seq<Frame>, tail: Bytes, rest: Bytes, turns: nat)
    requires forall i :: 0 <= i < |frames| ==> LegalFrame(frames[i])
    requires LF !in tail && turns > |frames| && c.writesLeft >= 1 + |Ends(frames)|
    requires c.incoming == Answer(frames) + (OK + tail + [LF] + rest)
    ensures Query(c, command, turns)
         == (Some(Ok(Payload(frames))),
             Connection(rest, c.readFault, c.writesLeft - 1 - |Ends(frames)|, c.cut,
                        c.sent + [command + [LF]] + Ends(frames)))
  {
    hide ReadTurn;
    var (_, c') := Send(c, command);
    AnswerIsReadBack(c', frames, tail, rest, turns);
  }

  /** A signing conversation as the agent plays it: its signature, the tails of its three OK
      lines, the frames of its answer and whatever follows. */
  datatype Transcript = Transcript(r: Bytes, s: Bytes, tail1: Bytes, tail2: Bytes,
                                   frames: seq<Frame>, tail3: Bytes, rest: Bytes)

  /** The conversation is legal, carries a signature of the right size, and is what `c` will
      bring; reading is watched long enough and writing does not fail. */
  ghost predicate Plays(c: Connection, t: Transcript, turns: nat) {
    && |t.r| == 32 && |t.s| == 32
    && Acknowledgement(t.tail1) && Acknowledgement(t.tail2) && LF !in t.tail3
    && (forall i :: 0 <= i < |t.frames| ==> LegalFrame(t.frames[i]))
    && Payload(t.frames) == Canonical(SignatureValue(t.r, t.s))
    && turns > |t.frames| && c.writesLeft >= 3 + |Ends(t.frames)|
    && c.incoming == OK + t.tail1 + [LF] + (OK + t.tail2 + [LF] + AnswerText(t))
  }

  /** In addition the R of the signature holds no opening of S. */
  ghost predicate Brings(c: Connection, t: Transcript, turns: nat) {
    Plays(c, t, turns) && !Contains(t.r, Needle(TAG_S))
  }

  /** What the scan makes of the agent's signature. */
  function BytesRead(t: Transcript): Result<Bytes> {
    SignatureBytes(Canonical(SignatureValue(t.r, t.s)))
  }

  function AnswerText(t: Transcript): Bytes {
    Answer(t.frames) + (OK + t.tail3 + [LF] + t.rest)
  }

  /** Signing on any legal conversation, whatever its payload: the three commands in order and one
      END for each INQUIRE are sent, reading stops right behind the final OK line, and the result is
      what the scan makes of the payload. */
  lemma SigningReadsPayload(c: Connection, keygrip: Bytes, hash: Bytes, tail1: Bytes, tail2: Bytes,
                            frames: seq<Frame>, tail3: Bytes, rest: Bytes, turns: nat)
    requires Acknowledgement(tail1) && Acknowledgement(tail2) && LF !in tail3
    requires forall i :: 0 <= i < |frames| ==> LegalFrame(frames[i])
    requires turns > |frames| && c.writesLeft >= 3 + |Ends(frames)|
    requires c.incoming == OK + tail1 + [LF] + (OK + tail2 + [LF] + (Answer(frames) + (OK + tail3 + [LF] + rest)))
    ensures Signing(c, keygrip, hash, turns)
         == (Some(SignatureBytes(Payload(frames))),
             Connection(rest, c.readFault, c.writesLeft - 3 - |Ends(frames)|, c.cut,
                        c.sent + [SigKey(keygrip) + [LF]] + [SetHash(hash) + [LF]] + [PkSign() + [LF]] + Ends(frames)))
  {
    hide Order, Query, Answer, Ends, Payload, SignatureBytes, ValidUtf8, LegalFrame;
    var answer := Answer(frames) + (OK + tail3 + [LF] + rest);
    var second := OK + tail2 + [LF] + answer;
    OrderIsAcknowledged(c, SigKey(keygrip), tail1, second);
    var c1 := Connection(second, c.readFault, c.writesLeft - 1, c.cut, c.sent + [SigKey(keygrip) + [LF]]);
    OrderIsAcknowledged(c1, SetHash(hash), tail2, answer);
    var c2 := Connection(answer, c.readFault, c.writesLeft - 2, c.cut, c1.sent + [SetHash(hash) + [LF]]);
    QueryIsAnswered(c2, PkSign(), frames, tail3, rest, turns);
  }

  /** Signing on a legal transcript of any signature: the result is what the scan makes of it. */
  lemma SigningReadsSignature(c: Connection, keygrip: Bytes, hash: Bytes, t: Transcript, turns: nat)
    requires Plays(c, t, turns)
    ensures Signing(c, keygrip, hash, turns)
         == (Some(BytesRead(t)),
             Connection(t.rest, c.readFault, c.writesLeft - 3 - |Ends(t.frames)|, c.cut,
                        c.sent + [SigKey(keygrip) + [LF]] + [SetHash(hash) + [LF]] + [PkSign() + [LF]]
                        + Ends(t.frames)))
  {
    SigningReadsPayload(c, keygrip, hash, t.tail1, t.tail2, t.frames, t.tail3, t.rest, turns);
  }

  /** Signing from end to end: on every legal transcript of a signature whose R holds no opening
      of S, `sign` returns R and S, sends its three commands in order and one END for each
      INQUIRE, and stops reading right behind the final OK line. */
  lemma SigningReturnsSignature(c: Connection, keygrip: Bytes, hash: Bytes, t: Transcript, turns: nat)
    requires Brings(c, t, turns)
    ensures Signing(c, keygrip, hash, turns)
         == (Some(Ok(t.r + t.s)),
             Connection(t.rest, c.readFault, c.writesLeft - 3 - |Ends(t.frames)|, c.cut,
                        c.sent + [SigKey(keygrip) + [LF]] + [SetHash(hash) + [LF]] + [PkSign() + [LF]]
                        + Ends(t.frames)))
  {
    SigningReadsSignature(c, keygrip, hash, t, turns);
    SignatureIsRead(t.r, t.s);
  }

  /** Reading a key: on every legal transcript of a tree with a `q` component that nothing imitates
      before, `readkey` returns the component without the point prefix. */
  lemma KeyReadingReturnsKey(c: Connection, keygrip: Bytes, e: Sexp, key: Bytes,
                             frames: seq<Frame>, tail: Bytes, rest: Bytes, turns: nat)
    requires |Canonical(e)| < LENGTH_LIMIT && NoEarlierImitation(e, TAG_Q)
    requires ComponentOf(e, TAG_Q) == Found(key)
    requires forall i :: 0 <= i < |frames| ==> LegalFrame(frames[i])
    requires Payload(frames) == Canonical(e)
    requires LF !in tail && turns > |frames| && c.writesLeft >= 1 + |Ends(frames)|
    requires c.incoming == Answer(frames) + (OK + tail + [LF] + rest)
    ensures KeyReading(c, keygrip, turns)
         == (Some(Ok(WithoutPointPrefix(key))),
             Connection(rest, c.readFault, c.writesLeft - 1 - |Ends(frames)|, c.cut,
                        c.sent + [ReadKey(keygrip) + [LF]] + Ends(frames)))
  {
    hide Query, Extract, Canonical, Tokens, FirstHit;
    QueryIsAnswered(c, ReadKey(keygrip), frames, tail, rest, turns);
    ExtractRefinesLookup(e, TAG_Q);
  }

  /** A point of 32 bytes comes back from either form. */
  lemma PointFromEitherForm(point: Bytes)
    requires |point| == 32
    ensures WithoutPointPrefix(point) == point && WithoutPointPrefix([0x40] + point) == point
  {
    assert ([0x40] + point)[1..] == point;
  }

  /** Nothing but the mark of a 33-byte key is dropped. */
  lemma OtherKeysStay(key: Bytes)
    ensures WithoutPointPrefix(key) != key <==> |key| == 33 && key[0] == 64
  {
  }

  // ---- The key as libgcrypt prints it

  /** `(public-key (ecc (curve C) (flags F) (q K)))`. */
  function PublicKey(curve: Bytes, flags: Bytes, key: Bytes): Sexp {
    List([Atom(Ascii("public-key")), Ecc(curve, flags, key)])
  }

  function Ecc(curve: Bytes, flags: Bytes, key: Bytes): Sexp {
    List([Atom(Ascii("ecc")), Named("curve", curve), Named("flags", flags), Labelled(TAG_Q, key)])
  }

  function Named(name: string, v: Bytes): Sexp
    requires forall i :: 0 <= i < |name| ==> name[i] as int < 128
  {
    List([Atom(Ascii(name)), Atom(v)])
  }

  function PublicKeyTokens(curve: Bytes, flags: Bytes, key: Bytes): seq<Token> {
    [Open, Octets(Ascii("public-key"))] + EccTokens(curve, flags, key) + [Close]
  }

  function EccTokens(curve: Bytes, flags: Bytes, key: Bytes): seq<Token> {
    [Open, Octets(Ascii("ecc"))] + NamedTokens("curve", curve) + NamedTokens("flags", flags)
    + [Open, Octets([TAG_Q]), Octets(key), Close, Close]
  }

  function NamedTokens(name: string, v: Bytes): seq<Token>
    requires forall i :: 0 <= i < |name| ==> name[i] as int < 128
  {
    [Open, Octets(Ascii(name)), Octets(v), Close]
  }

  lemma PublicKeyPrints(curve: Bytes, flags: Bytes, key: Bytes)
    ensures Tokens(PublicKey(curve, flags, key)) == PublicKeyTokens(curve, flags, key)
  {
    EccPrints(curve, flags, key);
    TokensOfTwo(Atom(Ascii("public-key")), Ecc(curve, flags, key));
    assert Tokens(Atom(Ascii("public-key"))) == [Octets(Ascii("public-key"))];
    hide Tokens, Ecc, EccTokens;
  }

  lemma EccPrints(curve: Bytes, flags: Bytes, key: Bytes)
    ensures Tokens(Ecc(curve, flags, key)) == EccTokens(curve, flags, key)
  {
    var fields := [Named("curve", curve), Named("flags", flags), Labelled(TAG_Q, key)];
    NamedPrints("curve", curve);
    NamedPrints("flags", flags);
    LabelledPrints(TAG_Q, key);
    TokensOfThree(fields[0], fields[1], fields[2]);
    TokensOfFirst(Atom(Ascii("ecc")), fields);
    assert Ecc(curve, flags, key) == List([Atom(Ascii("ecc"))] + fields);
    assert Tokens(Atom(Ascii("ecc"))) == [Octets(Ascii("ecc"))];
    hide Tokens, Ecc, Named, NamedTokens, Labelled, Ascii;
    assert Tokens(List(fields))[1..] == NamedTokens("curve", curve) + NamedTokens("flags", flags)
      + ([Open, Octets([TAG_Q]), Octets(key), Close] + [Close]);
  }

  lemma NamedPrints(name: string, v: Bytes)
    requires forall i :: 0 <= i < |name| ==> name[i] as int < 128
    ensures Tokens(Named(name, v)) == NamedTokens(name, v)
  {
    TokensOfTwo(Atom(Ascii(name)), Atom(v));
  }

  lemma TokensOfFirst(first: Sexp, others: seq<Sexp>)
    ensures Tokens(List([first] + others)) == [Open] + Tokens(first) + Tokens(List(others))[1..]
  {
    assert ([first] + others)[1..] == others;
    assert Tokens(List(others))[1..] == TokensAll(others) + [Close];
  }

  /** In a key nothing can imitate its opening: what stands before it holds no parenthesis. */
  lemma KeyIsReal(curve: Bytes, flags: Bytes, key: Bytes)
    requires OPEN !in curve && OPEN !in flags
    ensures NoEarlierImitation(PublicKey(curve, flags, key), TAG_Q)
  {
    PublicKeyPrints(curve, flags, key);
    hide Tokens, PublicKey;
    var ts := PublicKeyTokens(curve, flags, key);
    assert |ts[1].octets| == 10 && |ts[3].octets| == 3 && |ts[5].octets| == 5 && |ts[9].octets| == 5;
    forall i | 0 <= i < 12 ensures !HeadHere(ts[i..], TAG_Q) && !Imitates(ts[i..], TAG_Q) {
      if ts[i].Octets? {
        PlainOctets(ts[i..], TAG_Q);
      } else if ts[i].Open? {
        assert ts[i..][1] == ts[i + 1];
        assert ts[i + 1].octets != [TAG_Q];
      }
    }
    PassOver(ts, TAG_Q, 12);
    assert HeadHere(ts[12..], TAG_Q);
  }

  lemma ComponentOfKey(curve: Bytes, flags: Bytes, key: Bytes)
    ensures ComponentOf(PublicKey(curve, flags, key), TAG_Q) == Found(key)
  {
    var fields := [Named("curve", curve), Named("flags", flags), Labelled(TAG_Q, key)];
    var items := [Atom(Ascii("ecc"))] + fields;
    assert Ecc(curve, flags, key) == List(items);
    assert |Ascii("ecc")| == 3 && |Ascii("public-key")| == 10;
    assert FindHead(fields[2], TAG_Q) == Head([Atom(key)]);
    NamedHasNoHead("curve", curve);
    NamedHasNoHead("flags", flags);
    assert fields[1..][1..] == [fields[2]];
    assert FindHeadAll(fields[1..][1..], TAG_Q) == Head([Atom(key)]);
    assert FindHeadAll(fields[1..], TAG_Q) == Head([Atom(key)]);
    assert FindHeadAll(fields, TAG_Q) == Head([Atom(key)]);
    assert items[1..] == fields;
    assert FindHeadAll(items, TAG_Q) == Head([Atom(key)]);
    var outer := [Atom(Ascii("public-key")), List(items)];
    assert FindHead(List(items), TAG_Q) == Head([Atom(key)]);
    assert outer[1..] == [List(items)];
    assert FindHeadAll(outer[1..], TAG_Q) == Head([Atom(key)]);
    assert FindHeadAll(outer, TAG_Q) == Head([Atom(key)]);
  }

  lemma NamedHasNoHead(name: string, v: Bytes)
    requires |name| > 1 && forall i :: 0 <= i < |name| ==> name[i] as int < 128
    ensures FindHead(Named(name, v), TAG_Q) == NoHead
  {
    var items := [Atom(Ascii(name)), Atom(v)];
    assert items[1..] == [Atom(v)] && items[1..][1..] == [];
    assert FindHeadAll(items[1..][1..], TAG_Q) == NoHead;
    assert FindHeadAll(items[1..], TAG_Q) == NoHead;
    assert FindHeadAll(items, TAG_Q) == NoHead;
  }

  /** Reading a key from end to end, with no condition on the key: whatever its bytes, they come
      back, without the point prefix. */
  lemma KeyReadingReturnsEveryKey(c: Connection, keygrip: Bytes, curve: Bytes, flags: Bytes, key: Bytes,
                                  frames: seq<Frame>, tail: Bytes, rest: Bytes, turns: nat)
    requires OPEN !in curve && OPEN !in flags
    requires |Canonical(PublicKey(curve, flags, key))| < LENGTH_LIMIT
    requires forall i :: 0 <= i < |frames| ==> LegalFrame(frames[i])
    requires Payload(frames) == Canonical(PublicKey(curve, flags, key))
    requires LF !in tail && turns > |frames| && c.writesLeft >= 1 + |Ends(frames)|
    requires c.incoming == Answer(frames) + (OK + tail + [LF] + rest)
    ensures KeyReading(c, keygrip, turns)
         == (Some(Ok(WithoutPointPrefix(key))),
             Connection(rest, c.readFault, c.writesLeft - 1 - |Ends(frames)|, c.cut,
                        c.sent + [ReadKey(keygrip) + [LF]] + Ends(frames)))
  {
    KeyIsReal(curve, flags, key);
    ComponentOfKey(curve, flags, key);
    hide *;
    KeyReadingReturnsKey(c, keygrip, PublicKey(curve, flags, key), key, frames, tail, rest, turns);
  }
}
