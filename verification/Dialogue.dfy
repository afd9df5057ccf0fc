/** The conversations written out: the lines and the S-expressions of gpg-agent as the literal
    texts that pass over the socket, and what `sign` and `readkey` make of them. */
module Dialogue {
  import opened ByteStrings
  import opened Assuan
  import opened Extraction
  import opened SExpression
  import opened Wire
  import opened Signature

  /** What an agent says between a command and its final OK. */
  datatype Line = Data(bytes: Bytes) | Status(text: Bytes) | Comment(text: Bytes) | Inquire(text: Bytes)

  function Written(line: Line): Bytes {
    match line
    case Data(bytes) => Ascii("D ") + Encode(bytes)
    case Status(text) => Ascii("S ") + text
    case Comment(text) => Ascii("# ") + text
    case Inquire(text) => Ascii("INQUIRE ") + text
  }

  function Says(lines: seq<Line>): Bytes {
    if lines == [] then [] else Written(lines[0]) + [10] + Says(lines[1..])
  }

  /** The data in the lines, and how many of them inquire. */
  function Meant(lines: seq<Line>): Bytes {
    if lines == [] then [] else (if lines[0].Data? then lines[0].bytes else []) + Meant(lines[1..])
  }

  function Asking(lines: seq<Line>): nat {
    if lines == [] then 0 else (if lines[0].Inquire? then 1 else 0) + Asking(lines[1..])
  }

  predicate OneLineEach(lines: seq<Line>) {
    forall i :: 0 <= i < |lines| && !lines[i].Data? ==> 10 !in lines[i].text
  }

  function Closings(n: nat): (closings: seq<Bytes>)
    ensures |closings| == n
  {
    seq(n, _ => Ascii("END") + [10])
  }

  function FrameOf(line: Line): Frame {
    if line.Data? then Chunk(Encode(line.bytes), line.bytes) else Other(Written(line))
  }

  function FramesOf(lines: seq<Line>): (frames: seq<Frame>)
    ensures |frames| == |lines|
  {
    if lines == [] then [] else [FrameOf(lines[0])] + FramesOf(lines[1..])
  }

  lemma OtherIsFrame(head: Bytes, text: Bytes)
    requires head != [] && head[|head| - 1] == 32 && 10 !in head && 10 !in text
    requires head[0] != 79 && head[0] != 69 && head[0] != 68
    ensures LegalFrame(Other(head + text)) && head <= Trim(head + text)
  {
    TrimKeepsHead(head, text);
    hide Trim;
    assert Trim(head + text)[0] == head[0];
  }

  lemma InquireInquires(text: Bytes)
    requires Ascii("INQUIRE ") <= Trim(Ascii("INQUIRE ") + text)
    ensures INQUIRE <= Trim(Ascii("INQUIRE ") + text)
  {
    hide Trim;
    var line := Trim(Ascii("INQUIRE ") + text);
    assert line[..8] == Ascii("INQUIRE ") && line[..7] == line[..8][..7] == INQUIRE;
  }

  lemma DataIsFrame(bytes: Bytes)
    ensures LegalFrame(Chunk(Encode(bytes), bytes))
  {
  }

  lemma LineIsFrame(line: Line)
    requires !line.Data? ==> 10 !in line.text
    ensures LegalFrame(FrameOf(line)) && FrameLine(FrameOf(line)) == Written(line)
    ensures FramePayload(FrameOf(line)) == if line.Data? then line.bytes else []
    ensures FrameEnds(FrameOf(line)) == if line.Inquire? then [Ascii("END") + [10]] else []
  {
    hide Trim, Encode, LegalFrame;
    match line
    case Data(bytes) =>
      assert Ascii("D ") == DATA;
      DataIsFrame(bytes);
    case Status(text) => OtherIsFrame(Ascii("S "), text);
    case Comment(text) => OtherIsFrame(Ascii("# "), text);
    case Inquire(text) =>
      OtherIsFrame(Ascii("INQUIRE "), text);
      InquireInquires(text);
      assert Ascii("END") == END;
  }

  lemma {:induction false} LinesAreFrames(lines: seq<Line>)
    requires OneLineEach(lines)
    ensures forall frame :: frame in FramesOf(lines) ==> LegalFrame(frame)
    ensures Answer(FramesOf(lines)) == Says(lines) && Payload(FramesOf(lines)) == Meant(lines)
    ensures Ends(FramesOf(lines)) == Closings(Asking(lines))
  {
    if lines != [] {
      LineIsFrame(lines[0]);
      LinesAreFrames(lines[1..]);
      hide FrameOf, LegalFrame, FrameLine, FramePayload, FrameEnds, Written;
      assert FramesOf(lines)[1..] == FramesOf(lines[1..]);
    }
  }

  // ---- The S-expressions

  lemma ShortAtom(octets: Bytes)
    requires |octets| < 10
    ensures Canonical(Atom(octets)) == [48 + |octets|, 58] + octets
  {
  }

  lemma LongAtom(octets: Bytes)
    requires 10 <= |octets| < 100
    ensures Canonical(Atom(octets)) == [48 + |octets| / 10, 48 + |octets| % 10, 58] + octets
  {
    assert Decimal(|octets| / 10) == [48 + |octets| / 10];
  }

  lemma ListOfTwo(a: Sexp, b: Sexp)
    ensures Canonical(List([a, b])) == [40] + Canonical(a) + Canonical(b) + [41]
  {
    assert [a, b][1..] == [b] && [b][1..] == [];
    assert CanonicalAll([b]) == Canonical(b);
    assert CanonicalAll([a, b]) == Canonical(a) + Canonical(b);
  }

  lemma ListOfThree(a: Sexp, b: Sexp, c: Sexp)
    ensures Canonical(List([a, b, c])) == [40] + Canonical(a) + (Canonical(b) + Canonical(c)) + [41]
  {
    assert [a, b, c][1..] == [b, c] && [b, c][1..] == [c] && [c][1..] == [];
    assert CanonicalAll([c]) == Canonical(c);
    assert CanonicalAll([b, c]) == Canonical(b) + Canonical(c);
    assert [40] + (Canonical(a) + CanonicalAll([b, c])) == [40] + Canonical(a) + CanonicalAll([b, c]);
  }

  /** The pieces of a printed signature, put together. */
  lemma Joined(a: Bytes, b: Bytes, first: Bytes, r: Bytes, second: Bytes, s: Bytes, close: Bytes)
    ensures a + (b + ((first + r + close) + (second + s + close)) + close) + close
         == (a + b + first) + r + (close + second) + s + (close + close + close)
  {
    var x, y := first + r + close, second + s + close;
    assert a + (b + (x + y) + close) + close == (a + b + first) + (r + close + y + close + close);
    assert r + close + y + close + close == r + (close + second) + (s + close + close + close);
  }

  lemma FrontInPrint()
    ensures [40] + ([55, 58] + Ascii("sig-val")) + ([40] + ([53, 58] + Ascii("eddsa"))) + [40, 49, 58, 114, 51, 50, 58]
         == Ascii("(7:sig-val(5:eddsa(1:r32:")
  {
  }

  lemma BackInPrint()
    ensures [41] + [40, 49, 58, 115, 51, 50, 58] == Ascii(")(1:s32:") && [41] + [41] + [41] == Ascii(")))")
  {
  }

  /** A signature as libgcrypt prints it. */
  function PrintedSignature(r: Bytes, s: Bytes): Bytes {
    Ascii("(7:sig-val(5:eddsa(1:r32:") + r + Ascii(")(1:s32:") + s + Ascii(")))")
  }

  lemma SignatureInPrint(r: Bytes, s: Bytes)
    requires |r| == 32 && |s| == 32
    ensures Canonical(SignatureValue(r, s)) == PrintedSignature(r, s)
  {
    var first, second := Labelled(TAG_R, r), Labelled(TAG_S, s);
    LabelledInPrint(TAG_R, r);
    LabelledInPrint(TAG_S, s);
    ShortAtom(Ascii("eddsa"));
    ShortAtom(Ascii("sig-val"));
    ListOfThree(Atom(Ascii("eddsa")), first, second);
    ListOfTwo(Atom(Ascii("sig-val")), List([Atom(Ascii("eddsa")), first, second]));
    FrontInPrint();
    BackInPrint();
    Joined([40] + ([55, 58] + Ascii("sig-val")), [40] + ([53, 58] + Ascii("eddsa")),
           [40, 49, 58, 114, 51, 50, 58], r, [40, 49, 58, 115, 51, 50, 58], s, [41]);
    hide Canonical, CanonicalAll, Labelled, Ascii;
  }

  lemma LabelledInPrint(tag: Byte, v: Bytes)
    requires |v| == 32
    ensures Canonical(Labelled(tag, v)) == [40, 49, 58, tag, 51, 50, 58] + v + [41]
  {
    ListOfTwo(Atom([tag]), Atom(v));
    ShortAtom([tag]);
    LongAtom(v);
  }


  lemma ListOfFour(a: Sexp, b: Sexp, c: Sexp, d: Sexp)
    ensures Canonical(List([a, b, c, d])) == [40] + Canonical(a) + (Canonical(b) + (Canonical(c) + Canonical(d))) + [41]
  {
    assert [a, b, c, d][1..] == [b, c, d] && [b, c, d][1..] == [c, d] && [c, d][1..] == [d] && [d][1..] == [];
    assert CanonicalAll([d]) == Canonical(d);
    assert CanonicalAll([c, d]) == Canonical(c) + Canonical(d);
    assert CanonicalAll([b, c, d]) == Canonical(b) + (Canonical(c) + Canonical(d));
    assert [40] + (Canonical(a) + CanonicalAll([b, c, d])) == [40] + Canonical(a) + CanonicalAll([b, c, d]);
  }

  lemma NamedInPrint(name: string, v: Bytes)
    requires |name| < 10 && |v| < 10 && forall i :: 0 <= i < |name| ==> name[i] as int < 128
    ensures Canonical(Named(name, v)) == [40] + ([48 + |name|, 58] + Ascii(name)) + ([48 + |v|, 58] + v) + [41]
  {
    ListOfTwo(Atom(Ascii(name)), Atom(v));
    ShortAtom(Ascii(name));
    ShortAtom(v);
  }

  lemma CurveInPrint()
    ensures Canonical(Named("curve", Ascii("Ed25519"))) == Ascii("(5:curve7:Ed25519)")
  {
    CurveText();
    hide Canonical, Named, Ascii;
    NamedInPrint("curve", Ascii("Ed25519"));
  }

  lemma CurveText()
    ensures [40] + ([53, 58] + Ascii("curve")) + ([55, 58] + Ascii("Ed25519")) + [41] == Ascii("(5:curve7:Ed25519)")
  {
  }

  lemma FlagsInPrint()
    ensures Canonical(Named("flags", Ascii("eddsa"))) == Ascii("(5:flags5:eddsa)")
  {
    FlagsText();
    hide Canonical, Named, Ascii;
    NamedInPrint("flags", Ascii("eddsa"));
  }

  lemma FlagsText()
    ensures [40] + ([53, 58] + Ascii("flags")) + ([53, 58] + Ascii("eddsa")) + [41] == Ascii("(5:flags5:eddsa)")
  {
  }

  lemma PointInPrint(point: Bytes)
    requires |point| == 32
    ensures Canonical(Labelled(TAG_Q, [0x40] + point)) == Ascii("(1:q33:@") + point + [41]
  {
    ListOfTwo(Atom([TAG_Q]), Atom([0x40] + point));
    ShortAtom([TAG_Q]);
    LongAtom([0x40] + point);
    hide Canonical;
    assert Ascii("(1:q33:@") == [40] + ([49, 58] + [113]) + [51, 51, 58] + [0x40];
  }

  lemma KeyFrontInPrint()
    ensures [40] + ([49, 48, 58] + Ascii("public-key")) + ([40] + ([51, 58] + Ascii("ecc")))
         == Ascii("(10:public-key(3:ecc")
  {
  }

  /** A public key as libgcrypt prints it, the point with the mark of its native form. */
  function PrintedKey(point: Bytes): Bytes {
    Ascii("(10:public-key(3:ecc") + Ascii("(5:curve7:Ed25519)") + Ascii("(5:flags5:eddsa)")
    + (Ascii("(1:q33:@") + point + [41]) + [41] + [41]
  }

  lemma KeyJoined(a: Bytes, b: Bytes, curve: Bytes, flags: Bytes, point: Bytes)
    ensures a + (b + (curve + (flags + point)) + [41]) + [41] == (a + b) + curve + flags + point + [41] + [41]
  {
  }

  lemma EccInPrint(point: Bytes)
    requires |point| == 32
    ensures Canonical(Ecc(Ascii("Ed25519"), Ascii("eddsa"), [0x40] + point))
         == [40] + ([51, 58] + Ascii("ecc"))
            + (Ascii("(5:curve7:Ed25519)") + (Ascii("(5:flags5:eddsa)") + (Ascii("(1:q33:@") + point + [41]))) + [41]
  {
    CurveInPrint();
    FlagsInPrint();
    PointInPrint(point);
    ShortAtom(Ascii("ecc"));
    hide Canonical, CanonicalAll, Ascii, Named, Labelled;
    ListOfFour(Atom(Ascii("ecc")), Named("curve", Ascii("Ed25519")), Named("flags", Ascii("eddsa")),
               Labelled(TAG_Q, [0x40] + point));
  }

  lemma KeyInPrint(point: Bytes)
    requires |point| == 32
    ensures Canonical(PublicKey(Ascii("Ed25519"), Ascii("eddsa"), [0x40] + point)) == PrintedKey(point)
  {
    EccInPrint(point);
    LongAtom(Ascii("public-key"));
    KeyFrontInPrint();
    hide Canonical, CanonicalAll, Ascii, Ecc;
    ListOfTwo(Atom(Ascii("public-key")), Ecc(Ascii("Ed25519"), Ascii("eddsa"), [0x40] + point));
    KeyJoined([40] + ([49, 48, 58] + Ascii("public-key")), [40] + ([51, 58] + Ascii("ecc")),
              Ascii("(5:curve7:Ed25519)"), Ascii("(5:flags5:eddsa)"), Ascii("(1:q33:@") + point + [41]);
  }

  // ---- Whole conversations

  const ACCEPTED: Bytes := [79, 75, 10]     // "OK" and the end of its line

  function SigningCommands(keygrip: Bytes, hash: Bytes): seq<Bytes> {
    [Ascii("SIGKEY ") + keygrip + [10], Ascii("SETHASH --hash=sha256 ") + hash + [10], Ascii("PKSIGN") + [10]]
  }

  const CURVE: Bytes := Ascii("Ed25519")
  const FLAGS: Bytes := Ascii("eddsa")

  function ReadingCommands(keygrip: Bytes): seq<Bytes> {
    [Ascii("READKEY ") + keygrip + [10]]
  }

  lemma CommandsInWords(keygrip: Bytes, hash: Bytes)
    ensures [SigKey(keygrip) + [LF]] + [SetHash(hash) + [LF]] + [PkSign() + [LF]] == SigningCommands(keygrip, hash)
    ensures [ReadKey(keygrip) + [LF]] == ReadingCommands(keygrip)
  {
  }

  lemma AcceptedThrice(text: Bytes, rest: Bytes)
    ensures ACCEPTED + ACCEPTED + text + ACCEPTED + rest
         == OK + [] + [LF] + (OK + [] + [LF] + (text + (OK + [] + [LF] + rest)))
    ensures Acknowledgement([])
  {
    AsciiIsUtf8(OK + [] + [LF]);
    assert ACCEPTED == OK + [] + [LF];
    var closing := ACCEPTED + rest;
    assert ACCEPTED + ACCEPTED + text + ACCEPTED + rest == ACCEPTED + (ACCEPTED + (text + closing));
  }

  lemma AcceptedOnce(text: Bytes, rest: Bytes)
    ensures text + ACCEPTED + rest == text + (OK + [] + [LF] + rest)
  {
    assert ACCEPTED == OK + [] + [LF];
  }

  lemma SigningOnFrames(c: Connection, keygrip: Bytes, hash: Bytes, frames: seq<Frame>, rest: Bytes, turns: nat)
    requires forall i :: 0 <= i < |frames| ==> LegalFrame(frames[i])
    requires turns > |frames| && c.writesLeft >= 3 + |Ends(frames)|
    requires c.incoming == ACCEPTED + ACCEPTED + Answer(frames) + ACCEPTED + rest
    ensures var (answer, c') := Signing(c, keygrip, hash, turns);
      && answer == Some(SignatureBytes(Payload(frames))) && c'.incoming == rest
      && c'.sent == c.sent + SigningCommands(keygrip, hash) + Ends(frames)
  {
    AcceptedThrice(Answer(frames), rest);
    CommandsInWords(keygrip, hash);
    NoTail();
    hide *;
    SigningReadsPayload(c, keygrip, hash, [], [], frames, [], rest, turns);
    assert c.sent + [SigKey(keygrip) + [LF]] + [SetHash(hash) + [LF]] + [PkSign() + [LF]]
        == c.sent + SigningCommands(keygrip, hash);
  }

  lemma NoTail()
    ensures LF !in []
  {
  }

  /** Signing, in words: whatever lines the agent says, if their data is a printed signature whose R
      does not hold the text `(1:s`, the client returns R and S, having sent its three commands and
      one END for each inquiry, and leaves what follows the last OK unread. */
  lemma {:induction false} SigningInWords(c: Connection, keygrip: Bytes, hash: Bytes, lines: seq<Line>,
                                          r: Bytes, s: Bytes, rest: Bytes, turns: nat)
    requires |r| == 32 && |s| == 32 && !Contains(r, [40, 49, 58, 115])
    requires OneLineEach(lines) && turns > |lines| && c.writesLeft >= 3 + Asking(lines)
    requires Meant(lines) == PrintedSignature(r, s)
    requires c.incoming == ACCEPTED + ACCEPTED + Says(lines) + ACCEPTED + rest
    ensures var (answer, c') := Signing(c, keygrip, hash, turns);
      && answer == Some(Ok(r + s)) && c'.incoming == rest
      && c'.sent == c.sent + SigningCommands(keygrip, hash) + Closings(Asking(lines))
  {
    LinesAreFrames(lines);
    SignatureInPrint(r, s);
    NeedleInWords();
    hide *;
    SigningOnFrames(c, keygrip, hash, FramesOf(lines), rest, turns);
    SignatureIsRead(r, s);
  }

  lemma NeedleInWords()
    ensures Needle(TAG_S) == [40, 49, 58, 115]
  {
  }

  lemma KeyReadingOnFrames(c: Connection, keygrip: Bytes, curve: Bytes, flags: Bytes, key: Bytes,
                           frames: seq<Frame>, rest: Bytes, turns: nat)
    requires OPEN !in curve && OPEN !in flags
    requires |Canonical(PublicKey(curve, flags, key))| < LENGTH_LIMIT
    requires forall i :: 0 <= i < |frames| ==> LegalFrame(frames[i])
    requires Payload(frames) == Canonical(PublicKey(curve, flags, key))
    requires turns > |frames| && c.writesLeft >= 1 + |Ends(frames)|
    requires c.incoming == Answer(frames) + ACCEPTED + rest
    ensures var (answer, c') := KeyReading(c, keygrip, turns);
      && answer == Some(Ok(WithoutPointPrefix(key))) && c'.incoming == rest
      && c'.sent == c.sent + ReadingCommands(keygrip) + Ends(frames)
  {
    CommandsInWords(keygrip, []);
    AcceptedOnce(Answer(frames), rest);
    NoTail();
    hide *;
    KeyReadingReturnsEveryKey(c, keygrip, curve, flags, key, frames, [], rest, turns);
  }

  /** Reading a key, in words. */
  lemma {:induction false} KeyReadingInWords(c: Connection, keygrip: Bytes, lines: seq<Line>, point: Bytes,
                                             rest: Bytes, turns: nat)
    requires |point| == 32
    requires OneLineEach(lines) && turns > |lines| && c.writesLeft >= 1 + Asking(lines)
    requires Meant(lines) == PrintedKey(point)
    requires c.incoming == Says(lines) + ACCEPTED + rest
    ensures var (answer, c') := KeyReading(c, keygrip, turns);
      && answer == Some(Ok(point)) && c'.incoming == rest
      && c'.sent == c.sent + ReadingCommands(keygrip) + Closings(Asking(lines))
  {
    hide *;
    LinesAreFrames(lines);
    KeyIsPlain(point);
    PointFromEitherForm(point);
    KeyReadingOnFrames(c, keygrip, CURVE, FLAGS, [0x40] + point, FramesOf(lines), rest, turns);
  }

  lemma KeyIsPlain(point: Bytes)
    requires |point| == 32
    ensures OPEN !in CURVE && OPEN !in FLAGS
    ensures Canonical(PublicKey(CURVE, FLAGS, [0x40] + point)) == PrintedKey(point)
    ensures |PrintedKey(point)| < LENGTH_LIMIT
  {
    KeyInPrint(point);
    hide Canonical, PublicKey;
  }

  // ---- Answers that end the conversation

  /** The error that an answer other than OK stands for. */
  function Complaint(line: Bytes): Error {
    if !ValidUtf8(line + [10]) then ReadFailed else if [69, 82, 82] <= line then Refused else Unexpected
  }

  lemma OrderIsRefused(c: Connection, command: Bytes, line: Bytes, rest: Bytes)
    requires c.writesLeft > 0 && 10 !in line && c.incoming == line + [10] + rest
    requires !([79, 75] <= line && ValidUtf8(line + [10]))
    ensures Order(c, command)
         == (Err(Complaint(line)), Connection(rest, c.readFault, c.writesLeft - 1, c.cut, c.sent + [command + [10]]))
  {
    RawLineIs(Send(c, command).1, line, rest);
    StartOfLine(line);
    hide ValidUtf8, ReadUntilLineEnd;
  }

  /** The first answer that is not an OK ends the signing with an error, and nothing more is sent:
      `ERR` is a refusal, any other text is unexpected, and what is no UTF-8 is a read error. */
  lemma {:induction false} RefusedKeygripEndsSigning(c: Connection, keygrip: Bytes, hash: Bytes, line: Bytes,
                                                     rest: Bytes, turns: nat)
    requires c.writesLeft > 0 && 10 !in line && c.incoming == line + [10] + rest
    requires !([79, 75] <= line && ValidUtf8(line + [10]))
    ensures var (answer, c') := Signing(c, keygrip, hash, turns);
      && answer == Some(Err(Complaint(line)))
      && c'.sent == c.sent + [Ascii("SIGKEY ") + keygrip + [10]] && c'.incoming == rest
  {
    OrderIsRefused(c, SigKey(keygrip), line, rest);
    hide Complaint, Order, Query, Ascii;
  }

  lemma StartOfLine(line: Bytes)
    ensures OK <= line + [10] <==> [79, 75] <= line
    ensures ERR <= line + [10] <==> [69, 82, 82] <= line
  {
    StartsWith(line, [79, 75]);
    StartsWith(line, [69, 82, 82]);
  }

  lemma StartsWith(line: Bytes, head: Bytes)
    requires 10 !in head
    ensures head <= line + [10] <==> head <= line
  {
    var whole := line + [10];
    assert whole[|line|] == 10;
    if head <= whole {
      assert forall i :: 0 <= i < |head| ==> head[i] == whole[i];
      assert head == line[..|head|];
    }
  }

  /** So does a stream that has ended, and one that breaks before the end of a line, whatever of the
      line has arrived. */
  lemma SilenceEndsSigning(c: Connection, keygrip: Bytes, hash: Bytes, turns: nat)
    requires c.writesLeft > 0 && 10 !in c.incoming && (c.readFault || c.incoming == [])
    ensures var (answer, c') := Signing(c, keygrip, hash, turns);
      && answer == Some(Err(if c.readFault then ReadFailed else Unexpected))
      && c'.sent == c.sent + [Ascii("SIGKEY ") + keygrip + [10]]
  {
    hide ReadLoop, Query;
  }

  /** The same one command later. */
  lemma {:induction false} RefusedDigestEndsSigning(c: Connection, keygrip: Bytes, hash: Bytes, line: Bytes,
                                                    rest: Bytes, turns: nat)
    requires c.writesLeft > 1 && 10 !in line && c.incoming == ACCEPTED + (line + [10] + rest)
    requires !([79, 75] <= line && ValidUtf8(line + [10]))
    ensures var (answer, c') := Signing(c, keygrip, hash, turns);
      && answer == Some(Err(Complaint(line)))
      && c'.sent == c.sent + SigningCommands(keygrip, hash)[..2] && c'.incoming == rest
  {
    AcceptedOnce([], line + [10] + rest);
    AcceptedThrice([], []);
    FirstTwoCommands(c.sent, keygrip, hash);
    hide Complaint, Order, Query, SigKey, SetHash, SigningCommands, Acknowledgement;
    var behind := line + [10] + rest;
    assert [] + ACCEPTED + behind == ACCEPTED + behind && [] + (OK + [] + [LF] + behind) == OK + [] + [LF] + behind;
    OrderIsAcknowledged(c, SigKey(keygrip), [], behind);
    OrderIsRefused(Order(c, SigKey(keygrip)).1, SetHash(hash), line, rest);
  }

  lemma FirstTwoCommands(sent: seq<Bytes>, keygrip: Bytes, hash: Bytes)
    ensures sent + [SigKey(keygrip) + [LF]] + [SetHash(hash) + [LF]] == sent + SigningCommands(keygrip, hash)[..2]
  {
    var commands := SigningCommands(keygrip, hash);
    assert commands[..2] == [SigKey(keygrip) + [LF]] + [SetHash(hash) + [LF]];
  }

  /** An answer that lacks a component is an error that names it: its opening stands nowhere. */
  lemma MissingComponentIsNamed(data: Bytes)
    ensures !Contains(data, Ascii("(1:r")) ==> SignatureBytes(data) == Err(MissingComponent('r' as int))
    ensures Extract(data, 'r' as int).Found? && !Contains(data, Ascii("(1:s")) ==>
              SignatureBytes(data) == Err(MissingComponent('s' as int))
    ensures !Contains(data, Ascii("(1:q")) ==> KeyBytes(data) == Err(MissingComponent('q' as int))
  {
    OpeningsInWords();
    NoOpening(data, 'r' as int);
    NoOpening(data, 's' as int);
    NoOpening(data, 'q' as int);
    hide Contains, Extract, Ascii, Needle;
  }

  /** A length that leaves the machine range is a panic of the blocking task, which is an error too. */
  lemma OversizedComponentIsAnError(data: Bytes)
    ensures (exists at: nat, digits :: Overflows(data, 114, at, digits)) ==> SignatureBytes(data) == Err(TaskPanicked)
    ensures Extract(data, 114).Found? && (exists at: nat, digits :: Overflows(data, 115, at, digits)) ==>
              SignatureBytes(data) == Err(TaskPanicked)
    ensures (exists at: nat, digits :: Overflows(data, 113, at, digits)) ==> KeyBytes(data) == Err(TaskPanicked)
  {
    ExtractPanics(data, 114);
    ExtractPanics(data, 115);
    ExtractPanics(data, 113);
    hide Extract, Overflows;
  }

  lemma OpeningsInWords()
    ensures Ascii("(1:r") == Needle('r' as int) && Ascii("(1:s") == Needle('s' as int)
    ensures Ascii("(1:q") == Needle('q' as int)
  {
  }

  lemma NoOpening(data: Bytes, tag: Byte)
    ensures !Contains(data, Needle(tag)) ==> Extract(data, tag) == Missing
  {
    FirstMatchIsLeftmost(data, Needle(tag));
  }

  /** `v` stands behind the first opening of the component in `data`, as its length says. */
  ghost predicate Reads(data: Bytes, tag: Byte, v: Bytes) {
    exists at: nat, digits :: StandsAs(data, tag, at, digits, v)
  }

  lemma ReadsExactly(data: Bytes, tag: Byte)
    requires |data| < LENGTH_LIMIT
    ensures forall v :: Reads(data, tag, v) <==> Extract(data, tag) == Found(v)
  {
    forall v ensures Reads(data, tag, v) <==> Extract(data, tag) == Found(v) {
      ExtractFinds(data, tag, v);
    }
  }

  /** What is returned is R and S where they stand, and nothing else is. */
  lemma SignatureStands(data: Bytes, signature: Bytes)
    requires |data| < LENGTH_LIMIT
    ensures SignatureBytes(data) == Ok(signature)
       <==> exists r, s :: Reads(data, 'r' as int, r) && Reads(data, 's' as int, s) && signature == r + s
  {
    ReadsExactly(data, 'r' as int);
    ReadsExactly(data, 's' as int);
    hide Reads;
    var r, s := Extract(data, TAG_R), Extract(data, TAG_S);
    hide Extract;
    if r.Found? && s.Found? {
      assert Reads(data, 'r' as int, r.value) && Reads(data, 's' as int, s.value);
    }
  }
}
