/** The client side of the Assuan conversation as functions on the state of the connection
    (src/gpg_agent.rs, `GpgAgent`). */
module Wire {
  import opened ByteStrings
  import opened Assuan
  import opened Extraction

  datatype Error =
    | ReadFailed
    | WriteFailed
    | Refused                       // the agent answered ERR
    | Unexpected                    // neither OK nor ERR where OK was due
    | MissingComponent(tag: Byte)
    | TaskPanicked                  // the blocking task did not join

  datatype Result<+T> = Ok(value: T) | Err(error: Error)

  const DATA: Bytes := [68, 32]                            // "D "
  const OK: Bytes := [79, 75]                              // "OK"
  const ERR: Bytes := [69, 82, 82]                         // "ERR"
  const INQUIRE: Bytes := [73, 78, 81, 85, 73, 82, 69]     // "INQUIRE"
  const END: Bytes := [69, 78, 68]                         // "END"

  /** What the client can still read and write, and what it has written. After `incoming` the
      stream is at its end, or broken if `readFault`; writing works `writesLeft` more times, and of
      a command that fails the first `cut` bytes still get through. */
  datatype Connection = Connection(incoming: Bytes, readFault: bool, writesLeft: nat, cut: nat, sent: seq<Bytes>)

  /** The length of the first line with its terminator, if it has one. */
  function LineLength(s: Bytes): (n: nat)
    ensures n <= |s|
    ensures s != [] ==> n > 0
  {
    if s == [] then 0 else if s[0] == LF then 1 else 1 + LineLength(s[1..])
  }

  function Trim(line: Bytes): Bytes {
    if line != [] && (line[|line| - 1] == LF || line[|line| - 1] == CR) then Trim(line[..|line| - 1]) else line
  }

  /** `read_until(b'\n')`: a fault before the terminator loses what was read. */
  function ReadUntilLineEnd(c: Connection): (Result<Bytes>, Connection) {
    var n := LineLength(c.incoming);
    if c.readFault && LF !in c.incoming then (Err(ReadFailed), c.(incoming := []))
    else (Ok(c.incoming[..n]), c.(incoming := c.incoming[n..]))
  }

  function ReadRaw(c: Connection): (Result<Bytes>, Connection) {
    var (line, c') := ReadUntilLineEnd(c);
    match line
    case Ok(raw) => (Ok(Trim(raw)), c')
    case Err(e) => (Err(e), c')
  }

  /** The part of a command that a failing write leaves on the wire: never the whole line. */
  function Torn(c: Connection, command: Bytes): (part: Bytes)
    ensures part <= command
    ensures |part| == if c.cut < |command| then c.cut else |command|
  {
    command[..if c.cut < |command| then c.cut else |command|]
  }

  function Send(c: Connection, command: Bytes): (Result<()>, Connection) {
    if c.writesLeft == 0 then (Err(WriteFailed), c.(sent := c.sent + [Torn(c, command)]))
    else (Ok(()), c.(writesLeft := c.writesLeft - 1, sent := c.sent + [command + [LF]]))
  }

  /** `read_line` also insists on UTF-8; the trimming it is followed by cannot touch an `OK`. */
  function Acknowledged(c: Connection): (Result<()>, Connection) {
    var (line, c') := ReadUntilLineEnd(c);
    match line
    case Err(e) => (Err(e), c')
    case Ok(raw) =>
      if !ValidUtf8(raw) then (Err(ReadFailed), c')
      else if OK <= raw then (Ok(()), c')
      else if ERR <= raw then (Err(Refused), c')
      else (Err(Unexpected), c')
  }

  datatype Reading =
    | Running(c: Connection, data: Bytes)
    | Finished(c: Connection, result: Result<Bytes>)

  /** One turn of the reading loop. */
  function ReadTurn(c: Connection, data: Bytes): Reading {
    var (line, c') := ReadRaw(c);
    match line
    case Err(e) => Finished(c', Err(e))
    case Ok(raw) =>
      if DATA <= raw then Running(c', data + Decode(raw[2..]))
      else if OK <= raw then Finished(c', Ok(data))
      else if ERR <= raw then Finished(c', Err(Refused))
      else if INQUIRE <= raw then
        var (written, c'') := Send(c', END);
        if written.Err? then Finished(c'', Err(WriteFailed)) else Running(c'', data)
      else Running(c', data)
  }

  /** The loop after at most `turns` turns. */
  function ReadLoop(c: Connection, data: Bytes, turns: nat): Reading
    decreases turns
  {
    if turns == 0 then Running(c, data)
    else match ReadTurn(c, data)
      case Running(c', data') => ReadLoop(c', data', turns - 1)
      case finished => finished
  }

  function SignatureBytes(data: Bytes): Result<Bytes> {
    match Extract(data, TAG_R)
    case Missing => Err(MissingComponent(TAG_R))
    case Panicked => Err(TaskPanicked)
    case Found(r) =>
      match Extract(data, TAG_S)
      case Missing => Err(MissingComponent(TAG_S))
      case Panicked => Err(TaskPanicked)
      case Found(s) => Ok(r + s)
  }

  function KeyBytes(data: Bytes): Result<Bytes> {
    match ExtractKey(data)
    case Missing => Err(MissingComponent(TAG_Q))
    case Panicked => Err(TaskPanicked)
    case Found(key) => Ok(key)
  }

  /** A command that the agent has to acknowledge. */
  function Order(c: Connection, command: Bytes): (Result<()>, Connection) {
    var (written, c') := Send(c, command);
    if written.Err? then (written, c') else Acknowledged(c')
  }

  /** A command that the agent answers with data, read by `interpret`; `None` while the answer
      is still being read after `turns` turns. */
  function Query(c: Connection, command: Bytes, turns: nat): (Option<Result<Bytes>>, Connection) {
    var (written, c') := Send(c, command);
    if written.Err? then (Some(Err(WriteFailed)), c')
    else match ReadLoop(c', [], turns)
      case Running(c'', _) => (None, c'')
      case Finished(c'', result) => (Some(result), c'')
  }

  function SigKey(keygrip: Bytes): Bytes { Ascii("SIGKEY ") + keygrip }
  function SetHash(hash: Bytes): Bytes { Ascii("SETHASH --hash=sha256 ") + hash }
  function PkSign(): Bytes { Ascii("PKSIGN") }
  function ReadKey(keygrip: Bytes): Bytes { Ascii("READKEY ") + keygrip }

  /** Signing, with the three commands in order. */
  function Signing(c: Connection, keygrip: Bytes, hash: Bytes, turns: nat): (Option<Result<Bytes>>, Connection) {
    var (key, c1) := Order(c, SigKey(keygrip));
    if key.Err? then (Some(Err(key.error)), c1)
    else
      var (digest, c2) := Order(c1, SetHash(hash));
      if digest.Err? then (Some(Err(digest.error)), c2)
      else
        var (answer, c3) := Query(c2, PkSign(), turns);
        if answer.Some? && answer.value.Ok? then (Some(SignatureBytes(answer.value.value)), c3)
        else (answer, c3)
  }

  function KeyReading(c: Connection, keygrip: Bytes, turns: nat): (Option<Result<Bytes>>, Connection) {
    var (answer, c') := Query(c, ReadKey(keygrip), turns);
    if answer.Some? && answer.value.Ok? then (Some(KeyBytes(answer.value.value)), c')
    else (answer, c')
  }

  // ---- Lines

  /** A line goes up to its first line end, or to the end of the stream. */
  lemma {:induction false} LineLengthExactly(s: Bytes)
    ensures var n := LineLength(s);
      if 10 in s then n > 0 && s[n - 1] == 10 && 10 !in s[..n - 1] else n == |s|
  {
    if s != [] && s[0] != 10 {
      LineLengthExactly(s[1..]);
      var n := LineLength(s);
      assert 10 in s <==> 10 in s[1..] by { assert s == [s[0]] + s[1..]; }
      if 10 in s {
        assert s[..n - 1] == [s[0]] + s[1..][..n - 2];
      }
    }
  }

  /** Trimming takes off every CR and LF at the end and nothing else. */
  lemma {:induction false} TrimExactly(line: Bytes)
    ensures var n := |Trim(line)|;
      && n <= |line| && Trim(line) == line[..n]
      && (n > 0 ==> line[n - 1] != 10 && line[n - 1] != 13)
      && forall i :: n <= i < |line| ==> line[i] == 10 || line[i] == 13
  {
    if line != [] && (line[|line| - 1] == 10 || line[|line| - 1] == 13) {
      TrimExactly(line[..|line| - 1]);
    }
  }

  // ---- Termination of the reading loop

  predicate Terminator(line: Bytes) {
    OK <= line || ERR <= line
  }

  /** Some line of the stream starts with OK or ERR. */
  predicate HasTerminator(s: Bytes) {
    s != [] && (Terminator(Trim(s[..LineLength(s)])) || HasTerminator(s[LineLength(s)..]))
  }

  /** The lines in front of it: the measure of the loop. */
  function LinesBefore(s: Bytes): nat {
    if s == [] || Terminator(Trim(s[..LineLength(s)])) then 0 else 1 + LinesBefore(s[LineLength(s)..])
  }

  /** What one line that is no terminator adds to the data and to the ENDs. */
  function Added(line: Bytes): Bytes {
    if DATA <= line then Decode(line[2..]) else []
  }

  function EndsOn(line: Bytes): nat {
    if INQUIRE <= line then 1 else 0
  }

  /** The INQUIRE lines in front of it. */
  function Inquiries(s: Bytes): nat {
    if s == [] || Terminator(Trim(s[..LineLength(s)])) then 0
    else EndsOn(Trim(s[..LineLength(s)])) + Inquiries(s[LineLength(s)..])
  }

  lemma TurnWithoutFaults(c: Connection, data: Bytes)
    requires !c.readFault && c.writesLeft >= Inquiries(c.incoming)
    ensures c.incoming == [] ==> ReadTurn(c, data) == Running(c, data)
    ensures var n := LineLength(c.incoming);
            c.incoming != [] ==>
              if Terminator(Trim(c.incoming[..n])) then ReadTurn(c, data).Finished?
              else match ReadTurn(c, data)
                   case Running(c', _) =>
                     !c'.readFault && c'.incoming == c.incoming[n..] && c'.writesLeft >= Inquiries(c'.incoming)
                   case Finished(_, _) => false
  {
    var line := Trim(c.incoming[..LineLength(c.incoming)]);
    assert c.incoming == [] ==> line == [] && c.incoming[LineLength(c.incoming)..] == [];
    assert Terminator(line) ==> line[0] != DATA[0];
    assert INQUIRE <= line ==> line[0] != DATA[0] && line[0] != OK[0] && line[0] != ERR[0];
  }

  /** Without faults, the loop leaves exactly when the stream has a terminator line, right after
      it; at the end of a stream without one it turns for ever. */
  lemma {:induction false} LoopLeavesAtTerminator(c: Connection, data: Bytes, turns: nat)
    requires !c.readFault && c.writesLeft >= Inquiries(c.incoming)
    ensures ReadLoop(c, data, turns).Finished? <==> HasTerminator(c.incoming) && turns > LinesBefore(c.incoming)
    decreases turns
  {
    if turns > 0 {
      TurnWithoutFaults(c, data);
      match ReadTurn(c, data)
      case Running(c', data') => LoopLeavesAtTerminator(c', data', turns - 1);
      case Finished(_, _) =>
    }
  }

  /** What the data lines in front of the terminator decode to. */
  function Collected(s: Bytes): Bytes {
    if s == [] || Terminator(Trim(s[..LineLength(s)])) then []
    else
      var line := Trim(s[..LineLength(s)]);
      Added(line) + Collected(s[LineLength(s)..])
  }

  /** The terminator is OK, not ERR. */
  predicate EndsWell(s: Bytes) {
    s != [] && var line := Trim(s[..LineLength(s)]);
      if Terminator(line) then OK <= line else EndsWell(s[LineLength(s)..])
  }

  /** What stands behind the terminator line. */
  function Behind(s: Bytes): Bytes {
    if s == [] then [] else if Terminator(Trim(s[..LineLength(s)])) then s[LineLength(s)..]
        else Behind(s[LineLength(s)..])
  }

  function EndLines(n: nat): (ends: seq<Bytes>)
    ensures |ends| == n
  {
    seq(n, _ => END + [LF])
  }

  lemma TurnOnLine(c: Connection, data: Bytes)
    requires !c.readFault && c.incoming != [] && c.writesLeft >= Inquiries(c.incoming)
    ensures var n := LineLength(c.incoming);
            var line := Trim(c.incoming[..n]);
            ReadTurn(c, data)
            == if Terminator(line)
                then Finished(c.(incoming := c.incoming[n..]), if OK <= line then Ok(data) else Err(Refused))
               else Running(Connection(c.incoming[n..], false, c.writesLeft - EndsOn(line), c.cut,
                                       c.sent + EndLines(EndsOn(line))),
                            data + Added(line))
  {
    var line := Trim(c.incoming[..LineLength(c.incoming)]);
    assert Terminator(line) ==> line[0] != DATA[0];
    assert INQUIRE <= line ==> line[0] != DATA[0] && line[0] != OK[0] && line[0] != ERR[0];
    assert OK <= line ==> line[0] != ERR[0];
    assert data + [] == data && c.sent + EndLines(0) == c.sent && EndLines(1) == [END + [LF]];
  }

  lemma NextLine(s: Bytes)
    requires s != [] && !Terminator(Trim(s[..LineLength(s)]))
    ensures var line := Trim(s[..LineLength(s)]);
            var rest := s[LineLength(s)..];
            && HasTerminator(s) == HasTerminator(rest) && EndsWell(s) == EndsWell(rest) && Behind(s) == Behind(rest)
            && LinesBefore(s) == 1 + LinesBefore(rest)
            && Inquiries(s) == EndsOn(line) + Inquiries(rest)
            && Collected(s) == Added(line) + Collected(rest)
  {
  }

  /** A turn that goes on, in front of a run that ends. */
  lemma TurnThenEnd(c: Connection, data: Bytes, turns: nat, next: Connection, added: Bytes, ends: nat,
                    behind: Bytes, more: Bytes, later: nat, well: bool)
    requires turns > 0 && ends + later <= c.writesLeft
    requires next.writesLeft == c.writesLeft - ends && next.cut == c.cut && next.sent == c.sent + EndLines(ends)
    requires ReadTurn(c, data) == Running(next, data + added)
    requires ReadLoop(next, data + added, turns - 1)
          == Finished(Connection(behind, false, next.writesLeft - later, next.cut, next.sent + EndLines(later)),
                      if well then Ok(data + added + more) else Err(Refused))
    ensures ReadLoop(c, data, turns)
         == Finished(Connection(behind, false, c.writesLeft - (ends + later), c.cut, c.sent + EndLines(ends + later)),
                     if well then Ok(data + (added + more)) else Err(Refused))
  {
    hide ReadLoop, ReadTurn;
    LoopTurns(c, data, turns);
    assert data + added + more == data + (added + more);
    assert c.sent + EndLines(ends) + EndLines(later) == c.sent + EndLines(ends + later);
  }

  /** What the loop makes of any stream with a terminator, well framed or not: the decoded data
      lines in front of it or the refusal, one END for each INQUIRE line in front of it, and
      everything behind it unread. */
  lemma {:induction false} LoopReadsUpToTerminator(c: Connection, data: Bytes, turns: nat)
    requires !c.readFault && c.writesLeft >= Inquiries(c.incoming)
    requires HasTerminator(c.incoming) && turns > LinesBefore(c.incoming)
    ensures var n := Inquiries(c.incoming);
            ReadLoop(c, data, turns)
            == Finished(Connection(Behind(c.incoming), false, c.writesLeft - n, c.cut, c.sent + EndLines(n)),
                        if EndsWell(c.incoming) then Ok(data + Collected(c.incoming)) else Err(Refused))
    decreases turns
  {
    TurnOnLine(c, data);
    var s, k := c.incoming, LineLength(c.incoming);
    var line := Trim(s[..k]);
    if Terminator(line) {
      LoopLeaves(c, data, turns);
      assert c.sent + EndLines(0) == c.sent && data + [] == data;
    } else {
      NextLine(s);
      hide *;
      var next := ReadTurn(c, data).c;
      LoopReadsUpToTerminator(next, data + Added(line), turns - 1);
      TurnThenEnd(c, data, turns, next, Added(line), EndsOn(line), Behind(s), Collected(s[k..]), Inquiries(s[k..]),
                  EndsWell(s));
    }
  }

  // ---- Framing of a data response

  /** One line of an answer: an encoded chunk of data, or anything else that is not a
      terminator (status, comment, INQUIRE, ...). */
  datatype Frame = Chunk(encoded: Bytes, decoded: Bytes) | Other(line: Bytes)

  predicate LegalFrame(f: Frame) {
    match f
    case Chunk(encoded, decoded) => Encodes(encoded, decoded)
    case Other(line) => LF !in line && !Terminator(Trim(line)) && !(DATA <= Trim(line))
  }

  function FrameLine(f: Frame): Bytes {
    match f
    case Chunk(encoded, _) => DATA + encoded
    case Other(line) => line
  }

  function Answer(frames: seq<Frame>): Bytes {
    if frames == [] then [] else FrameLine(frames[0]) + [LF] + Answer(frames[1..])
  }

  function FramePayload(f: Frame): Bytes {
    if f.Chunk? then f.decoded else []
  }

  function Payload(frames: seq<Frame>): Bytes {
    if frames == [] then [] else FramePayload(frames[0]) + Payload(frames[1..])
  }

  /** The END that an INQUIRE line provokes. */
  function FrameEnds(f: Frame): seq<Bytes> {
    if f.Other? && INQUIRE <= Trim(f.line) then [END + [LF]] else []
  }

  function Ends(frames: seq<Frame>): (ends: seq<Bytes>)
    ensures forall i :: 0 <= i < |ends| ==> ends[i] == END + [LF]
  {
    if frames == [] then [] else FrameEnds(frames[0]) + Ends(frames[1..])
  }

  lemma {:induction false} LineIsRead(line: Bytes, rest: Bytes)
    requires LF !in line
    ensures LineLength(line + [LF] + rest) == |line| + 1
  {
    var s := line + [LF] + rest;
    if line != [] {
      assert s[0] == line[0];
      assert s[1..] == line[1..] + [LF] + rest;
      LineIsRead(line[1..], rest);
    }
  }

  lemma TrimDropsTerminator(line: Bytes)
    ensures Trim(line + [LF]) == Trim(line)
  {
    assert (line + [LF])[..|line|] == line;
  }

  /** Reading one complete line. */
  lemma RawLineIs(c: Connection, line: Bytes, rest: Bytes)
    requires LF !in line && c.incoming == line + [LF] + rest
    ensures ReadUntilLineEnd(c) == (Ok(line + [LF]), c.(incoming := rest))
    ensures ReadRaw(c) == (Ok(Trim(line)), c.(incoming := rest))
  {
    LineIsRead(line, rest);
    TrimDropsTerminator(line);
    assert c.incoming[|line|] == LF;
    assert c.incoming[..|line| + 1] == line + [LF];
  }

  /** A data line is trimmed to itself, so even an empty chunk keeps its `D `. */
  lemma ChunkLine(encoded: Bytes, decoded: Bytes)
    requires Encodes(encoded, decoded)
    ensures LF !in DATA + encoded && Trim(DATA + encoded) == DATA + encoded
    ensures (DATA + encoded)[2..] == encoded
  {
    EncodingsHaveNoLineEnd(encoded, decoded);
    var line := DATA + encoded;
    assert encoded != [] ==> line[|line| - 1] == encoded[|encoded| - 1];
  }

  /** A legal answer as the bytes that arrive: as many lines before the terminator as frames, as
      many of them INQUIRE lines as ENDs provoked, and the payload in the data lines. */
  lemma {:induction false} AnswerAsLines(frames: seq<Frame>, okTail: Bytes, rest: Bytes)
    requires forall i :: 0 <= i < |frames| ==> LegalFrame(frames[i])
    requires LF !in okTail
    ensures var s := Answer(frames) + (OK + okTail + [LF] + rest);
            && HasTerminator(s) && EndsWell(s) && Behind(s) == rest
            && LinesBefore(s) == |frames|
            && Inquiries(s) == |Ends(frames)|
            && Collected(s) == Payload(frames)
  {
    var closing := OK + okTail + [LF] + rest;
    var s := Answer(frames) + closing;
    if frames == [] {
      assert s == closing;
      TerminatorLine(okTail, rest);
    } else {
      var f, others := frames[0], frames[1..];
      AnswerAsLines(others, okTail, rest);
      Regroup(FrameLine(f), Answer(others), closing);
      FrameAsLine(f, Answer(others) + closing);
      hide Trim, LineLength, Decode, Encodes, FrameLine, LegalFrame;
      NextLine(s);
    }
  }

  lemma TerminatorLine(okTail: Bytes, rest: Bytes)
    requires LF !in okTail
    ensures var s := OK + okTail + [LF] + rest;
            && OK <= Trim(s[..LineLength(s)]) && s[LineLength(s)..] == rest
  {
    LineIsRead(OK + okTail, rest);
    var s := OK + okTail + [LF] + rest;
    assert s[..|OK + okTail| + 1] == OK + okTail + [LF];
    TrimDropsTerminator(OK + okTail);
    TrimKeepsHead(OK, okTail);
  }

  lemma FrameAsLine(f: Frame, rest: Bytes)
    requires LegalFrame(f)
    ensures var s := FrameLine(f) + [LF] + rest;
            var line := Trim(s[..LineLength(s)]);
            && s[LineLength(s)..] == rest && !Terminator(line)
            && EndsOn(line) == |FrameEnds(f)| && Added(line) == FramePayload(f)
  {
    if f.Chunk? {
      ChunkLine(f.encoded, f.decoded);
      DecodeInvertsEncodings(f.encoded, f.decoded);
    }
    var s := FrameLine(f) + [LF] + rest;
    LineIsRead(FrameLine(f), rest);
    assert s[..|FrameLine(f)| + 1] == FrameLine(f) + [LF];
    TrimDropsTerminator(FrameLine(f));
    assert f.Chunk? ==> Trim(FrameLine(f))[0] == DATA[0];
  }

  /** The connection once everything up to `rest` is consumed and `ends` are sent. */
  function After(c: Connection, ends: seq<Bytes>, rest: Bytes): Connection
    requires c.writesLeft >= |ends|
  {
    c.(incoming := rest, writesLeft := c.writesLeft - |ends|, sent := c.sent + ends)
  }

  /** One turn on a legal frame. */
  lemma TurnOnFrame(c: Connection, data: Bytes, f: Frame, rest: Bytes)
    requires LegalFrame(f) && c.incoming == FrameLine(f) + [LF] + rest
    requires c.writesLeft >= |FrameEnds(f)|
    ensures ReadTurn(c, data) == Running(After(c, FrameEnds(f), rest), data + FramePayload(f))
  {
    assert c.sent + [] == c.sent && data + [] == data;
    match f
    case Chunk(encoded, decoded) =>
      ChunkLine(encoded, decoded);
      RawLineIs(c, FrameLine(f), rest);
      DecodeInvertsEncodings(encoded, decoded);
    case Other(line) =>
      RawLineIs(c, line, rest);
  }

  lemma LoopTurns(c: Connection, data: Bytes, turns: nat)
    requires ReadTurn(c, data).Running? && turns > 0
    ensures ReadLoop(c, data, turns) == ReadLoop(ReadTurn(c, data).c, ReadTurn(c, data).data, turns - 1)
  {
  }

  lemma LoopLeaves(c: Connection, data: Bytes, turns: nat)
    requires ReadTurn(c, data).Finished? && turns > 0
    ensures ReadLoop(c, data, turns) == ReadTurn(c, data)
  {
  }

  lemma LoopPauses(c: Connection, data: Bytes)
    ensures ReadLoop(c, data, 0) == Running(c, data)
  {
  }

  /** What the next line does to the loop, case by case. */
  lemma LoopGoesByLine(c: Connection, data: Bytes, turns: nat)
    requires turns > 0
    ensures var (line, c') := ReadRaw(c);
            var loop := ReadLoop(c, data, turns);
            match line
            case Err(e) => loop == Finished(c', Err(e))
            case Ok(raw) =>
              if DATA <= raw then loop == ReadLoop(c', data + Decode(raw[2..]), turns - 1)
              else if OK <= raw then loop == Finished(c', Ok(data))
              else if ERR <= raw then loop == Finished(c', Err(Refused))
              else if INQUIRE <= raw then
                var (written, c'') := Send(c', END);
                loop == if written.Err? then Finished(c'', Err(WriteFailed)) else ReadLoop(c'', data, turns - 1)
              else loop == ReadLoop(c', data, turns - 1)
  {
    hide ReadRaw, Send, Decode;
  }

  lemma AfterTwice(c: Connection, ends: seq<Bytes>, behind: Bytes, ends': seq<Bytes>, behind': Bytes)
    requires c.writesLeft >= |ends + ends'|
    ensures After(After(c, ends, behind), ends', behind') == After(c, ends + ends', behind')
  {
    assert c.sent + ends + ends' == c.sent + (ends + ends');
  }

  /** A turn in front of a run that ends well. */
  lemma TurnThenLoop(c: Connection, data: Bytes, turns: nat,
                     ends: seq<Bytes>, behind: Bytes, payload: Bytes,
                     ends': seq<Bytes>, behind': Bytes, payload': Bytes)
    requires turns > 0 && c.writesLeft >= |ends + ends'|
    requires ReadTurn(c, data) == Running(After(c, ends, behind), data + payload)
    requires ReadLoop(After(c, ends, behind), data + payload, turns - 1)
          == Finished(After(After(c, ends, behind), ends', behind'), Ok(data + payload + payload'))
    ensures ReadLoop(c, data, turns) == Finished(After(c, ends + ends', behind'), Ok(data + (payload + payload')))
  {
    hide ReadLoop, ReadTurn;
    AfterTwice(c, ends, behind, ends', behind');
    LoopTurns(c, data, turns);
    assert data + payload + payload' == data + (payload + payload');
  }

  /** A stream `closing` on which the next turn ends the loop well, in front of `rest`. */
  ghost predicate Closes(closing: Bytes, rest: Bytes) {
    forall c: Connection, data: Bytes :: c.incoming == closing ==>
      ReadTurn(c, data) == Finished(c.(incoming := rest), Ok(data))
  }

  lemma {:induction false} AnswerIsReadUpTo(c: Connection, data: Bytes, frames: seq<Frame>, closing: Bytes,
                                            rest: Bytes, turns: nat)
    requires forall i :: 0 <= i < |frames| ==> LegalFrame(frames[i])
    requires Closes(closing, rest) && turns > |frames|
    requires c.incoming == Answer(frames) + closing
    requires c.writesLeft >= |Ends(frames)|
    ensures ReadLoop(c, data, turns) == Finished(After(c, Ends(frames), rest), Ok(data + Payload(frames)))
    decreases |frames|
  {
    hide ReadTurn;
    if frames == [] {
      ClosingIsRead(c, data, closing, rest, turns);
    } else {
      var f, others := frames[0], frames[1..];
      var behind := Answer(others) + closing;
      Regroup(FrameLine(f), Answer(others), closing);
      TurnOnFrame(c, data, f, behind);
      AnswerIsReadUpTo(After(c, FrameEnds(f), behind), data + FramePayload(f), others, closing, rest, turns - 1);
      TurnThenLoop(c, data, turns, FrameEnds(f), behind, FramePayload(f), Ends(others), rest, Payload(others));
    }
  }

  lemma ClosingIsRead(c: Connection, data: Bytes, closing: Bytes, rest: Bytes, turns: nat)
    requires Closes(closing, rest) && turns > 0
    requires c.incoming == [] + closing
    ensures ReadLoop(c, data, turns) == Finished(After(c, [], rest), Ok(data + []))
  {
    assert c.incoming == closing;
    LoopLeaves(c, data, turns);
    assert c.sent + [] == c.sent && data + [] == data;
  }

  /** Every legal answer is read back exactly: the payload is intact, each INQUIRE got its END
      and nothing behind the final OK line is consumed. */
  lemma AnswerIsReadBack(c: Connection, frames: seq<Frame>, okTail: Bytes, rest: Bytes, turns: nat)
    requires forall i :: 0 <= i < |frames| ==> LegalFrame(frames[i])
    requires LF !in okTail && turns > |frames|
    requires c.incoming == Answer(frames) + (OK + okTail + [LF] + rest)
    requires c.writesLeft >= |Ends(frames)|
    ensures ReadLoop(c, [], turns) == Finished(After(c, Ends(frames), rest), Ok(Payload(frames)))
    ensures |Ends(frames)| == Inquiries(c.incoming) && |frames| == LinesBefore(c.incoming)
  {
    hide *;
    AnswerAsLines(frames, okTail, rest);
    var closing := OK + okTail + [LF] + rest;
    OkCloses(closing, okTail, rest);
    AnswerIsReadUpTo(c, [], frames, closing, rest, turns);
    assert [] + Payload(frames) == Payload(frames);
  }

  lemma OkCloses(closing: Bytes, okTail: Bytes, rest: Bytes)
    requires LF !in okTail && closing == OK + okTail + [LF] + rest
    ensures Closes(closing, rest)
  {
    forall c: Connection, data: Bytes | c.incoming == closing
      ensures ReadTurn(c, data) == Finished(c.(incoming := rest), Ok(data))
    {
      OkLine(c, data, okTail, rest);
    }
  }

  lemma Regroup(line: Bytes, answer: Bytes, closing: Bytes)
    ensures line + [LF] + answer + closing == line + [LF] + (answer + closing)
  {
  }

  /** Trimming cannot cut into a head that does not end a line. */
  lemma {:induction false} TrimKeepsHead(head: Bytes, tail: Bytes)
    requires head != [] && head[|head| - 1] != LF && head[|head| - 1] != CR
    ensures head <= Trim(head + tail)
  {
    if tail != [] && (tail[|tail| - 1] == LF || tail[|tail| - 1] == CR) {
      assert (head + tail)[..|head + tail| - 1] == head + tail[..|tail| - 1];
      TrimKeepsHead(head, tail[..|tail| - 1]);
    }
  }

  lemma OkLine(c: Connection, data: Bytes, okTail: Bytes, rest: Bytes)
    requires LF !in okTail && c.incoming == OK + okTail + [LF] + rest
    ensures ReadTurn(c, data) == Finished(c.(incoming := rest), Ok(data))
  {
    RawLineIs(c, OK + okTail, rest);
    TrimKeepsHead(OK, okTail);
    var line := Trim(OK + okTail);
    assert line[0] == OK[0] != DATA[0];
  }
}
