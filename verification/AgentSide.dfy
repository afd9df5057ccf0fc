/** What the agent hears: a reader of the bytes that the client sends, with the texts of the Assuan
    commands written out, and what it makes of the conversations of src/gpg_agent.rs. */
module AgentSide {
  import opened ByteStrings
  import opened Assuan
  import opened Wire

  /** The complete lines of a stream, without their terminators. */
  function Lines(stream: Bytes): seq<Bytes> {
    if stream == [] then []
    else if stream[0] == 10 then [[]] + Lines(stream[1..])
    else
      var rest := Lines(stream[1..]);
      if rest == [] then [] else [[stream[0]] + rest[0]] + rest[1..]
  }

  /** What the agent knows, and what it has been asked: to sign (keygrip and digest) or for a key. */
  datatype Agent = Agent(keygrip: Option<Bytes>, digest: Option<Bytes>,
                         signatures: seq<(Bytes, Bytes)>, keys: seq<Bytes>)

  function Hears(agent: Agent, line: Bytes): Agent {
    if Ascii("SIGKEY ") <= line then agent.(keygrip := Some(line[7..]))
    else if Ascii("SETHASH --hash=sha256 ") <= line then agent.(digest := Some(line[22..]))
    else if line == Ascii("PKSIGN") then
      if agent.keygrip.None? || agent.digest.None? then agent
      else agent.(signatures := agent.signatures + [(agent.keygrip.value, agent.digest.value)])
    else if Ascii("READKEY ") <= line then agent.(keys := agent.keys + [line[8..]])
    else agent
  }

  function Listens(lines: seq<Bytes>): Agent {
    if lines == [] then Agent(None, None, [], []) else Hears(Listens(lines[..|lines| - 1]), lines[|lines| - 1])
  }

  function Stream(sent: seq<Bytes>): Bytes {
    if sent == [] then [] else Stream(sent[..|sent| - 1]) + sent[|sent| - 1]
  }

  /** What the agent makes of everything that was sent. */
  function Told(sent: seq<Bytes>): Agent {
    Listens(Lines(Stream(sent)))
  }

  lemma {:induction false} LinesOfOne(line: Bytes)
    requires 10 !in line
    ensures Lines(line + [10]) == [line] && Lines(line) == []
  {
    if line != [] {
      assert (line + [10])[1..] == line[1..] + [10];
      LinesOfOne(line[1..]);
      assert [line[0]] + line[1..] == line;
    } else {
      assert ([] + [10])[1..] == [];
    }
  }

  /** Complete lines are read apart from what follows them. */
  predicate Ended(stream: Bytes) {
    stream == [] || stream[|stream| - 1] == 10
  }

  lemma {:induction false} LinesAfter(stream: Bytes, more: Bytes)
    requires Ended(stream)
    ensures Lines(stream + more) == Lines(stream) + Lines(more)
    ensures stream != [] ==> Lines(stream) != []
  {
    if stream == [] {
      assert stream + more == more;
    } else {
      LinesAfter(stream[1..], more);
      OneMoreByte(stream[0], stream[1..] + more);
      OneMoreByte(stream[0], stream[1..]);
      assert [stream[0]] + stream[1..] == stream && [stream[0]] + (stream[1..] + more) == stream + more;
      Regroup(stream[0], Lines(stream[1..]), Lines(more));
    }
  }

  function Grown(b: Byte, lines: seq<Bytes>): seq<Bytes> {
    if b == 10 then [[]] + lines else if lines == [] then [] else [[b] + lines[0]] + lines[1..]
  }

  lemma OneMoreByte(b: Byte, rest: Bytes)
    ensures Lines([b] + rest) == Grown(b, Lines(rest))
  {
    assert ([b] + rest)[1..] == rest;
  }

  lemma Regroup(b: Byte, lines: seq<Bytes>, more: seq<Bytes>)
    requires b == 10 || lines != []
    ensures Grown(b, lines + more) == Grown(b, lines) + more
  {
    if b != 10 {
      assert (lines + more)[1..] == lines[1..] + more;
    }
  }

  /** A whole command is heard as it was meant; a torn one is not heard. */
  lemma CommandIsHeard(sent: seq<Bytes>, command: Bytes)
    requires Ended(Stream(sent)) && LF !in command
    ensures Told(sent + [command + [LF]]) == Hears(Told(sent), command) && Ended(Stream(sent + [command + [LF]]))
    ensures forall part :: part <= command ==> Told(sent + [part]) == Told(sent)
  {
    var whole := sent + [command + [LF]];
    assert whole[..|whole| - 1] == sent;
    LinesAfter(Stream(sent), command + [LF]);
    LinesOfOne(command);
    var lines := Lines(Stream(sent));
    assert (lines + [command])[..|lines|] == lines;
    forall part | part <= command ensures Told(sent + [part]) == Told(sent) {
      assert (sent + [part])[..|sent + [part]| - 1] == sent;
      LinesAfter(Stream(sent), part);
      LinesOfOne(part);
      assert lines + [] == lines;
    }
  }

  lemma EndIsNothing(agent: Agent)
    ensures Hears(agent, END) == agent && LF !in END
  {
    assert END[0] == 69;
  }

  /** Sending: heard if it works, not heard if it fails. */
  lemma SendIsHeard(c: Connection, command: Bytes)
    requires Ended(Stream(c.sent)) && LF !in command
    ensures var (result, c') := Send(c, command);
      if result.Ok? then Told(c'.sent) == Hears(Told(c.sent), command) && Ended(Stream(c'.sent))
      else Told(c'.sent) == Told(c.sent)
  {
    CommandIsHeard(c.sent, command);
  }

  lemma ReadingSendsNothing(c: Connection)
    ensures ReadRaw(c).1.sent == c.sent && Acknowledged(c).1.sent == c.sent
  {
  }

  /** Whatever line it reads, the client asks for nothing. */
  lemma TurnAsksNothing(c: Connection, data: Bytes)
    requires Ended(Stream(c.sent))
    ensures var turn := ReadTurn(c, data);
      Told(turn.c.sent) == Told(c.sent) && (turn.Running? ==> Ended(Stream(turn.c.sent)))
  {
    ReadingSendsNothing(c);
    SendIsHeard(ReadRaw(c).1, END);
    EndIsNothing(Told(c.sent));
    hide Told, Stream, Ended, Hears, Decode, ReadRaw, Send;
  }

  /** While it reads, the client asks for nothing. */
  lemma {:induction false} LoopAsksNothing(c: Connection, data: Bytes, turns: nat)
    requires Ended(Stream(c.sent))
    ensures Told(ReadLoop(c, data, turns).c.sent) == Told(c.sent)
    decreases turns
  {
    if turns > 0 {
      TurnAsksNothing(c, data);
      hide Told, Stream, Ended, ReadTurn;
      match ReadTurn(c, data)
      case Running(c', data') =>
        LoopAsksNothing(c', data', turns - 1);
        LoopTurns(c, data, turns);
      case Finished(_, _) =>
        LoopLeaves(c, data, turns);
    } else {
      LoopPauses(c, data);
    }
  }

  lemma CommandsAreHeard(agent: Agent, keygrip: Bytes, hash: Bytes)
    ensures Hears(agent, SigKey(keygrip)) == agent.(keygrip := Some(keygrip))
    ensures Hears(agent, SetHash(hash)) == agent.(digest := Some(hash))
    ensures Hears(agent, PkSign())
         == if agent.keygrip.None? || agent.digest.None? then agent
            else agent.(signatures := agent.signatures + [(agent.keygrip.value, agent.digest.value)])
    ensures Hears(agent, ReadKey(keygrip)) == agent.(keys := agent.keys + [keygrip])
  {
    assert SigKey(keygrip)[7..] == keygrip && SetHash(hash)[22..] == hash && ReadKey(keygrip)[8..] == keygrip;
    assert SetHash(hash)[1] == 69 && SigKey(keygrip)[1] == 73;
    assert ReadKey(keygrip)[0] == 82 && PkSign()[0] == 80 && SigKey(keygrip)[0] == 83;
  }

  lemma OrderIsHeard(c: Connection, command: Bytes)
    requires Ended(Stream(c.sent)) && LF !in command
    ensures var (result, c') := Order(c, command);
      && (Told(c'.sent) == Hears(Told(c.sent), command) || (result.Err? && Told(c'.sent) == Told(c.sent)))
      && (result.Ok? ==> Ended(Stream(c'.sent)))
  {
    SendIsHeard(c, command);
    ReadingSendsNothing(Send(c, command).1);
    hide Told, Stream, Hears, Acknowledged, Send, Ended;
  }

  lemma QueryIsHeard(c: Connection, command: Bytes, turns: nat)
    requires Ended(Stream(c.sent)) && LF !in command
    ensures var (answer, c') := Query(c, command, turns);
      || Told(c'.sent) == Hears(Told(c.sent), command)
      || (answer == Some(Err(WriteFailed)) && Told(c'.sent) == Told(c.sent))
  {
    SendIsHeard(c, command);
    var (written, c') := Send(c, command);
    hide Told, Stream, Hears, ReadLoop, Send, Ended;
    if written.Ok? {
      LoopAsksNothing(c', [], turns);
    }
  }

  /** Whatever the agent answers and wherever the conversation breaks off: it is asked to sign the
      digest that the client was given, with the key that it was given, once, or nothing at all; and
      a signature is never returned without having been asked for. */
  lemma SigningAsksForTheDigest(c: Connection, keygrip: Bytes, hash: Bytes, turns: nat)
    requires c.sent == [] && LF !in keygrip && LF !in hash
    ensures var (answer, c') := Signing(c, keygrip, hash, turns);
            var told := Told(c'.sent);
      && told.keys == [] && (told.signatures == [] || told.signatures == [(keygrip, hash)])
      && (answer.Some? && answer.value.Ok? ==> told.signatures == [(keygrip, hash)])
  {
    NothingIsTold(c);
    TextsAreOneLine(keygrip, hash);
    CommandsAreHeard(Told([]), keygrip, hash);
    var (key, c1) := Order(c, SigKey(keygrip));
    OrderIsHeard(c, SigKey(keygrip));
    hide Told, Stream, Ended, Order, Query, Hears, SigKey, SetHash, PkSign, ReadKey, SignatureBytes;
    if key.Ok? {
      var (digest, c2) := Order(c1, SetHash(hash));
      OrderIsHeard(c1, SetHash(hash));
      CommandsAreHeard(Told(c1.sent), keygrip, hash);
      if digest.Ok? {
        QueryIsHeard(c2, PkSign(), turns);
        CommandsAreHeard(Told(c2.sent), keygrip, hash);
      }
    }
  }

  /** A key is asked for once, or not at all, and by the keygrip that the client was given. */
  lemma KeyReadingAsksForTheKey(c: Connection, keygrip: Bytes, turns: nat)
    requires c.sent == [] && LF !in keygrip
    ensures var (answer, c') := KeyReading(c, keygrip, turns);
            var told := Told(c'.sent);
      && told.signatures == [] && (told.keys == [] || told.keys == [keygrip])
      && (answer.Some? && answer.value.Ok? ==> told.keys == [keygrip])
  {
    NothingIsTold(c);
    TextsAreOneLine(keygrip, []);
    CommandsAreHeard(Told([]), keygrip, []);
    QueryIsHeard(c, ReadKey(keygrip), turns);
    hide Told, Stream, Ended, Query, Hears, ReadKey, KeyBytes;
  }

  lemma {:induction false} LinesHoldNoEnd(stream: Bytes)
    ensures forall line :: line in Lines(stream) ==> 10 !in line
  {
    if stream != [] {
      LinesHoldNoEnd(stream[1..]);
    }
  }

  /** Nothing that the agent can be asked for holds a line end. */
  predicate OneLine(agent: Agent) {
    && (agent.keygrip.Some? ==> 10 !in agent.keygrip.value)
    && (agent.digest.Some? ==> 10 !in agent.digest.value)
    && (forall asked :: asked in agent.signatures ==> 10 !in asked.0 && 10 !in asked.1)
    && (forall asked :: asked in agent.keys ==> 10 !in asked)
  }

  lemma HearingIsOneLine(agent: Agent, line: Bytes)
    requires OneLine(agent) && 10 !in line
    ensures OneLine(Hears(agent, line))
  {
  }

  lemma {:induction false} ListeningIsOneLine(lines: seq<Bytes>)
    requires forall line :: line in lines ==> 10 !in line
    ensures OneLine(Listens(lines))
  {
    if lines != [] {
      ListeningIsOneLine(lines[..|lines| - 1]);
      HearingIsOneLine(Listens(lines[..|lines| - 1]), lines[|lines| - 1]);
      hide Hears, OneLine;
    }
  }

  /** A signature that was returned was asked for as the client was told if and only if neither text
      holds a line end; a text that does is never heard as one. */
  lemma SignatureIsAskedExactly(c: Connection, keygrip: Bytes, hash: Bytes, turns: nat)
    requires c.sent == []
    ensures var (answer, c') := Signing(c, keygrip, hash, turns);
      answer.Some? && answer.value.Ok? ==>
        (Told(c'.sent).signatures == [(keygrip, hash)] <==> LF !in keygrip && LF !in hash)
  {
    var sent := Signing(c, keygrip, hash, turns).1.sent;
    if LF !in keygrip && LF !in hash {
      SigningAsksForTheDigest(c, keygrip, hash, turns);
    } else {
      LinesHoldNoEnd(Stream(sent));
      ListeningIsOneLine(Lines(Stream(sent)));
      hide Signing, Lines, Stream, Listens;
      assert [(keygrip, hash)][0] in [(keygrip, hash)];
    }
  }

  lemma NothingIsTold(c: Connection)
    requires c.sent == []
    ensures Ended(Stream(c.sent)) && Told(c.sent) == Told([]) == Agent(None, None, [], [])
  {
  }

  lemma TextsAreOneLine(keygrip: Bytes, hash: Bytes)
    requires LF !in keygrip && LF !in hash
    ensures LF !in SigKey(keygrip) && LF !in SetHash(hash) && LF !in PkSign() && LF !in ReadKey(keygrip)
  {
    assert LF !in Ascii("SIGKEY ") && LF !in Ascii("SETHASH --hash=sha256 ") && LF !in Ascii("READKEY ");
  }
}
