/** The client for gpg-agent's Assuan protocol (src/gpg_agent.rs, `GpgAgent`): the methods that
    read and write the connection, each proved against the functions of `Wire`. */
module GpgAgent {
  import opened ByteStrings
  import opened Extraction
  import opened Wire
  import Assuan

  class GpgAgent {
    var incoming: Bytes
    const readFault: bool
    const cut: nat
    var writesLeft: nat
    var sent: seq<Bytes>

    ghost function View(): Connection
      reads this
    {
      Connection(incoming, readFault, writesLeft, cut, sent)
    }

    constructor (incoming: Bytes, readFault: bool, writesLeft: nat, cut: nat)
      ensures View() == Connection(incoming, readFault, writesLeft, cut, [])
    {
      this.incoming := incoming;
      this.readFault := readFault;
      this.writesLeft := writesLeft;
      this.cut := cut;
      sent := [];
    }

    method SendCommand(command: Bytes) returns (result: Result<()>)
      modifies this
      ensures (result, View()) == Send(old(View()), command)
    {
      if writesLeft == 0 {
        sent := sent + [command[..if cut < |command| then cut else |command|]];
        return Err(WriteFailed);
      }
      writesLeft := writesLeft - 1;
      sent := sent + [command + [LF]];
      result := Ok(());
    }

    /** `read_until(b'\n')` on the buffered stream. */
    method ReadUntil() returns (result: Result<Bytes>)
      modifies this`incoming
      ensures (result, View()) == ReadUntilLineEnd(old(View()))
    {
      var n := 0;
      var terminated := false;
      while n < |incoming| && !terminated
        invariant 0 <= n <= |incoming|
        invariant terminated ==> n > 0 && incoming[n - 1] == LF && LineLength(incoming) == n
        invariant !terminated ==> LF !in incoming[..n] && LineLength(incoming) == n + LineLength(incoming[n..])
      {
        assert incoming[n..][1..] == incoming[n + 1..];
        terminated := incoming[n] == LF;
        n := n + 1;
      }
      assert incoming[..|incoming|] == incoming;
      if !terminated && readFault {
        incoming := [];
        return Err(ReadFailed);
      }
      result := Ok(incoming[..n]);
      incoming := incoming[n..];
    }

    method ReadRawLine() returns (result: Result<Bytes>)
      modifies this`incoming
      ensures (result, View()) == ReadRaw(old(View()))
    {
      var line := ReadUntil();
      if line.Err? {
        return line;
      }
      var rawLine := line.value;
      while rawLine != [] && (rawLine[|rawLine| - 1] == LF || rawLine[|rawLine| - 1] == CR)
        invariant Trim(rawLine) == Trim(line.value)
        decreases |rawLine|
      {
        rawLine := rawLine[..|rawLine| - 1];
      }
      result := Ok(rawLine);
    }

    method ExpectOk() returns (result: Result<()>)
      modifies this`incoming
      ensures (result, View()) == Acknowledged(old(View()))
    {
      var line := ReadUntil();
      if line.Err? {
        return Err(line.error);
      }
      if !ValidUtf8(line.value) {
        return Err(ReadFailed);
      }
      if OK <= line.value {
        result := Ok(());
      } else if ERR <= line.value {
        result := Err(Refused);
      } else {
        result := Err(Unexpected);
      }
    }

    /** The reading loop, watched for `turns` turns: `None` says that it is still turning. */
    method ReadDataResponse(turns: nat) returns (result: Option<Result<Bytes>>)
      modifies this
      ensures match ReadLoop(old(View()), [], turns)
              case Running(c, _) => result == None && View() == c
              case Finished(c, outcome) => result == Some(outcome) && View() == c
    {
      hide ReadLoop, ReadTurn, ReadRaw, Send, Assuan.Decode;
      var data: Bytes := [];
      var turn := 0;
      while turn < turns
        invariant 0 <= turn <= turns
        invariant ReadLoop(old(View()), [], turns) == ReadLoop(View(), data, turns - turn)
      {
        LoopGoesByLine(View(), data, turns - turn);
        var line := ReadRawLine();
        if line.Err? {
          return Some(Err(line.error));
        }
        if DATA <= line.value {
          var decoded := Assuan.DecodedBytes(line.value[2..]);
          data := data + decoded;
        } else if OK <= line.value {
          return Some(Ok(data));
        } else if ERR <= line.value {
          return Some(Err(Refused));
        } else if INQUIRE <= line.value {
          var written := SendCommand(END);
          if written.Err? {
            return Some(Err(WriteFailed));
          }
        }
        turn := turn + 1;
      }
      LoopPauses(View(), data);
      result := None;
    }

    method Sign(keygrip: Bytes, hashHex: Bytes, turns: nat) returns (result: Option<Result<Bytes>>)
      modifies this
      ensures (result, View()) == Signing(old(View()), keygrip, hashHex, turns)
    {
      hide ReadLoop, Acknowledged;
      var sentKey := SendCommand(SigKey(keygrip));
      if sentKey.Err? {
        return Some(Err(sentKey.error));
      }
      var key := ExpectOk();
      if key.Err? {
        return Some(Err(key.error));
      }
      var sentHash := SendCommand(SetHash(hashHex));
      if sentHash.Err? {
        return Some(Err(sentHash.error));
      }
      var hash := ExpectOk();
      if hash.Err? {
        return Some(Err(hash.error));
      }
      var sentSign := SendCommand(PkSign());
      if sentSign.Err? {
        return Some(Err(sentSign.error));
      }
      var answer := ReadDataResponse(turns);
      if answer.None? || answer.value.Err? {
        return answer;
      }
      var signature := ReadSignature(answer.value.value);
      result := Some(signature);
    }

    method Readkey(keygrip: Bytes, turns: nat) returns (result: Option<Result<Bytes>>)
      modifies this
      ensures (result, View()) == KeyReading(old(View()), keygrip, turns)
    {
      hide ReadLoop;
      var sentRead := SendCommand(ReadKey(keygrip));
      if sentRead.Err? {
        return Some(Err(sentRead.error));
      }
      var answer := ReadDataResponse(turns);
      if answer.None? || answer.value.Err? {
        return answer;
      }
      var key := ExtractSexpQValue(answer.value.value);
      result := match key
        case Missing => Some(Err(MissingComponent(TAG_Q)))
        case Panicked => Some(Err(TaskPanicked))
        case Found(value) => Some(Ok(value));
    }
  }

  /** `SignatureExpression::signature_bytes`. */
  method ReadSignature(data: Bytes) returns (result: Result<Bytes>)
    ensures result == SignatureBytes(data)
  {
    var first := ExtractSexpValue(data, TAG_R);
    if first.Missing? {
      return Err(MissingComponent(TAG_R));
    }
    if first.Panicked? {
      return Err(TaskPanicked);
    }
    var second := ExtractSexpValue(data, TAG_S);
    if second.Missing? {
      return Err(MissingComponent(TAG_S));
    }
    if second.Panicked? {
      return Err(TaskPanicked);
    }
    result := Ok(first.value + second.value);
  }
}
