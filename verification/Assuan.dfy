/** Percent escapes of Assuan data lines (src/util.rs, `AssuanLine`). */
module Assuan {
  import opened ByteStrings

  function HexadecimalValue(b: Byte): (value: Option<int>)
    ensures value.Some? ==> 0 <= value.value < 16
  {
    if 48 <= b <= 57 then Some(b - 48)
    else if 97 <= b <= 102 then Some(b - 97 + 10)
    else if 65 <= b <= 70 then Some(b - 65 + 10)
    else None
  }

  const LOWER_DIGITS: string := "0123456789abcdef"
  const UPPER_DIGITS: string := "0123456789ABCDEF"

  /** The digits of either case and nothing else have a value, which is their place. */
  lemma HexadecimalDigitsExactly(b: Byte)
    ensures forall v :: 0 <= v < 16 ==>
              (HexadecimalValue(b) == Some(v) <==> b == LOWER_DIGITS[v] as int || b == UPPER_DIGITS[v] as int)
    ensures HexadecimalValue(b).None? <==>
              forall v :: 0 <= v < 16 ==> b != LOWER_DIGITS[v] as int && b != UPPER_DIGITS[v] as int
  {
    if v :| 0 <= v < 16 && HexadecimalValue(b) == Some(v) {
      assert b == LOWER_DIGITS[v] as int || b == UPPER_DIGITS[v] as int;
    }
  }

  /** A recognised escape: `%` and two hexadecimal digits, all inside the line. */
  predicate EscapeAt(s: Bytes, i: nat) {
    && i + 2 < |s|
    && s[i] == PERCENT
    && HexadecimalValue(s[i + 1]).Some?
    && HexadecimalValue(s[i + 2]).Some?
  }

  function EscapedByte(s: Bytes, i: nat): Byte
    requires EscapeAt(s, i)
  {
    16 * HexadecimalValue(s[i + 1]).value + HexadecimalValue(s[i + 2]).value
  }

  /** The recursive reading of a line that the decoding loop has to agree with. */
  function Decode(s: Bytes): Bytes {
    if s == [] then []
    else if EscapeAt(s, 0) then [EscapedByte(s, 0)] + Decode(s[3..])
    else [s[0]] + Decode(s[1..])
  }

  /** How many escapes the reading above recognises. */
  function Escapes(s: Bytes): nat {
    if s == [] then 0
    else if EscapeAt(s, 0) then 1 + Escapes(s[3..])
    else Escapes(s[1..])
  }

  lemma DecodeStep(s: Bytes, i: nat)
    requires i < |s|
    ensures Decode(s[i..])
         == if EscapeAt(s, i) then [EscapedByte(s, i)] + Decode(s[i + 3..]) else [s[i]] + Decode(s[i + 1..])
  {
    var rest := s[i..];
    assert EscapeAt(rest, 0) <==> EscapeAt(s, i);
    assert EscapeAt(s, i) ==> rest[3..] == s[i + 3..];
    assert rest[1..] == s[i + 1..];
  }

  method DecodedBytes(line: Bytes) returns (result: Bytes)
    ensures result == Decode(line)
  {
    hide Decode;
    result := [];
    var index := 0;
    assert line[0..] == line;
    while index < |line|
      invariant 0 <= index <= |line|
      invariant result + Decode(line[index..]) == Decode(line)
    {
      DecodeStep(line, index);
      if line[index] == PERCENT && index + 2 < |line| {
        var high := HexadecimalValue(line[index + 1]);
        var low := HexadecimalValue(line[index + 2]);
        if high.Some? && low.Some? {
          result := result + [16 * high.value + low.value];
          index := index + 3;
          continue;
        }
      }
      result := result + [line[index]];
      index := index + 1;
    }
    DecodeNothing();
    assert line[index..] == [];
  }

  lemma DecodeNothing()
    ensures Decode([]) == []
  {
  }

  /** Every escape stands for three bytes of input and one of output. */
  lemma {:induction false} DecodedLength(s: Bytes)
    ensures |Decode(s)| + 2 * Escapes(s) == |s|
  {
    if s == [] {
    } else if EscapeAt(s, 0) {
      DecodedLength(s[3..]);
    } else {
      DecodedLength(s[1..]);
    }
  }

  /** A line without a recognised escape is itself, a stray `%` included; any escape makes it shorter. */
  lemma {:induction false} PlainLinesExactly(s: Bytes)
    ensures Decode(s) == s <==> forall i: nat :: i < |s| ==> !EscapeAt(s, i)
  {
    if forall i: nat :: i < |s| ==> !EscapeAt(s, i) {
      PlainStays(s);
    } else {
      DecodedLength(s);
      EscapesAreCounted(s);
    }
  }

  lemma {:induction false} PlainStays(s: Bytes)
    requires forall i: nat :: i < |s| ==> !EscapeAt(s, i)
    ensures Decode(s) == s
  {
    if s != [] {
      assert !EscapeAt(s, 0);
      forall i: nat | i < |s[1..]| ensures !EscapeAt(s[1..], i) {
        assert !EscapeAt(s, i + 1);
      }
      PlainStays(s[1..]);
      assert [s[0]] + s[1..] == s;
    }
  }

  lemma {:induction false} EscapesAreCounted(s: Bytes)
    requires exists i: nat :: i < |s| && EscapeAt(s, i)
    ensures Escapes(s) > 0
  {
    var i: nat :| i < |s| && EscapeAt(s, i);
    if !EscapeAt(s, 0) {
      assert EscapeAt(s[1..], i - 1);
      EscapesAreCounted(s[1..]);
    }
  }

  /** `e` is one of the encodings a server may choose for `d`: `%`, CR and LF must be
      escaped, any other byte may be, and hexadecimal digits may have either case. */
  predicate Encodes(e: Bytes, d: Bytes) {
    if d == [] then e == []
    else if e == [] then false
    else if e[0] == PERCENT then EscapeAt(e, 0) && EscapedByte(e, 0) == d[0] && Encodes(e[3..], d[1..])
    else e[0] != CR && e[0] != LF && e[0] == d[0] && Encodes(e[1..], d[1..])
  }

  lemma {:induction false} DecodeInvertsEncodings(e: Bytes, d: Bytes)
    requires Encodes(e, d)
    ensures Decode(e) == d
  {
    if d == [] {
    } else if e[0] == PERCENT {
      DecodeInvertsEncodings(e[3..], d[1..]);
    } else {
      DecodeInvertsEncodings(e[1..], d[1..]);
    }
  }

  /** An encoding carries no raw line terminator, so trimming a line cannot cut into it. */
  lemma {:induction false} EncodingsHaveNoLineEnd(e: Bytes, d: Bytes)
    requires Encodes(e, d)
    ensures forall i :: 0 <= i < |e| ==> e[i] != LF && e[i] != CR
  {
    if d == [] {
    } else if e[0] == PERCENT {
      EncodingsHaveNoLineEnd(e[3..], d[1..]);
      assert e == e[..3] + e[3..];
    } else {
      EncodingsHaveNoLineEnd(e[1..], d[1..]);
      assert e == [e[0]] + e[1..];
    }
  }

  function HexadecimalDigit(value: int): (digit: Byte)
    requires 0 <= value < 16
    ensures HexadecimalValue(digit) == Some(value)
  {
    if value < 10 then 48 + value else 65 + value - 10
  }

  /** The sparest encoding, as libassuan writes it. */
  function Encode(d: Bytes): (e: Bytes)
    ensures Encodes(e, d)
  {
    if d == [] then []
    else
      var rest := Encode(d[1..]);
      if d[0] == PERCENT || d[0] == CR || d[0] == LF then
        var e := [PERCENT, HexadecimalDigit(d[0] / 16), HexadecimalDigit(d[0] % 16)] + rest;
        assert e[3..] == rest;
        e
      else
        var e := [d[0]] + rest;
        assert e[1..] == rest;
        e
  }

  /** Reading `s` from the left arrives exactly at offset `k`, inside no escape. */
  predicate Boundary(s: Bytes, k: nat)
    decreases |s|
  {
    if k == 0 then true
    else if s == [] then false
    else if EscapeAt(s, 0) then k >= 3 && Boundary(s[3..], k - 3)
    else Boundary(s[1..], k - 1)
  }

  /** Decoding two pieces apart is decoding them together exactly when the cut splits no escape. */
  lemma {:induction false} DecodeAcrossCut(a: Bytes, b: Bytes)
    ensures Boundary(a + b, |a|) <==> Decode(a + b) == Decode(a) + Decode(b)
  {
    if Boundary(a + b, |a|) {
      DecodeAtBoundary(a, b);
    } else {
      SplitEscape(a, b);
      DecodedLength(a);
      DecodedLength(b);
      DecodedLength(a + b);
    }
  }

  lemma {:induction false} DecodeAtBoundary(a: Bytes, b: Bytes)
    requires Boundary(a + b, |a|)
    ensures Decode(a + b) == Decode(a) + Decode(b)
  {
    if a == [] {
      assert a + b == b;
    } else {
      var step := if EscapeAt(a + b, 0) then 3 else 1;
      assert EscapeAt(a, 0) <==> EscapeAt(a + b, 0);
      assert (a + b)[step..] == a[step..] + b;
      DecodeAtBoundary(a[step..], b);
    }
  }

  /** A cut inside an escape loses exactly that escape: its digits are read as themselves. */
  lemma {:induction false} SplitEscape(a: Bytes, b: Bytes)
    requires !Boundary(a + b, |a|)
    ensures Escapes(a + b) == Escapes(a) + Escapes(b) + 1
  {
    var s := a + b;
    if EscapeAt(s, 0) && |a| < 3 {
      assert s[3..] == b[3 - |a|..];
      assert !EscapeAt(a, 0);
      if |a| == 2 {
        assert a[1..] == [a[1]] && Escapes(a[1..]) == 0;
        assert b[0] == s[2];
      } else {
        assert a[1..] == [];
        assert b[0] == s[1] && b[1] == s[2];
        assert b[1..][1..] == b[2..];
        assert Escapes(b) == Escapes(b[1..]) == Escapes(b[2..]);
      }
    } else {
      var step := if EscapeAt(s, 0) then 3 else 1;
      assert s[step..] == a[step..] + b;
      SplitEscape(a[step..], b);
      if !EscapeAt(s, 0) {
        assert !EscapeAt(a, 0);
      }
    }
  }
}
