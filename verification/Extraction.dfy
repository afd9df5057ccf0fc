/** The flat search for one S-expression component (src/gpg_agent.rs, `extract_sexp_value`
    and `extract_sexp_q_value`). */
module Extraction {
  import opened ByteStrings

  /** One past the largest `usize` of a 64-bit machine. */
  const USIZE_LIMIT: nat := 0x1_0000_0000_0000_0000

  /** One past the largest length of a Rust allocation. */
  const LENGTH_LIMIT: nat := 0x8000_0000_0000_0000

  const TAG_Q: Byte := 113
  const TAG_R: Byte := 114
  const TAG_S: Byte := 115

  /** `Panicked` is the outcome of `i + len` leaving the machine range: an overflow trap in
      a checked build, an inverted slice range in an unchecked one. */
  datatype Extraction = Found(value: Bytes) | Missing | Panicked

  predicate IsDigit(b: Byte) {
    48 <= b <= 57
  }

  predicate AllDigits(s: Bytes) {
    forall i :: 0 <= i < |s| ==> IsDigit(s[i])
  }

  /** The number a digit string denotes. */
  function DigitsValue(digits: Bytes): nat
    requires AllDigits(digits)
  {
    if digits == [] then 0 else 10 * DigitsValue(digits[..|digits| - 1]) + (digits[|digits| - 1] - 48)
  }

  /** The shortest decimal form of a number. */
  function Decimal(n: nat): (digits: Bytes)
    ensures digits != [] && AllDigits(digits)
    ensures DigitsValue(digits) == n
    ensures |digits| == 1 <==> n < 10
    ensures n > 0 ==> digits[0] != ZERO
  {
    if n < 10 then [48 + n]
    else
      var front := Decimal(n / 10);
      var digits := front + [48 + n % 10];
      assert digits[..|digits| - 1] == front;
      digits
  }

  /** The opening of a list whose head is the one-byte atom `tag`. */
  function Needle(tag: Byte): (needle: Bytes)
    ensures |needle| == 4
  {
    [OPEN, ONE, COLON, tag]
  }

  /** The leftmost match at or after `from`. */
  function FirstMatch(data: Bytes, pattern: Bytes, from: nat): (at: Option<nat>)
    requires from <= |data|
    requires pattern != []
    ensures at.Some? ==> from <= at.value && at.value + |pattern| <= |data|
    decreases |data| - from
  {
    if MatchAt(data, pattern, from) then Some(from)
    else if from == |data| then None
    else FirstMatch(data, pattern, from + 1)
  }

  lemma {:induction false} FirstMatchFrom(data: Bytes, pattern: Bytes, from: nat)
    requires from <= |data| && pattern != []
    ensures match FirstMatch(data, pattern, from)
            case Some(at) => MatchAt(data, pattern, at) && forall k: nat :: from <= k < at ==>
                !MatchAt(data, pattern, k)
            case None => forall k: nat :: from <= k ==> !MatchAt(data, pattern, k)
    decreases |data| - from
  {
    if from < |data| && !MatchAt(data, pattern, from) {
      FirstMatchFrom(data, pattern, from + 1);
    }
  }

  /** The search finds the leftmost match whenever there is one. */
  lemma FirstMatchIsLeftmost(data: Bytes, pattern: Bytes)
    requires pattern != []
    ensures match FirstMatch(data, pattern, 0)
            case Some(at) => IsFirstMatch(data, pattern, at)
            case None => forall k: nat :: !MatchAt(data, pattern, k)
  {
    FirstMatchFrom(data, pattern, 0);
  }

  /** Where the run of digits that starts at `i` ends. */
  function DigitsEnd(data: Bytes, i: nat): (end: nat)
    requires i <= |data|
    ensures i <= end <= |data|
    ensures AllDigits(data[i..end])
    ensures end < |data| ==> !IsDigit(data[end])
    decreases |data| - i
  {
    if i < |data| && IsDigit(data[i]) then
      var end := DigitsEnd(data, i + 1);
      assert data[i..end] == [data[i]] + data[i + 1..end];
      end
    else i
  }

  /** The octets announced by a length field `digits` that ends before `end`. */
  function Announced(data: Bytes, digits: Bytes, end: nat): Extraction
    requires AllDigits(digits)
  {
    if end >= |data| || data[end] != COLON then Missing
    else if digits == [] || DigitsValue(digits) >= USIZE_LIMIT then Missing
    else
      var start := end + 1;
      var len := DigitsValue(digits);
      if start + len >= USIZE_LIMIT then Panicked
      else if start + len > |data| then Missing
      else Found(data[start..start + len])
  }

  /** The length-prefixed octet string that starts at `i`. */
  function ValueAt(data: Bytes, i: nat): Extraction
    requires i <= |data|
  {
    Announced(data, data[i..DigitsEnd(data, i)], DigitsEnd(data, i))
  }

  function Extract(data: Bytes, tag: Byte): Extraction {
    match FirstMatch(data, Needle(tag), 0)
    case None => Missing
    case Some(at) => ValueAt(data, at + 4)
  }

  /** `v` stands in `data` behind the first match of the needle, which is at `at`. */
  ghost predicate StandsAs(data: Bytes, tag: Byte, at: nat, digits: Bytes, v: Bytes) {
    && IsFirstMatch(data, Needle(tag), at)
    && MatchAt(data, digits + [COLON] + v, at + 4)
    && digits != [] && AllDigits(digits) && DigitsValue(digits) == |v|
  }

  /** The first match is at `at` and its length field fits `usize` while the end of the octets
      it announces does not. */
  ghost predicate Overflows(data: Bytes, tag: Byte, at: nat, digits: Bytes) {
    && IsFirstMatch(data, Needle(tag), at)
    && MatchAt(data, digits + [COLON], at + 4)
    && digits != [] && AllDigits(digits)
    && DigitsValue(digits) < USIZE_LIMIT <= at + 4 + |digits| + 1 + DigitsValue(digits)
  }

  lemma DigitsEndIs(data: Bytes, i: nat, end: nat)
    requires i <= end < |data| && AllDigits(data[i..end]) && !IsDigit(data[end])
    ensures DigitsEnd(data, i) == end
    decreases end - i
  {
    if i < end {
      assert data[i..end][0] == data[i];
      assert data[i + 1..end] == data[i..end][1..];
      DigitsEndIs(data, i + 1, end);
    }
  }

  lemma SplitMatch(data: Bytes, left: Bytes, right: Bytes, at: nat)
    ensures MatchAt(data, left + right, at)
       <==> MatchAt(data, left, at) && MatchAt(data, right, at + |left|)
  {
    if at + |left| + |right| <= |data| {
      var whole := data[at..at + |left| + |right|];
      assert whole == data[at..at + |left|] + data[at + |left|..at + |left| + |right|];
      assert whole == left + right ==> whole[..|left|] == left && whole[|left|..] == right;
    }
  }

  /** A length field of digits ends at its colon. */
  lemma LengthField(data: Bytes, i: nat, digits: Bytes)
    requires AllDigits(digits) && MatchAt(data, digits + [COLON], i)
    ensures i + |digits| < |data| && data[i + |digits|] == COLON
    ensures DigitsEnd(data, i) == i + |digits| && data[i..i + |digits|] == digits
  {
    SplitMatch(data, digits, [COLON], i);
    var end := i + |digits|;
    assert data[end] == data[end..end + 1][0];
    DigitsEndIs(data, i, end);
  }

  lemma ValueAtIs(data: Bytes, i: nat, digits: Bytes, v: Bytes)
    requires |data| < LENGTH_LIMIT
    requires MatchAt(data, digits + [COLON] + v, i)
    requires digits != [] && AllDigits(digits) && DigitsValue(digits) == |v|
    ensures ValueAt(data, i) == Found(v)
  {
    SplitMatch(data, digits + [COLON], v, i);
    LengthField(data, i, digits);
  }

  lemma FirstMatchIs(data: Bytes, pattern: Bytes, at: nat)
    requires pattern != [] && IsFirstMatch(data, pattern, at)
    ensures FirstMatch(data, pattern, 0) == Some(at)
  {
    FirstMatchIsLeftmost(data, pattern);
  }

  /** What extraction means: it returns `v` exactly when `v` stands behind the first match. */
  lemma ExtractFinds(data: Bytes, tag: Byte, v: Bytes)
    requires |data| < LENGTH_LIMIT
    ensures Extract(data, tag) == Found(v)
       <==> exists at: nat, digits :: StandsAs(data, tag, at, digits, v)
  {
    if Extract(data, tag) == Found(v) {
      var at := FirstMatch(data, Needle(tag), 0).value;
      FirstMatchIsLeftmost(data, Needle(tag));
      var i := at + 4;
      var end := DigitsEnd(data, i);
      assert data[i..end + 1] == data[i..end] + [COLON];
      SplitMatch(data, data[i..end] + [COLON], v, i);
      assert StandsAs(data, tag, at, data[i..end], v);
    }
    forall at: nat, digits | StandsAs(data, tag, at, digits, v)
      ensures Extract(data, tag) == Found(v)
    {
      FirstMatchIs(data, Needle(tag), at);
      ValueAtIs(data, at + 4, digits, v);
    }
  }

  /** The one input family on which extraction does not return. */
  lemma ExtractPanics(data: Bytes, tag: Byte)
    ensures Extract(data, tag) == Panicked <==> exists at: nat, digits :: Overflows(data, tag, at, digits)
  {
    if Extract(data, tag) == Panicked {
      var at := FirstMatch(data, Needle(tag), 0).value;
      FirstMatchIsLeftmost(data, Needle(tag));
      var i := at + 4;
      var end := DigitsEnd(data, i);
      assert data[i..end + 1] == data[i..end] + [COLON];
      assert Overflows(data, tag, at, data[i..end]);
    }
    forall at: nat, digits | Overflows(data, tag, at, digits)
      ensures Extract(data, tag) == Panicked
    {
      FirstMatchIs(data, Needle(tag), at);
      LengthField(data, at + 4, digits);
    }
  }

  /** Compares the needle with each window of its length, from the left, until one is equal. */
  method Position(data: Bytes, needle: Bytes) returns (at: Option<nat>)
    requires needle != []
    ensures at == FirstMatch(data, needle, 0)
  {
    var i := 0;
    while i + |needle| <= |data|
      invariant 0 <= i <= |data|
      invariant FirstMatch(data, needle, 0) == FirstMatch(data, needle, i)
    {
      if data[i..i + |needle|] == needle {
        return Some(i);
      }
      i := i + 1;
    }
    at := None;
  }

  method ExtractSexpValue(data: Bytes, tag: Byte) returns (result: Extraction)
    ensures result == Extract(data, tag)
  {
    var needle := [OPEN, ONE, COLON, tag];
    var pos := Position(data, needle);
    if pos.None? {
      return Missing;
    }
    var i := pos.value + |needle|;
    ghost var start := i;
    var digits: Bytes := [];
    while i < |data| && 48 <= data[i] <= 57
      invariant start <= i <= DigitsEnd(data, start) <= |data|
      invariant digits == data[start..i]
      invariant DigitsEnd(data, start) == DigitsEnd(data, i)
    {
      digits := digits + [data[i]];
      i := i + 1;
    }
    assert i == DigitsEnd(data, start);
    assert Extract(data, tag) == Announced(data, digits, i);
    if i >= |data| || data[i] != COLON {
      return Missing;
    }
    i := i + 1;
    var len := ParseUsize(digits);
    if len.None? {
      return Missing;
    }
    if i + len.value >= USIZE_LIMIT {
      return Panicked;
    }
    if i + len.value > |data| {
      return Missing;
    }
    result := Found(data[i..i + len.value]);
  }

  /** `str::parse::<usize>` on a string of digits: empty and oversized strings are errors. */
  method ParseUsize(digits: Bytes) returns (value: Option<nat>)
    requires AllDigits(digits)
    ensures value == if digits == [] || DigitsValue(digits) >= USIZE_LIMIT then None else Some(DigitsValue(digits))
  {
    if digits == [] {
      return None;
    }
    var n: nat := 0;
    var k := 0;
    while k < |digits|
      invariant 0 <= k <= |digits|
      invariant n == DigitsValue(digits[..k])
    {
      assert digits[..k + 1][..k] == digits[..k];
      n := 10 * n + (digits[k] - 48);
      k := k + 1;
    }
    assert digits[..k] == digits;
    value := if n >= USIZE_LIMIT then None else Some(n);
  }

  /** An Ed25519 point comes with or without the 0x40 byte that marks its native form. */
  function WithoutPointPrefix(key: Bytes): Bytes {
    if |key| == 33 && key[0] == 0x40 then key[1..] else key
  }

  function ExtractKey(data: Bytes): Extraction {
    Unprefixed(Extract(data, TAG_Q))
  }

  function Unprefixed(e: Extraction): Extraction {
    if e.Found? then Found(WithoutPointPrefix(e.value)) else e
  }

  /** The public key reader has its own copy of the search; on every input it is the general
      extraction for tag `q` with the point prefix dropped. */
  method ExtractSexpQValue(data: Bytes) returns (result: Extraction)
    ensures result == ExtractKey(data)
  {
    var needle := [OPEN, ONE, COLON, TAG_Q];
    var pos := Position(data, needle);
    if pos.None? {
      return Missing;
    }
    var i := pos.value + |needle|;
    ghost var start := i;
    var digits: Bytes := [];
    while i < |data| && 48 <= data[i] <= 57
      invariant start <= i <= DigitsEnd(data, start) <= |data|
      invariant digits == data[start..i]
      invariant DigitsEnd(data, start) == DigitsEnd(data, i)
    {
      digits := digits + [data[i]];
      i := i + 1;
    }
    assert i == DigitsEnd(data, start);
    assert Extract(data, TAG_Q) == Announced(data, digits, i);
    if i >= |data| || data[i] != COLON {
      return Missing;
    }
    i := i + 1;
    var len := ParseUsize(digits);
    if len.None? {
      return Missing;
    }
    if i + len.value >= USIZE_LIMIT {
      return Panicked;
    }
    if i + len.value > |data| {
      return Missing;
    }
    var key := data[i..i + len.value];
    if |key| == 33 && key[0] == 0x40 {
      key := key[1..];
    }
    result := Found(key);
  }
}
