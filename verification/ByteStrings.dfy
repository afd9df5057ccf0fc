/** Bytes, byte strings and the two result wrappers used by every other module. */
module ByteStrings {

  type Byte = b: int | 0 <= b < 256

  type Bytes = seq<Byte>

  datatype Option<+T> = None | Some(value: T)

  const LF: Byte := 10
  const CR: Byte := 13
  const PERCENT: Byte := 37
  const OPEN: Byte := 40
  const CLOSE: Byte := 41
  const ZERO: Byte := 48
  const ONE: Byte := 49
  const COLON: Byte := 58

  /** The bytes of a text that holds ASCII characters only. */
  function Ascii(text: string): (bytes: Bytes)
    requires forall i :: 0 <= i < |text| ==> text[i] as int < 128
    ensures |bytes| == |text|
    ensures forall i :: 0 <= i < |text| ==> bytes[i] == text[i] as int
  {
    seq(|text|, i requires 0 <= i < |text| => text[i] as int)
  }

  /** `pattern` stands in `data` at offset `at`. */
  predicate MatchAt(data: Bytes, pattern: Bytes, at: nat) {
    at + |pattern| <= |data| && data[at..at + |pattern|] == pattern
  }

  /** `pattern` stands somewhere in `data`. */
  predicate Contains(data: Bytes, pattern: Bytes) {
    exists at: nat :: at <= |data| && MatchAt(data, pattern, at)
  }

  /** `at` is the leftmost offset where `pattern` stands in `data`. */
  ghost predicate IsFirstMatch(data: Bytes, pattern: Bytes, at: nat) {
    && MatchAt(data, pattern, at)
    && forall k: nat :: k < at ==> !MatchAt(data, pattern, k)
  }

  predicate Continuation(b: Byte) {
    0x80 <= b < 0xC0
  }

  /** Well-formed UTF-8 (table 3-7 of the Unicode standard): what `read_line` and
      `read_to_string` insist on. */
  predicate ValidUtf8(s: Bytes) {
    if s == [] then true
    else if s[0] < 0x80 then ValidUtf8(s[1..])
    else if 0xC2 <= s[0] < 0xE0 then
      |s| >= 2 && Continuation(s[1]) && ValidUtf8(s[2..])
    else if 0xE0 <= s[0] < 0xF0 then
      && |s| >= 3 && Continuation(s[1]) && Continuation(s[2])
      && (s[0] == 0xE0 ==> s[1] >= 0xA0) && (s[0] == 0xED ==> s[1] < 0xA0)
      && ValidUtf8(s[3..])
    else if 0xF0 <= s[0] < 0xF5 then
      && |s| >= 4 && Continuation(s[1]) && Continuation(s[2]) && Continuation(s[3])
      && (s[0] == 0xF0 ==> s[1] >= 0x90) && (s[0] == 0xF4 ==> s[1] < 0x90)
      && ValidUtf8(s[4..])
    else false
  }

  lemma {:induction false} AsciiIsUtf8(s: Bytes)
    requires forall i :: 0 <= i < |s| ==> s[i] < 0x80
    ensures ValidUtf8(s)
  {
    if s != [] {
      AsciiIsUtf8(s[1..]);
    }
  }

  /** A match that starts at or after the end of `left` is a match in `right`. */
  lemma MatchInSuffix(left: Bytes, right: Bytes, pattern: Bytes, at: nat)
    ensures MatchAt(left + right, pattern, |left| + at) <==> MatchAt(right, pattern, at)
  {
    if at + |pattern| <= |right| {
      assert (left + right)[|left| + at..|left| + at + |pattern|] == right[at..at + |pattern|];
    }
  }

  /** A match that ends inside `left` is a match in `left`. */
  lemma MatchInPrefix(left: Bytes, right: Bytes, pattern: Bytes, at: nat)
    requires at + |pattern| <= |left|
    ensures MatchAt(left + right, pattern, at) <==> MatchAt(left, pattern, at)
  {
    assert (left + right)[at..at + |pattern|] == left[at..at + |pattern|];
  }

  /** A match anywhere makes a match in every extension. */
  lemma ContainsExtends(left: Bytes, middle: Bytes, right: Bytes, pattern: Bytes)
    requires Contains(middle, pattern)
    ensures Contains(left + middle + right, pattern)
  {
    var at: nat :| at <= |middle| && MatchAt(middle, pattern, at);
    MatchInSuffix(left, middle, pattern, at);
    MatchInPrefix(left + middle, right, pattern, |left| + at);
  }
}
