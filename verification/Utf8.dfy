/** What `ByteStrings.ValidUtf8` means: the byte strings that encode a text, code point by code point
    (section 3 of RFC 3629). */
module Utf8 {
  import opened ByteStrings

  /** Code points, the surrogates left out. */
  predicate Scalar(point: int) {
    0 <= point < 0xD800 || 0xE000 <= point < 0x110000
  }

  function EncodedPoint(point: int): (bytes: Bytes)
    requires Scalar(point)
    ensures 1 <= |bytes| <= 4
  {
    if point < 0x80 then [point]
    else if point < 0x800 then [0xC0 + point / 64, 0x80 + point % 64]
    else if point < 0x10000 then [0xE0 + point / 4096, 0x80 + point / 64 % 64, 0x80 + point % 64]
    else [0xF0 + point / 262144, 0x80 + point / 4096 % 64, 0x80 + point / 64 % 64, 0x80 + point % 64]
  }

  predicate Scalars(points: seq<int>) {
    forall i :: 0 <= i < |points| ==> Scalar(points[i])
  }

  function EncodedText(points: seq<int>): Bytes
    requires Scalars(points)
  {
    if points == [] then [] else EncodedPoint(points[0]) + EncodedText(points[1..])
  }

  lemma PointIsValid(point: int, rest: Bytes)
    requires Scalar(point)
    ensures ValidUtf8(EncodedPoint(point) + rest) == ValidUtf8(rest)
  {
    var bytes := EncodedPoint(point);
    var s := bytes + rest;
    assert s[|bytes|..] == rest;
    if |bytes| == 2 {
      assert 0xC2 <= s[0] < 0xE0 && s[1] == bytes[1];
    } else if |bytes| == 3 {
      assert 0xE0 <= s[0] < 0xF0 && s[1] == bytes[1] && s[2] == bytes[2];
      assert s[0] == 0xE0 ==> s[1] >= 0xA0;
      assert s[0] == 0xED ==> s[1] < 0xA0;
    } else if |bytes| == 4 {
      assert 0xF0 <= s[0] < 0xF5 && s[1] == bytes[1] && s[2] == bytes[2] && s[3] == bytes[3];
      assert s[0] == 0xF0 ==> s[1] >= 0x90;
      assert s[0] == 0xF4 ==> s[1] < 0x90;
    }
  }

  lemma {:induction false} TextIsValid(points: seq<int>)
    requires Scalars(points)
    ensures ValidUtf8(EncodedText(points))
  {
    if points != [] {
      TextIsValid(points[1..]);
      PointIsValid(points[0], EncodedText(points[1..]));
    }
  }

  /** The code point at the front of a valid byte string. */
  function FirstPoint(s: Bytes): (point: int)
    requires s != [] && ValidUtf8(s)
    ensures Scalar(point)
  {
    var a: int := s[0];
    if a < 0x80 then a
    else
      var b: int := s[1];
      if a < 0xE0 then (a - 0xC0) * 64 + (b - 0x80)
      else
        var c: int := s[2];
        if a < 0xF0 then (a - 0xE0) * 4096 + (b - 0x80) * 64 + (c - 0x80)
        else
          var d: int := s[3];
          (a - 0xF0) * 262144 + (b - 0x80) * 4096 + (c - 0x80) * 64 + (d - 0x80)
  }

  lemma SixBitDigits(a: int, b: int, c: int, d: int)
    requires 0 <= b < 64 && 0 <= c < 64 && 0 <= d < 64
    ensures (a * 64 + b) / 64 == a && (a * 64 + b) % 64 == b
    ensures var n := a * 4096 + b * 64 + c; n / 4096 == a && n / 64 % 64 == b && n % 64 == c
    ensures var n := a * 262144 + b * 4096 + c * 64 + d;
            n / 262144 == a && n / 4096 % 64 == b && n / 64 % 64 == c && n % 64 == d
  {
  }

  lemma FirstPointIsFirst(s: Bytes)
    requires s != [] && ValidUtf8(s)
    ensures var bytes := EncodedPoint(FirstPoint(s)); |bytes| <= |s| && s[..|bytes|] == bytes && ValidUtf8(s[|bytes|..])
  {
    var a: int := s[0];
    if a < 0x80 {
    } else if a < 0xE0 {
      SixBitDigits(a - 0xC0, s[1] as int - 0x80, 0, 0);
      assert s[..2] == [s[0], s[1]];
    } else if a < 0xF0 {
      SixBitDigits(a - 0xE0, s[1] as int - 0x80, s[2] as int - 0x80, 0);
      assert s[..3] == [s[0], s[1], s[2]];
    } else {
      SixBitDigits(a - 0xF0, s[1] as int - 0x80, s[2] as int - 0x80, s[3] as int - 0x80);
      assert s[..4] == [s[0], s[1], s[2], s[3]];
    }
  }

  lemma {:induction false} ValidIsText(s: Bytes) returns (points: seq<int>)
    requires ValidUtf8(s)
    ensures Scalars(points) && EncodedText(points) == s
  {
    points := [];
    if s != [] {
      FirstPointIsFirst(s);
      var n := |EncodedPoint(FirstPoint(s))|;
      var others := ValidIsText(s[n..]);
      points := [FirstPoint(s)] + others;
      assert points[1..] == others && s == s[..n] + s[n..];
    }
  }

  /** Valid are exactly the encodings of texts. */
  lemma {:induction false} ValidExactly(s: Bytes)
    ensures ValidUtf8(s) <==> exists points :: Scalars(points) && EncodedText(points) == s
  {
    if ValidUtf8(s) {
      var points := ValidIsText(s);
    } else {
      forall points | Scalars(points) ensures ValidUtf8(EncodedText(points)) {
        TextIsValid(points);
      }
    }
  }
}
