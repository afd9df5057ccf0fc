/** Canonical S-expressions (section 6.1 of RFC 9804) and what the flat search of
    `Extraction` finds in the printed form of a tree. */
module SExpression {
  import opened ByteStrings
  import opened Extraction

  datatype Sexp = Atom(octets: Bytes) | List(items: seq<Sexp>)

  datatype Token = Open | Close | Octets(octets: Bytes)

  /** The canonical printed form of a tree. */
  function Canonical(e: Sexp): Bytes
    decreases e, 1
  {
    match e
    case Atom(octets) => PrintToken(Octets(octets))
    case List(items) => [OPEN] + CanonicalAll(items) + [CLOSE]
  }

  function CanonicalAll(items: seq<Sexp>): Bytes
    decreases items, 0
  {
    if items == [] then [] else Canonical(items[0]) + CanonicalAll(items[1..])
  }

  function Tokens(e: Sexp): seq<Token>
    decreases e, 1
  {
    match e
    case Atom(octets) => [Octets(octets)]
    case List(items) => [Open] + TokensAll(items) + [Close]
  }

  function TokensAll(items: seq<Sexp>): seq<Token>
    decreases items, 0
  {
    if items == [] then [] else Tokens(items[0]) + TokensAll(items[1..])
  }

  function PrintToken(t: Token): (text: Bytes)
    ensures text != []
  {
    match t
    case Open => [OPEN]
    case Close => [CLOSE]
    case Octets(octets) => Decimal(|octets|) + [COLON] + octets
  }

  function Print(ts: seq<Token>): Bytes {
    if ts == [] then [] else PrintToken(ts[0]) + Print(ts[1..])
  }

  lemma {:induction false} PrintConcat(a: seq<Token>, b: seq<Token>)
    ensures Print(a + b) == Print(a) + Print(b)
  {
    if a == [] {
      assert a + b == b;
    } else {
      assert (a + b)[1..] == a[1..] + b;
      PrintConcat(a[1..], b);
    }
  }

  /** Printing a tree is printing its tokens. */
  lemma {:induction false} CanonicalPrintsTokens(e: Sexp)
    ensures Canonical(e) == Print(Tokens(e))
    decreases e, 1
  {
    match e
    case Atom(octets) =>
      assert Tokens(e)[1..] == [];
    case List(items) =>
      CanonicalAllPrintsTokens(items);
      var inner := TokensAll(items);
      PrintConcat([Open], inner + [Close]);
      PrintConcat(inner, [Close]);
      assert Print([Open]) == [OPEN] && Print([Close]) == [CLOSE];
      assert Tokens(e) == [Open] + (inner + [Close]);
  }

  lemma {:induction false} CanonicalAllPrintsTokens(items: seq<Sexp>)
    ensures CanonicalAll(items) == Print(TokensAll(items))
    decreases items, 0
  {
    if items != [] {
      CanonicalPrintsTokens(items[0]);
      CanonicalAllPrintsTokens(items[1..]);
      PrintConcat(Tokens(items[0]), TokensAll(items[1..]));
    }
  }

  /** A tag that can be told from a digit and from a parenthesis, like `r`, `s` and `q`. */
  predicate TagByte(tag: Byte) {
    !IsDigit(tag) && tag != OPEN && tag != CLOSE && tag != COLON
  }

  /** A list whose head is the one-byte atom `tag` opens at the front of `ts`. */
  predicate HeadHere(ts: seq<Token>, tag: Byte) {
    |ts| >= 2 && ts[0] == Open && ts[1] == Octets([tag])
  }

  /** The two ways in which octets imitate such an opening: the needle inside them, or a last
      parenthesis followed by the atom `tag`. */
  predicate Imitates(ts: seq<Token>, tag: Byte) {
    && ts != [] && ts[0].Octets?
    && var octets := ts[0].octets;
       || Contains(octets, Needle(tag))
       || (octets != [] && octets[|octets| - 1] == OPEN && |ts| >= 2 && ts[1] == Octets([tag]))
  }

  datatype Hit = NoHit | Real(rest: seq<Token>) | Imitation

  /** What comes first in `ts`: a real list opening (with the tokens behind its head) or an
      imitation. */
  function FirstHit(ts: seq<Token>, tag: Byte): Hit {
    if ts == [] then NoHit
    else if HeadHere(ts, tag) then Real(ts[2..])
    else if Imitates(ts, tag) then Imitation
    else FirstHit(ts[1..], tag)
  }

  /** `at` is the offset of a real list opening in the printed tokens. */
  ghost predicate OpensAt(ts: seq<Token>, tag: Byte, at: nat) {
    exists k: nat :: k <= |ts| && HeadHere(ts[k..], tag) && |Print(ts[..k])| == at
  }

  /** The four bytes of the needle, one by one. */
  predicate NeedleAt(text: Bytes, tag: Byte, at: nat) {
    && at + 4 <= |text|
    && text[at] == OPEN && text[at + 1] == ONE && text[at + 2] == COLON && text[at + 3] == tag
  }

  lemma NeedleBytes(text: Bytes, tag: Byte, at: nat)
    ensures MatchAt(text, Needle(tag), at) <==> NeedleAt(text, tag, at)
  {
    if at + 4 <= |text| {
      assert text[at..at + 4] == [text[at], text[at + 1], text[at + 2], text[at + 3]];
    }
  }

  /** A match that starts in a printed token belongs to a list that opens there, or the
      token's octets imitate one. */
  lemma MatchInToken(ts: seq<Token>, tag: Byte, at: nat)
    requires TagByte(tag) && ts != [] && at < |PrintToken(ts[0])|
    requires NeedleAt(PrintToken(ts[0]) + Print(ts[1..]), tag, at)
    ensures HeadHere(ts, tag) || Imitates(ts, tag)
  {
    match ts[0]
    case Open =>
      OneOctet(ts[1..], tag);
    case Close =>
    case Octets(octets) =>
      MatchInOctets(Decimal(|octets|) + [COLON], octets, ts[1..], tag, at);
  }

  lemma MatchInOctets(front: Bytes, octets: Bytes, after: seq<Token>, tag: Byte, at: nat)
    requires TagByte(tag) && at < |front| + |octets|
    requires forall i :: 0 <= i < |front| ==> front[i] != OPEN
    requires NeedleAt(front + octets + Print(after), tag, at)
    ensures || Contains(octets, Needle(tag))
            || (&& octets != [] && octets[|octets| - 1] == OPEN && at == |front| + |octets| - 1
                && after != [] && after[0] == Octets([tag]))
  {
    var rest := Print(after);
    var text := front + octets + rest;
    assert forall i :: 0 <= i < |front| ==> text[i] == front[i];
    assert forall i :: 0 <= i < |octets| ==> text[|front| + i] == octets[i];
    assert forall i :: 0 <= i < |rest| ==> text[|front| + |octets| + i] == rest[i];
    var k := at - |front|;
    if k + 4 <= |octets| {
      NeedleBytes(octets, tag, k);
    } else {
      RestStart(after);
      assert k + 1 == |octets|;
      OneOctet(after, tag);
    }
  }

  /** Printed tokens start with a digit or a parenthesis. */
  lemma RestStart(ts: seq<Token>)
    ensures Print(ts) != [] ==> IsDigit(Print(ts)[0]) || Print(ts)[0] == OPEN || Print(ts)[0] == CLOSE
  {
    if ts != [] && ts[0].Octets? {
      assert Print(ts)[0] == Decimal(|ts[0].octets|)[0];
    }
  }

  /** `1:` and the tag can only be the one-octet atom `tag`. */
  lemma OneOctet(ts: seq<Token>, tag: Byte)
    requires |Print(ts)| >= 3 && Print(ts)[0] == ONE && Print(ts)[1] == COLON && Print(ts)[2] == tag
    ensures ts != [] && ts[0] == Octets([tag])
  {
    var text := Print(ts);
    assert text == PrintToken(ts[0]) + Print(ts[1..]);
    var octets := ts[0].octets;
    var digits := Decimal(|octets|);
    assert text[..|digits|] == digits && text[|digits|] == COLON;
    assert text[0] == digits[0] && digits == [48 + |octets|];
    assert octets == [tag];
  }

  /** An imitation is matched by the search, no later than the end of its octets. */
  lemma ImitationMatches(ts: seq<Token>, tag: Byte) returns (at: nat)
    requires Imitates(ts, tag)
    ensures at < |PrintToken(ts[0])| && MatchAt(Print(ts), Needle(tag), at)
  {
    var octets := ts[0].octets;
    var front := Decimal(|octets|) + [COLON];
    var rest := Print(ts[1..]);
    if Contains(octets, Needle(tag)) {
      var k: nat :| k <= |octets| && MatchAt(octets, Needle(tag), k);
      at := |front| + k;
      MatchInSuffix(front, octets, Needle(tag), k);
      MatchInPrefix(front + octets, rest, Needle(tag), at);
    } else {
      at := |front| + |octets| - 1;
      OneOctetPrints(ts[1..], tag);
      StraddlingNeedle(front, octets, rest, tag);
    }
  }

  lemma StraddlingNeedle(front: Bytes, octets: Bytes, rest: Bytes, tag: Byte)
    requires octets != [] && octets[|octets| - 1] == OPEN
    requires |rest| >= 3 && rest[0] == ONE && rest[1] == COLON && rest[2] == tag
    ensures MatchAt(front + octets + rest, Needle(tag), |front| + |octets| - 1)
  {
    NeedleBytes(front + octets + rest, tag, |front| + |octets| - 1);
  }

  lemma OneOctetPrints(ts: seq<Token>, tag: Byte)
    requires ts != [] && ts[0] == Octets([tag])
    ensures Print(ts) == [ONE, COLON, tag] + Print(ts[1..])
  {
    assert Decimal(1) == [ONE];
  }

  /** `at` is nowhere when nothing opens or imitates, on the first real opening when no
      imitation comes before it, and off every real opening otherwise. */
  ghost predicate LandsOnFirstHit(ts: seq<Token>, tag: Byte, at: Option<nat>) {
    match FirstHit(ts, tag)
    case NoHit => at.None?
    case Real(rest) =>
      && at.Some? && OpensAt(ts, tag, at.value)
      && at.value + 4 <= |Print(ts)| && Print(ts)[at.value + 4..] == Print(rest)
    case Imitation => at.Some? && !OpensAt(ts, tag, at.value)
  }

  /** Where the flat search lands in printed tokens. */
  lemma {:induction false} SearchLandsOnFirstHit(ts: seq<Token>, tag: Byte)
    requires TagByte(tag)
    ensures LandsOnFirstHit(ts, tag, FirstMatch(Print(ts), Needle(tag), 0))
  {
    if ts == [] {
    } else if HeadHere(ts, tag) {
      SearchAtOpening(ts, tag);
    } else if Imitates(ts, tag) {
      var at := ImitationMatches(ts, tag);
      FirstMatchIsLeftmost(Print(ts), Needle(tag));
      OpeningsStayOutside(ts, tag, FirstMatch(Print(ts), Needle(tag), 0).value);
    } else {
      SearchLandsOnFirstHit(ts[1..], tag);
      SearchSkipsToken(ts, tag);
      LandingShifts(ts, tag, FirstMatch(Print(ts[1..]), Needle(tag), 0));
    }
  }

  /** The search is true to the tree, landing on a list opening or on nothing, exactly when no
      octets imitate an opening before the first real one. */
  lemma SearchIsTrueExactly(e: Sexp, tag: Byte)
    requires TagByte(tag)
    ensures var at := FirstMatch(Canonical(e), Needle(tag), 0);
            NoEarlierImitation(e, tag) <==> at.None? || OpensAt(Tokens(e), tag, at.value)
  {
    CanonicalPrintsTokens(e);
    SearchLandsOnFirstHit(Tokens(e), tag);
    hide OpensAt, Print, Tokens, Canonical, FirstMatch;
  }

  /** A token in front that is neither kind of hit shifts where the search lands. */
  lemma LandingShifts(ts: seq<Token>, tag: Byte, at: Option<nat>)
    requires ts != [] && !HeadHere(ts, tag) && !Imitates(ts, tag)
    requires LandsOnFirstHit(ts[1..], tag, at)
    ensures LandsOnFirstHit(ts, tag, Shifted(at, |PrintToken(ts[0])|))
  {
    assert FirstHit(ts, tag) == FirstHit(ts[1..], tag);
    assert Print(ts) == PrintToken(ts[0]) + Print(ts[1..]);
    hide FirstHit, Print, OpensAt, HeadHere, Imitates, PrintToken;
    if at.Some? {
      ShiftOpening(ts, tag, at.value);
    }
    if FirstHit(ts, tag).Real? {
      DropInSuffix(PrintToken(ts[0]), Print(ts[1..]), at.value + 4);
    }
  }

  lemma DropInSuffix(left: Bytes, right: Bytes, n: nat)
    requires n <= |right|
    ensures (left + right)[|left| + n..] == right[n..]
  {
  }

  lemma SearchAtOpening(ts: seq<Token>, tag: Byte)
    requires HeadHere(ts, tag)
    ensures LandsOnFirstHit(ts, tag, FirstMatch(Print(ts), Needle(tag), 0))
  {
    OneOctetPrints(ts[1..], tag);
    assert ts[1..][1..] == ts[2..];
    assert Print(ts) == Needle(tag) + Print(ts[2..]);
    FirstMatchIs(Print(ts), Needle(tag), 0);
    assert ts[0..] == ts && ts[..0] == [];
    assert OpensAt(ts, tag, 0);
  }

  function Shifted(at: Option<nat>, n: nat): Option<nat> {
    if at.None? then None else Some(n + at.value)
  }

  lemma SearchSkipsToken(ts: seq<Token>, tag: Byte)
    requires TagByte(tag) && ts != [] && !HeadHere(ts, tag) && !Imitates(ts, tag)
    ensures FirstMatch(Print(ts), Needle(tag), 0)
         == Shifted(FirstMatch(Print(ts[1..]), Needle(tag), 0), |PrintToken(ts[0])|)
  {
    var front := PrintToken(ts[0]);
    var rest := Print(ts[1..]);
    forall k: nat | k < |front| ensures !MatchAt(front + rest, Needle(tag), k) {
      NoMatchInToken(ts, tag, k);
    }
    ShiftFirstMatch(front, rest, Needle(tag));
  }

  lemma NoMatchInToken(ts: seq<Token>, tag: Byte, k: nat)
    requires TagByte(tag) && ts != [] && !HeadHere(ts, tag) && !Imitates(ts, tag)
    requires k < |PrintToken(ts[0])|
    ensures !MatchAt(PrintToken(ts[0]) + Print(ts[1..]), Needle(tag), k)
  {
    NeedleBytes(PrintToken(ts[0]) + Print(ts[1..]), tag, k);
    if NeedleAt(PrintToken(ts[0]) + Print(ts[1..]), tag, k) {
      MatchInToken(ts, tag, k);
    }
  }

  /** No match starts inside `front`, so the first one is the first in `rest`. */
  lemma ShiftFirstMatch(front: Bytes, rest: Bytes, needle: Bytes)
    requires needle != []
    requires forall k: nat :: k < |front| ==> !MatchAt(front + rest, needle, k)
    ensures FirstMatch(front + rest, needle, 0) == Shifted(FirstMatch(rest, needle, 0), |front|)
  {
    FirstMatchIsLeftmost(rest, needle);
    match FirstMatch(rest, needle, 0)
    case Some(at) =>
      forall k: nat | k < |front| + at ensures !MatchAt(front + rest, needle, k) {
        if k >= |front| {
          MatchInSuffix(front, rest, needle, k - |front|);
        }
      }
      MatchInSuffix(front, rest, needle, at);
      FirstMatchIs(front + rest, needle, |front| + at);
    case None =>
      FirstMatchIsLeftmost(front + rest, needle);
      match FirstMatch(front + rest, needle, 0)
      case Some(at) => MatchInSuffix(front, rest, needle, at - |front|);
      case None =>
  }

  lemma ShiftOpening(ts: seq<Token>, tag: Byte, at: nat)
    requires ts != [] && !HeadHere(ts, tag)
    ensures OpensAt(ts[1..], tag, at) <==> OpensAt(ts, tag, |PrintToken(ts[0])| + at)
  {
    hide PrintToken, HeadHere;
    if OpensAt(ts[1..], tag, at) {
      var k: nat :| k <= |ts[1..]| && HeadHere(ts[1..][k..], tag) && |Print(ts[1..][..k])| == at;
      OpeningMoves(ts, k + 1);
    }
    if OpensAt(ts, tag, |PrintToken(ts[0])| + at) {
      var k: nat :| k <= |ts| && HeadHere(ts[k..], tag) && |Print(ts[..k])| == |PrintToken(ts[0])| + at;
      assert ts[0..] == ts;
      assert k > 0;
      OpeningMoves(ts, k);
    }
  }

  lemma OpeningMoves(ts: seq<Token>, k: nat)
    requires 0 < k <= |ts|
    ensures ts[1..][k - 1..] == ts[k..]
    ensures |Print(ts[..k])| == |PrintToken(ts[0])| + |Print(ts[1..][..k - 1])|
  {
    assert ts[..k][1..] == ts[1..][..k - 1];
  }

  /** No list opens inside the octets that stand first. */
  lemma OpeningsStayOutside(ts: seq<Token>, tag: Byte, at: nat)
    requires ts != [] && ts[0].Octets? && at < |PrintToken(ts[0])|
    ensures !OpensAt(ts, tag, at)
  {
    forall k: nat | k <= |ts| && HeadHere(ts[k..], tag)
      ensures |Print(ts[..k])| > at
    {
      assert ts[k..][0] == ts[k];
    }
  }

  datatype Lookup = NoHead | Head(tail: seq<Sexp>)

  /** The structural parser's answer: the items behind the first list head, in pre-order, that
      equals the tag. */
  function FindHead(e: Sexp, tag: Byte): Lookup
    decreases e, 1
  {
    match e
    case Atom(_) => NoHead
    case List(items) =>
      if items != [] && items[0] == Atom([tag]) then Head(items[1..]) else FindHeadAll(items, tag)
  }

  function FindHeadAll(items: seq<Sexp>, tag: Byte): Lookup
    decreases items, 0
  {
    if items == [] then NoHead
    else match FindHead(items[0], tag)
      case Head(tail) => Head(tail)
      case NoHead => FindHeadAll(items[1..], tag)
  }

  /** The atom behind that head, if one stands there. */
  function ComponentOf(e: Sexp, tag: Byte): Extraction {
    match FindHead(e, tag)
    case NoHead => Missing
    case Head(tail) => if tail != [] && tail[0].Atom? then Found(tail[0].octets) else Missing
  }

  /** No octets imitate an opening before the first real one. */
  predicate NoEarlierImitation(e: Sexp, tag: Byte) {
    !FirstHit(Tokens(e), tag).Imitation?
  }

  /** How a hit in a longer token string relates to the lookup in the tree printed first. */
  ghost predicate Agrees(hit: Hit, lookup: Lookup, after: Hit) {
    || hit.Imitation?
    || match lookup
       case NoHead => hit == after
       case Head(tail) => hit.Real? && TokensAll(tail) + [Close] <= hit.rest
  }

  lemma {:induction false} HitAgreesWithLookup(e: Sexp, suffix: seq<Token>, tag: Byte)
    ensures Agrees(FirstHit(Tokens(e) + suffix, tag), FindHead(e, tag), FirstHit(suffix, tag))
    decreases e, 1
  {
    var ts := Tokens(e) + suffix;
    match e
    case Atom(octets) =>
      assert ts[1..] == suffix;
    case List(items) =>
      assert ts[1..] == TokensAll(items) + ([Close] + suffix);
      var closing := [Close] + suffix;
      assert closing[1..] == suffix;
      if items != [] && items[0] == Atom([tag]) {
        assert Tokens(items[0]) == [Octets([tag])];
        assert ts[1..] == [Octets([tag])] + (TokensAll(items[1..]) + closing);
        assert ts[1] == ts[1..][0];
        assert ts[2..] == ts[1..][1..] == (TokensAll(items[1..]) + [Close]) + suffix;
      } else {
        if HeadHere(ts, tag) {
          assert ts[1] == ts[1..][0];
          FirstTokenIsAtom(items, closing);
        }
        HitAgreesWithLookupAll(items, closing, tag);
      }
  }

  lemma FirstTokenIsAtom(items: seq<Sexp>, closing: seq<Token>)
    requires closing != [] && closing[0] == Close
    ensures var ts := TokensAll(items) + closing;
            ts != [] && (ts[0].Octets? ==> items != [] && items[0] == Atom(ts[0].octets))
  {
  }

  lemma {:induction false} HitAgreesWithLookupAll(items: seq<Sexp>, suffix: seq<Token>, tag: Byte)
    ensures Agrees(FirstHit(TokensAll(items) + suffix, tag), FindHeadAll(items, tag), FirstHit(suffix, tag))
    decreases items, 0
  {
    if items == [] {
      assert TokensAll(items) + suffix == suffix;
    } else {
      var rest := TokensAll(items[1..]) + suffix;
      assert TokensAll(items) + suffix == Tokens(items[0]) + rest;
      HitAgreesWithLookup(items[0], rest, tag);
      HitAgreesWithLookupAll(items[1..], suffix, tag);
    }
  }

  /** The flat search refines the structural parser: on the printed form of any tree in which
      no octets imitate an opening before the first real one, both give the same answer. */
  lemma ExtractRefinesLookup(e: Sexp, tag: Byte)
    requires TagByte(tag) && |Canonical(e)| < LENGTH_LIMIT
    requires NoEarlierImitation(e, tag)
    ensures Extract(Canonical(e), tag) == ComponentOf(e, tag)
  {
    var ts := Tokens(e);
    CanonicalPrintsTokens(e);
    SearchLandsOnFirstHit(ts, tag);
    HitAgreesWithLookup(e, [], tag);
    assert ts + [] == ts;
    if FirstHit(ts, tag).Real? {
      var rest := FirstHit(ts, tag).rest;
      var at := FirstMatch(Print(ts), Needle(tag), 0).value;
      var tail := FindHead(e, tag).tail;
      var item := if tail != [] && tail[0].Atom? then Octets(tail[0].octets) else rest[0];
      TailStart(tail);
      assert rest[0] == (TokensAll(tail) + [Close])[0];
      assert Print(rest) == PrintToken(rest[0]) + Print(rest[1..]);
      ValueOfToken(Print(ts), at + 4, rest);
    }
  }

  lemma TailStart(tail: seq<Sexp>)
    ensures var ts := TokensAll(tail) + [Close];
            if tail != [] && tail[0].Atom? then ts[0] == Octets(tail[0].octets) else !ts[0].Octets?
  {
  }

  /** Reading a value at the start of a token gives its octets, or nothing at a parenthesis. */
  lemma ValueOfToken(data: Bytes, i: nat, rest: seq<Token>)
    requires |data| < LENGTH_LIMIT && i <= |data|
    requires rest != [] && data[i..] == Print(rest)
    ensures ValueAt(data, i) == match rest[0]
                                case Octets(octets) => Found(octets)
                                case _ => Missing
  {
    var text := PrintToken(rest[0]);
    assert data[i..] == text + Print(rest[1..]);
    assert data[i..i + |text|] == data[i..][..|text|] == text;
    match rest[0]
    case Octets(octets) => ValueAtIs(data, i, Decimal(|octets|), octets);
    case Open => assert data[i] == text[0];
    case Close => assert data[i] == text[0];
  }

  lemma TokensOfTwo(a: Sexp, b: Sexp)
    ensures Tokens(List([a, b])) == [Open] + Tokens(a) + Tokens(b) + [Close]
    ensures TokensAll([a, b]) == Tokens(a) + Tokens(b)
  {
    assert [a, b][1..] == [b] && [b][1..] == [];
    assert TokensAll([b]) == Tokens(b);
    assert TokensAll([a, b]) == Tokens(a) + Tokens(b);
    assert [Open] + (Tokens(a) + Tokens(b)) == [Open] + Tokens(a) + Tokens(b);
  }

  lemma TokensOfThree(a: Sexp, b: Sexp, c: Sexp)
    ensures Tokens(List([a, b, c])) == [Open] + Tokens(a) + Tokens(b) + Tokens(c) + [Close]
  {
    TokensOfTwo(b, c);
    assert [a, b, c][1..] == [b, c];
    assert TokensAll([a, b, c]) == Tokens(a) + (Tokens(b) + Tokens(c));
    assert [Open] + (Tokens(a) + (Tokens(b) + Tokens(c))) == [Open] + Tokens(a) + Tokens(b) + Tokens(c);
  }

  /** A tree on which search and parser part: the first atom ends in a parenthesis and the
      second is the tag. The search takes the seam for a list opening, finds no length behind
      it and gives up, although the component stands further on. */
  function Seam(x: Bytes, tag: Byte, v: Bytes): Sexp {
    List([Atom(x + [OPEN]), Atom([tag]), List([Atom([tag]), Atom(v)])])
  }

  function SeamTokens(x: Bytes, tag: Byte, v: Bytes): seq<Token> {
    [Open, Octets(x + [OPEN]), Octets([tag]), Open, Octets([tag]), Octets(v), Close, Close]
  }

  lemma SeamPrints(x: Bytes, tag: Byte, v: Bytes)
    ensures Tokens(Seam(x, tag, v)) == SeamTokens(x, tag, v)
  {
    TokensOfTwo(Atom([tag]), Atom(v));
    TokensOfThree(Atom(x + [OPEN]), Atom([tag]), List([Atom([tag]), Atom(v)]));
  }

  lemma SeamComponent(x: Bytes, tag: Byte, v: Bytes)
    requires tag != OPEN
    ensures ComponentOf(Seam(x, tag, v), tag) == Found(v)
  {
    var inner := List([Atom([tag]), Atom(v)]);
    var items := [Atom(x + [OPEN]), Atom([tag]), inner];
    assert FindHead(inner, tag) == Head([Atom(v)]);
    assert items[1..][1..] == [inner];
    assert FindHeadAll(items[1..][1..], tag) == Head([Atom(v)]);
    assert FindHeadAll(items[1..], tag) == Head([Atom(v)]);
    assert (x + [OPEN])[|x|] == OPEN;
    assert items[0] != Atom([tag]);
    assert FindHeadAll(items, tag) == Head([Atom(v)]);
  }

  lemma SeamHidesComponent(x: Bytes, tag: Byte, v: Bytes)
    requires TagByte(tag) && !Contains(x, Needle(tag))
    ensures ComponentOf(Seam(x, tag, v), tag) == Found(v)
    ensures Extract(Canonical(Seam(x, tag, v)), tag) == Missing
  {
    SeamComponent(x, tag, v);
    CanonicalPrintsTokens(Seam(x, tag, v));
    SeamPrints(x, tag, v);
    var ts := SeamTokens(x, tag, v);
    assert ts[1] != Octets([tag]) by {
      assert (x + [OPEN])[|x|] == OPEN;
    }
    SearchSkipsToken(ts, tag);
    var front := SearchStopsAtSeam(x, tag, ts[1..]);
    var behind := Print(ts[1..][2..]);
    assert ts[1..][2..][0] == Open && behind[0] == OPEN;
    assert Print(ts) == [OPEN] + (front + Needle(tag) + behind);
    assert Print(ts)[|front| + 5] == OPEN;
  }

  /** The first match in octets that end in a parenthesis, before the atom `tag`, is at the seam. */
  lemma SearchStopsAtSeam(x: Bytes, tag: Byte, ts: seq<Token>) returns (front: Bytes)
    requires TagByte(tag) && !Contains(x, Needle(tag))
    requires |ts| >= 3 && ts[0] == Octets(x + [OPEN]) && ts[1] == Octets([tag])
    ensures Print(ts) == front + Needle(tag) + Print(ts[2..])
    ensures FirstMatch(Print(ts), Needle(tag), 0) == Some(|front|)
  {
    var digits := Decimal(|x| + 1) + [COLON];
    front := digits + x;
    SeamText(x, tag, ts);
    forall k: nat | k < |front| ensures !MatchAt(Print(ts), Needle(tag), k) {
      NothingBeforeSeam(digits, x, ts[1..], tag, k);
    }
    NeedleBytes(Print(ts), tag, |front|);
    FirstMatchIs(Print(ts), Needle(tag), |front|);
  }

  lemma SeamText(x: Bytes, tag: Byte, ts: seq<Token>)
    requires |ts| >= 2 && ts[0] == Octets(x + [OPEN]) && ts[1] == Octets([tag])
    ensures var digits := Decimal(|x| + 1) + [COLON];
            && Print(ts) == digits + x + Needle(tag) + Print(ts[2..])
            && Print(ts) == digits + (x + [OPEN]) + Print(ts[1..])
  {
    OneOctetPrints(ts[1..], tag);
    assert ts[1..][1..] == ts[2..];
    Regroup(Decimal(|x| + 1) + [COLON], x, tag, Print(ts[2..]));
  }

  lemma Regroup(digits: Bytes, x: Bytes, tag: Byte, behind: Bytes)
    ensures digits + (x + [OPEN]) + ([ONE, COLON, tag] + behind) == digits + x + Needle(tag) + behind
  {
    assert x + [OPEN] + [ONE, COLON, tag] == x + Needle(tag);
  }

  lemma NothingBeforeSeam(digits: Bytes, x: Bytes, after: seq<Token>, tag: Byte, k: nat)
    requires TagByte(tag) && !Contains(x, Needle(tag))
    requires forall i :: 0 <= i < |digits| ==> digits[i] != OPEN
    requires k < |digits| + |x|
    ensures !MatchAt(digits + (x + [OPEN]) + Print(after), Needle(tag), k)
  {
    var octets := x + [OPEN];
    NeedleBytes(digits + octets + Print(after), tag, k);
    if NeedleAt(digits + octets + Print(after), tag, k) {
      MatchInOctets(digits, octets, after, tag, k);
      var at: nat :| at <= |octets| && MatchAt(octets, Needle(tag), at);
      NeedleBytes(octets, tag, at);
      NeedleBytes(x, tag, at);
    }
  }
}
