/// The codes of section 3.2.6 of RFC 1951 and the tables of sections 3.2.5 and 3.2.7 as numbers, and what that
/// makes of a block written with them.
module FixedCodes {
  import opened Bits
  import opened Huffman
  import opened Deflate
  import opened DeflateStreams

  // ---- Counting in runs ----

  lemma {:induction false} CountRun(front: seq<nat>, v: nat, n: nat, l: nat)
    ensures Count(front + Run(v, n), l) == Count(front, l) + if v == l then n else 0
  {
    if n == 0 {
      assert front + Run(v, n) == front;
    } else {
      var all := front + Run(v, n);
      assert all[..|all| - 1] == front + Run(v, n - 1);
      CountRun(front, v, n - 1, l);
    }
  }

  lemma CountOneRun(v: nat, n: nat, l: nat)
    ensures Count(Run(v, n), l) == if v == l then n else 0
  {
    var none: seq<nat> := [];
    assert none + Run(v, n) == Run(v, n);
    CountRun(none, v, n, l);
  }

  lemma {:induction false} NoShorterCodes(lengths: seq<nat>, l: nat)
    requires forall k | 1 <= k < l :: Count(lengths, k) == 0
    ensures FirstCode(lengths, l) == 0
  {
    if l > 0 {
      NoShorterCodes(lengths, l - 1);
    }
  }

  // ---- Distances ----

  /// Distance code `c` is the five-bit number `c`.
  lemma DistanceCode(c: nat)
    requires c < 30
    ensures Used(FixedDistLengths(), c) && CodeBits(FixedDistLengths(), c) == MsbBits(c, 5)
  {
    var lengths := FixedDistLengths();
    forall k | 1 <= k < 5
      ensures Count(lengths, k) == 0
    {
      CountOneRun(5, 30, k);
    }
    NoShorterCodes(lengths, 5);
    assert lengths[..c] == Run(5, c);
    CountOneRun(5, c, 5);
  }

  // ---- Literals and lengths ----

  lemma FixedCount(l: nat)
    ensures Count(FixedLitLengths(), l) == if l == 7 then 24 else if l == 8 then 152 else if l == 9 then 112 else 0
  {
    var a, b, c, d := Run(8, 144), Run(9, 112), Run(7, 24), Run(8, 8);
    CountOneRun(8, 144, l);
    CountRun(a, 9, 112, l);
    CountRun(a + b, 7, 24, l);
    CountRun(a + b + c, 8, 8, l);
  }

  lemma FixedFirstCodes()
    ensures FirstCode(FixedLitLengths(), 7) == 0 && FirstCode(FixedLitLengths(), 8) == 48 && FirstCode(FixedLitLengths(), 9) == 400
  {
    forall k | 1 <= k < 7
      ensures Count(FixedLitLengths(), k) == 0
    {
      FixedCount(k);
    }
    NoShorterCodes(FixedLitLengths(), 7);
    FixedCount(7);
    FixedCount(8);
  }

  /// How many of the first `s` symbols have eight, nine and seven bits.
  lemma FixedBefore(s: nat, l: nat)
    requires s < 288 && l == FixedLitLengths()[s]
    ensures l == if s < 144 then 8 else if s < 256 then 9 else if s < 280 then 7 else 8
    ensures Count(FixedLitLengths()[..s], l) == if s < 144 then s else if s < 256 then s - 144 else if s < 280 then s - 256 else s - 136
  {
    var a, b, c := Run(8, 144), Run(9, 112), Run(7, 24);
    CountOneRun(8, 144, l);
    CountRun(a, 9, 112, l);
    CountRun(a + b, 7, 24, l);
    var front := FixedLitLengths()[..s];
    if s < 144 {
      assert front == Run(8, s);
      CountOneRun(8, s, l);
    } else if s < 256 {
      assert front == a + Run(9, s - 144);
      CountRun(a, 9, s - 144, l);
    } else if s < 280 {
      assert front == a + b + Run(7, s - 256);
      CountRun(a + b, 7, s - 256, l);
    } else {
      assert front == a + b + c + Run(8, s - 280);
      CountRun(a + b + c, 8, s - 280, l);
    }
  }

  /// The code of a literal or length symbol: eight bits from 00110000 below 144, nine from 110010000 below 256,
  /// seven from 0000000 below 280, and eight from 11000000 to the end.
  function Numbered(s: nat): seq<Bit> {
    if s < 144 then MsbBits(48 + s, 8)
    else if s < 256 then MsbBits(400 + s - 144, 9)
    else if s < 280 then MsbBits(s - 256, 7)
    else MsbBits(192 + s - 280, 8)
  }

  lemma LiteralCode(s: nat)
    requires s < 288
    ensures Used(FixedLitLengths(), s) && CodeBits(FixedLitLengths(), s) == Numbered(s)
  {
    FixedBefore(s, FixedLitLengths()[s]);
    FixedFirstCodes();
  }

  // ---- Blocks ----

  /// A token in numbers.
  ghost function NumberedToken(t: Token): seq<Bit> {
    match t
    case Literal(v) => Numbered(v)
    case Copy(l, le, d, de) => Numbered(257 + l) + (LsbBits(le, LengthExtra(l)) + (MsbBits(d, 5) + LsbBits(de, DistanceExtra(d))))
  }

  /// Tokens, and the end of the block.
  ghost function NumberedTokens(ts: seq<Token>): seq<Bit> {
    if ts == [] then Numbered(256) else NumberedToken(ts[0]) + NumberedTokens(ts[1..])
  }

  lemma TokenNumbered(t: Token)
    requires t.WellFormed()
    ensures Encodable(Canonical(FixedLitLengths()), Canonical(FixedDistLengths()), t)
    ensures EncodeToken(Canonical(FixedLitLengths()), Canonical(FixedDistLengths()), t) == NumberedToken(t)
  {
    LiteralCode(t.Symbol());
    if t.Copy? {
      DistanceCode(t.distanceCode);
    } else {
      assert Numbered(t.value) + [] == Numbered(t.value);
    }
  }

  lemma {:induction false} TokensNumbered(ts: seq<Token>)
    requires forall k | 0 <= k < |ts| :: ts[k].WellFormed()
    ensures Codable(Canonical(FixedLitLengths()), Canonical(FixedDistLengths()), ts)
    ensures EncodeTokens(Canonical(FixedLitLengths()), Canonical(FixedDistLengths()), ts) == NumberedTokens(ts)
  {
    if ts == [] {
      LiteralCode(256);
    } else {
      TokenNumbered(ts[0]);
      TokensNumbered(ts[1..]);
    }
  }

  lemma FixedShape(ts: seq<Token>, b: Block)
    requires b == Fixed(ts) && (forall k | 0 <= k < |ts| :: ts[k].WellFormed()) && AllReach(ts, []) && |Expand(ts, [])| < 268435456
    ensures b.WellFormed() && b.Payload() == NumberedTokens(ts) && b.Aligned(0) && b.Fits([]) && b.Apply([]) == Expand(ts, [])
    ensures b.Type() == 1
  {
    TokensNumbered(ts);
  }

  lemma TypeBits()
    ensures LsbBits(0, 2) == [0, 0] && LsbBits(1, 2) == [1, 0] && LsbBits(2, 2) == [0, 1]
  {
  }

  /// Data that begins with a final fixed block of those numbers is decompressed to what the tokens stand for.
  lemma FixedBlockDecodes(data: seq<Byte>, ts: seq<Token>)
    requires forall k | 0 <= k < |ts| :: ts[k].WellFormed()
    requires AllReach(ts, []) && |Expand(ts, [])| < 268435456
    requires [1] + [1, 0] + NumberedTokens(ts) <= BitsOf(data)
    ensures Holds(data, [Fixed(ts)]) && ExpandStream([Fixed(ts)], []) == Expand(ts, [])
  {
    FixedShape(ts, Fixed(ts));
    TypeBits();
    FinalBlock(data, Fixed(ts), [1, 0], NumberedTokens(ts));
  }

  lemma OneBlockStream(b: Block)
    requires b.WellFormed()
    ensures AllWellFormed([b]) && EncodeStream([b]) == b.Encode(true)
  {
    assert [b][1..] == [];
  }

  lemma OneBlockValid(b: Block)
    requires b.WellFormed() && b.Aligned(0) && b.Fits([])
    ensures ValidStream([b], 0, []) && ExpandStream([b], []) == b.Apply([])
  {
    OneBlockStream(b);
    assert [b][1..] == [];
  }

  lemma FinalBits(b: Block, kind: seq<Bit>)
    requires b.WellFormed() && kind == LsbBits(b.Type(), 2)
    ensures b.Encode(true) == [1] + kind + b.Payload()
  {
    assert LsbBits(1, 1) == [1];
  }

  ghost predicate IsPayload(b: Block, e: seq<Bit>) {
    b.WellFormed() && e == b.Payload()
  }

  /// `e` is the block without its header; quantified so that it is only looked into where `IsPayload` is asked for.
  ghost predicate HasPayload(b: Block, e: seq<Bit>) {
    forall f: seq<Bit> :: f == e ==> IsPayload(b, f)
  }

  /// The block is one that a stream can consist of.
  ghost predicate StandsAlone(b: Block, kind: seq<Bit>) {
    b.Aligned(0) && b.Fits([]) && kind == LsbBits(b.Type(), 2)
  }

  /// A stream of one block.
  lemma FinalBlock(data: seq<Byte>, b: Block, kind: seq<Bit>, e: seq<Bit>)
    requires HasPayload(b, e) && StandsAlone(b, kind) && [1] + kind + e <= BitsOf(data)
    ensures Holds(data, [b]) && ExpandStream([b], []) == b.Apply([])
  {
    assert IsPayload(b, e);
    OneBlockStream(b);
    OneBlockValid(b);
    FinalBits(b, kind);
  }

  // ---- The tables ----

  /// Where the lengths of codes 257 to 285 begin ...
  lemma LengthsInNumbers()
    ensures LengthBase(0) == 3 && LengthBase(1) == 4 && LengthBase(2) == 5 && LengthBase(3) == 6
    ensures LengthBase(4) == 7 && LengthBase(5) == 8 && LengthBase(6) == 9 && LengthBase(7) == 10
    ensures LengthBase(8) == 11 && LengthBase(9) == 13 && LengthBase(10) == 15 && LengthBase(11) == 17
    ensures LengthBase(12) == 19 && LengthBase(13) == 23 && LengthBase(14) == 27 && LengthBase(15) == 31
    ensures LengthBase(16) == 35 && LengthBase(17) == 43 && LengthBase(18) == 51 && LengthBase(19) == 59
    ensures LengthBase(20) == 67 && LengthBase(21) == 83 && LengthBase(22) == 99 && LengthBase(23) == 115
    ensures LengthBase(24) == 131 && LengthBase(25) == 163 && LengthBase(26) == 195 && LengthBase(27) == 227
    ensures LengthBase(28) == 258
  {
  }

  /// ... and how many extra bits they have.
  lemma LengthExtrasInNumbers(c: nat)
    requires c < 29
    ensures LengthExtra(c) == [0, 0, 0, 0, 0, 0, 0, 0, 1, 1, 1, 1, 2, 2, 2, 2, 3, 3, 3, 3, 4, 4, 4, 4, 5, 5, 5, 5, 0][c]
  {
  }

  /// Where the distances of codes 0 to 29 begin ...
  lemma ShortDistancesInNumbers()
    ensures DistanceBase(0) == 1 && DistanceBase(1) == 2 && DistanceBase(2) == 3 && DistanceBase(3) == 4
    ensures DistanceBase(4) == 5 && DistanceBase(5) == 7 && DistanceBase(6) == 9 && DistanceBase(7) == 13
    ensures DistanceBase(8) == 17 && DistanceBase(9) == 25 && DistanceBase(10) == 33 && DistanceBase(11) == 49
    ensures DistanceBase(12) == 65 && DistanceBase(13) == 97 && DistanceBase(14) == 129 && DistanceBase(15) == 193
  {
  }

  lemma LongDistancesInNumbers()
    ensures DistanceBase(16) == 257 && DistanceBase(17) == 385 && DistanceBase(18) == 513 && DistanceBase(19) == 769
    ensures DistanceBase(20) == 1025 && DistanceBase(21) == 1537 && DistanceBase(22) == 2049 && DistanceBase(23) == 3073
    ensures DistanceBase(24) == 4097 && DistanceBase(25) == 6145 && DistanceBase(26) == 8193 && DistanceBase(27) == 12289
    ensures DistanceBase(28) == 16385 && DistanceBase(29) == 24577
  {
  }

  /// ... and how many extra bits they have.
  lemma DistanceExtrasInNumbers(c: nat)
    requires c < 30
    ensures DistanceExtra(c) == [0, 0, 0, 0, 1, 1, 2, 2, 3, 3, 4, 4, 5, 5, 6, 6, 7, 7, 8, 8, 9, 9, 10, 10, 11, 11, 12, 12, 13, 13][c]
  {
  }

  /// The order of the code lengths of a dynamic block.
  lemma OrderInNumbers(i: nat)
    requires i < 19
    ensures Order(i) == [16, 17, 18, 0, 8, 7, 9, 6, 10, 5, 11, 4, 12, 3, 13, 2, 14, 1, 15][i]
  {
  }

  /// What the length symbols 16, 17 and 18 stand for: the length before three to six times, three to ten zeros,
  /// and eleven to 138.
  lemma RepeatsInNumbers(so_far: seq<nat>, n: nat)
    requires so_far != []
    ensures Repeat(n).Symbol() == 16 && ShortZeros(n).Symbol() == 17 && LongZeros(n).Symbol() == 18
    ensures Repeat(n).InRange() <==> n < 4
    ensures ShortZeros(n).InRange() <==> n < 8
    ensures LongZeros(n).InRange() <==> n < 128
    ensures Repeat(n).Apply(so_far) == so_far + seq(3 + n, _ => so_far[|so_far| - 1])
    ensures ShortZeros(n).Apply(so_far) == so_far + seq(3 + n, _ => 0)
    ensures LongZeros(n).Apply(so_far) == so_far + seq(11 + n, _ => 0)
  {
    assert Pow2(2) == 4 && Pow2(3) == 8 && Pow2(7) == 128;
  }
}
