/// The DEFLATE format of RFC 1951, sections 3.2.3 to 3.2.7, as an encoder: what a list of blocks
/// looks like as bits, and which bytes it stands for.
module Deflate {
  import opened Bits
  import opened Huffman
  import opened BitReading

  /// No decompressed stream may grow past this.
  const MAX_OUTPUT: nat := 268435456

  // ---- Section 3.2.5: literals, lengths and distances ----

  // The two tables double their step every four (for distances, every two) codes; the source
  // spells them out and the decoder's lookups are proved against this rule.

  const LENGTH_CODES: nat := 29
  const DISTANCE_CODES: nat := 30

  function LengthExtra(c: nat): nat {
    if c < 8 || c == 28 then 0 else (c - 4) / 4
  }

  function LengthBase(c: nat): (n: nat)
    ensures n >= 3
  {
    if c == 28 then 258 else if c < 8 then 3 + c else 3 + Shl(4 + c % 4, LengthExtra(c))
  }

  function DistanceExtra(c: nat): nat {
    if c < 4 then 0 else c / 2 - 1
  }

  function DistanceBase(c: nat): (d: nat)
    ensures d >= 1
  {
    if c < 4 then 1 + c else 1 + Shl(2 + c % 2, DistanceExtra(c))
  }

  const END_OF_BLOCK: nat := 256

  /// A literal byte, or a back reference as its length and distance codes with their extra bits.
  datatype Token =
    | Literal(value: Byte)
    | Copy(lengthCode: nat, lengthExtra: nat, distanceCode: nat, distanceExtra: nat)
  {
    ghost predicate WellFormed() {
      Copy? ==>
        lengthCode < LENGTH_CODES && lengthExtra < Pow2(LengthExtra(lengthCode))
        && distanceCode < DISTANCE_CODES && distanceExtra < Pow2(DistanceExtra(distanceCode))
    }

    /// How many bytes it stands for.
    ghost function Length(): (n: nat)
      ensures n >= 1
    {
      if Copy? then LengthBase(lengthCode) + lengthExtra else 1
    }

    ghost function Distance(): nat {
      if Copy? then DistanceBase(distanceCode) + distanceExtra else 0
    }

    /// Its literal or length symbol.
    ghost function Symbol(): nat {
      if Copy? then END_OF_BLOCK + 1 + lengthCode else value
    }
  }

  /// The back reference of section 3.2.3: `n` bytes, each copied from `d` bytes before the end, so
  /// that a reference longer than its distance repeats what it has just written.
  ghost function CopyBack(out: seq<Byte>, d: nat, n: nat): (r: seq<Byte>)
    requires 1 <= d <= |out|
    ensures |r| == |out| + n
    decreases n
  {
    if n == 0 then out else CopyBack(out + [out[|out| - d]], d, n - 1)
  }

  ghost function Apply(out: seq<Byte>, t: Token): (r: seq<Byte>)
    ensures |r| >= |out| && (t.Distance() <= |out| ==> |r| == |out| + t.Length())
  {
    if t.Literal? then out + [t.value]
    else if t.Distance() <= |out| then CopyBack(out, t.Distance(), t.Length())
    else out
  }

  /// Every symbol of `t` has a code.
  ghost predicate Encodable(lit: Code, dist: Code, t: Token) {
    t.WellFormed() && t.Symbol() in lit && (t.Copy? ==> t.distanceCode in dist)
  }

  ghost function EncodeToken(lit: Code, dist: Code, t: Token): seq<Bit> {
    Word(lit, t.Symbol()) + if t.Copy? then CopyTail(dist, t) else []
  }

  /// What follows the length symbol of a back reference.
  ghost function CopyTail(dist: Code, t: Token): seq<Bit>
    requires t.Copy?
  {
    LsbBits(t.lengthExtra, LengthExtra(t.lengthCode))
    + (Word(dist, t.distanceCode) + LsbBits(t.distanceExtra, DistanceExtra(t.distanceCode)))
  }

  ghost predicate Codable(lit: Code, dist: Code, ts: seq<Token>) {
    if ts == [] then END_OF_BLOCK in lit else Encodable(lit, dist, ts[0]) && Codable(lit, dist, ts[1..])
  }

  ghost function EncodeTokens(lit: Code, dist: Code, ts: seq<Token>): seq<Bit> {
    if ts == [] then Word(lit, END_OF_BLOCK)
    else EncodeToken(lit, dist, ts[0]) + EncodeTokens(lit, dist, ts[1..])
  }

  /// No back reference points before the start of the output.
  ghost predicate AllReach(ts: seq<Token>, out: seq<Byte>) {
    ts == [] || (ts[0].Distance() <= |out| && AllReach(ts[1..], Apply(out, ts[0])))
  }

  ghost function Expand(ts: seq<Token>, out: seq<Byte>): (r: seq<Byte>)
    ensures |r| >= |out|
  {
    if ts == [] then out else Expand(ts[1..], Apply(out, ts[0]))
  }

  // ---- Section 3.2.7: the code lengths of a dynamic block ----

  /// The order in which the lengths of the code length code are sent: 16, 17, 18, 0, 8, 7, 9, 6,
  /// 10, 5, 11, 4, 12, 3, 13, 2, 14, 1, 15.
  function Order(i: nat): (s: nat)
    requires i < 19
    ensures s < 19
  {
    if i < 3 then 16 + i else if i == 3 then 0 else if i % 2 == 0 then 8 + (i - 4) / 2 else 7 - (i - 5) / 2
  }

  datatype LengthOp =
    | Length(l: nat)
    | Repeat(extra: nat)
    | ShortZeros(extra: nat)
    | LongZeros(extra: nat)
  {
    ghost function Symbol(): nat {
      match this
      case Length(l) => l
      case Repeat(_) => 16
      case ShortZeros(_) => 17
      case LongZeros(_) => 18
    }

    ghost function ExtraBits(): nat {
      match this
      case Length(_) => 0
      case Repeat(_) => 2
      case ShortZeros(_) => 3
      case LongZeros(_) => 7
    }

    ghost function Extra(): nat {
      if Length? then 0 else extra
    }

    ghost predicate InRange() {
      if Length? then l < 16 else extra < Pow2(ExtraBits())
    }

    /// There must be a length to repeat.
    ghost predicate Applicable(so_far: seq<nat>) {
      Repeat? ==> so_far != []
    }

    ghost function Apply(so_far: seq<nat>): (r: seq<nat>)
      ensures |r| > |so_far|
    {
      match this
      case Length(l) => so_far + [l]
      case Repeat(e) => so_far + Run(if so_far == [] then 0 else so_far[|so_far| - 1], 3 + e)
      case ShortZeros(e) => so_far + Run(0, 3 + e)
      case LongZeros(e) => so_far + Run(0, 11 + e)
    }
  }

  ghost predicate OpsCodable(code: Code, ops: seq<LengthOp>) {
    ops == [] || (ops[0].Symbol() in code && ops[0].InRange() && OpsCodable(code, ops[1..]))
  }

  ghost function EncodeOps(code: Code, ops: seq<LengthOp>): seq<Bit> {
    if ops == [] then [] else EncodeOp(code, ops[0]) + EncodeOps(code, ops[1..])
  }

  ghost function EncodeOp(code: Code, op: LengthOp): seq<Bit> {
    Word(code, op.Symbol()) + LsbBits(op.Extra(), op.ExtraBits())
  }

  /// The operations fill a list of exactly `total` lengths.
  ghost predicate OpsFill(ops: seq<LengthOp>, so_far: seq<nat>, total: nat) {
    if ops == [] then |so_far| == total
    else
      |so_far| < total && ops[0].Applicable(so_far) && |ops[0].Apply(so_far)| <= total
      && OpsFill(ops[1..], ops[0].Apply(so_far), total)
  }

  ghost function ExpandOps(ops: seq<LengthOp>, so_far: seq<nat>): seq<nat> {
    if ops == [] then so_far else ExpandOps(ops[1..], ops[0].Apply(so_far))
  }

  /// The three-bit lengths of the code length code, as they are sent.
  ghost function EncodeEach(sent: seq<nat>): seq<Bit> {
    if sent == [] then [] else LsbBits(sent[0], 3) + EncodeEach(sent[1..])
  }

  ghost predicate EachFits(sent: seq<nat>) {
    sent == [] || (sent[0] < Pow2(3) && EachFits(sent[1..]))
  }

  /// They belong to the symbols in `Order`; the symbols not reached have no code.
  ghost function CodeLengths(sent: seq<nat>, n: nat): (r: seq<nat>)
    ensures |r| == 19
  {
    if n == 0 || n > 19 || n > |sent| then Run(0, 19)
    else CodeLengths(sent, n - 1)[Order(n - 1) := sent[n - 1]]
  }

  /// The tables of a dynamic block: how many literal lengths, and lengths in all, the lengths of the code
  /// length code, and the operations coded with it.
  datatype Header = Header(hlit: nat, total: nat, sent: seq<nat>, ops: seq<LengthOp>) {
    ghost predicate Counted() {
      257 <= hlit <= 286 && hlit + 1 <= total <= hlit + 30 && 4 <= |sent| <= 19
    }

    ghost predicate WellFormed() {
      && Counted() && EachFits(sent)
      && Usable(CodeLengths(sent, |sent|)) && OpsCodable(OpsCode(), ops) && OpsFill(ops, [], total)
      && Usable(LitLengths()) && Usable(DistLengths())
    }

    ghost function OpsCode(): Code {
      Canonical(CodeLengths(sent, |sent|))
    }

    ghost function LitLengths(): seq<nat> {
      var all := ExpandOps(ops, []);
      if hlit <= |all| then all[..hlit] else all
    }

    ghost function DistLengths(): seq<nat> {
      var all := ExpandOps(ops, []);
      if hlit <= |all| then all[hlit..] else []
    }

    ghost function EncodeLists(): seq<Bit> {
      EncodeEach(sent) + EncodeOps(OpsCode(), ops)
    }

    ghost function Encode(): seq<Bit>
      requires Counted()
    {
      LsbBits(hlit - 257, 5) + (LsbBits(total - hlit - 1, 5) + (LsbBits(|sent| - 4, 4) + EncodeLists()))
    }
  }

  // ---- Section 3.2.6: the fixed codes ----

  function Run(v: nat, n: nat): (r: seq<nat>)
    ensures |r| == n
  {
    seq(n, _ => v)
  }

  ghost function FixedLitLengths(): seq<nat> {
    Run(8, 144) + Run(9, 112) + Run(7, 24) + Run(8, 8)
  }

  ghost function FixedDistLengths(): seq<nat> {
    Run(5, 30)
  }

  // ---- Sections 3.2.3 and 3.2.4: blocks ----

  datatype Block =
    | Stored(padding: seq<Bit>, content: seq<Byte>)
    | Fixed(tokens: seq<Token>)
    | Dynamic(header: Header, tokens: seq<Token>)
  {
    ghost predicate WellFormed() {
      match this
      case Stored(pad, content) => |pad| < 8 && |content| < 65536
      case Fixed(ts) => Codable(Canonical(FixedLitLengths()), Canonical(FixedDistLengths()), ts)
      case Dynamic(h, ts) => h.WellFormed() && Codable(Canonical(h.LitLengths()), Canonical(h.DistLengths()), ts)
    }

    /// A stored block pads its three header bits to a byte boundary.
    ghost predicate Aligned(p: nat) {
      Stored? ==> (p + 3 + |padding|) % 8 == 0
    }

    /// The block makes sense after `out`, and its output stays under the ceiling: a stored block
    /// may reach it, but the end-of-block symbol of a compressed block must come before it.
    ghost predicate Fits(out: seq<Byte>) {
      if Stored? then |out| + |content| <= MAX_OUTPUT else AllReach(tokens, out) && |Expand(tokens, out)| < MAX_OUTPUT
    }

    ghost function Apply(out: seq<Byte>): (r: seq<Byte>) {
      if Stored? then out + content else Expand(tokens, out)
    }

    ghost function Type(): nat {
      match this
      case Stored(_, _) => 0
      case Fixed(_) => 1
      case Dynamic(_, _) => 2
    }

    ghost function Payload(): seq<Bit>
      requires WellFormed()
    {
      match this
      case Stored(pad, content) =>
        pad + (LsbBits(|content|, 16) + (LsbBits(65535 - |content|, 16) + BitsOf(content)))
      case Fixed(ts) => EncodeTokens(Canonical(FixedLitLengths()), Canonical(FixedDistLengths()), ts)
      case Dynamic(h, ts) => h.Encode() + EncodeTokens(Canonical(h.LitLengths()), Canonical(h.DistLengths()), ts)
    }

    ghost function Encode(final: bool): (r: seq<Bit>)
      requires WellFormed()
      ensures |r| == 3 + |Payload()|
    {
      LsbBits(if final then 1 else 0, 1) + (LsbBits(Type(), 2) + Payload())
    }

    /// Where the next block starts when this one starts at bit `p` and is not the last.
    ghost function After(p: nat): nat
      requires WellFormed()
    {
      p + |Encode(false)|
    }
  }

  ghost predicate AllWellFormed(blocks: seq<Block>) {
    blocks == [] || (blocks[0].WellFormed() && AllWellFormed(blocks[1..]))
  }

  /// Only the last block is marked final.
  ghost function EncodeStream(blocks: seq<Block>): seq<Bit>
    requires blocks != [] && AllWellFormed(blocks)
  {
    if |blocks| == 1 then blocks[0].Encode(true)
    else blocks[0].Encode(false) + EncodeStream(blocks[1..])
  }

  /// Every stored block is padded to a byte boundary when the first block starts at bit `p`.
  ghost predicate AllAligned(blocks: seq<Block>, p: nat)
    requires AllWellFormed(blocks)
  {
    blocks == [] || (blocks[0].Aligned(p) && AllAligned(blocks[1..], blocks[0].After(p)))
  }

  ghost predicate AllFit(blocks: seq<Block>, out: seq<Byte>) {
    blocks == [] || (blocks[0].Fits(out) && AllFit(blocks[1..], blocks[0].Apply(out)))
  }

  ghost function ExpandStream(blocks: seq<Block>, out: seq<Byte>): seq<Byte> {
    if blocks == [] then out else ExpandStream(blocks[1..], blocks[0].Apply(out))
  }

  ghost predicate ValidStream(blocks: seq<Block>, p: nat, out: seq<Byte>) {
    blocks != [] && AllWellFormed(blocks) && AllAligned(blocks, p) && AllFit(blocks, out)
  }

  /// `data` starts with the encoding of `blocks`.
  ghost predicate Holds(data: seq<Byte>, blocks: seq<Block>) {
    ValidStream(blocks, 0, []) && EncodeStream(blocks) <= BitsOf(data)
  }

  // ---- What the tables cover, and what an overlapping copy writes ----

  /// Byte `i` of a back reference is byte `i mod d` of the `d` bytes before it.
  lemma {:induction false} CopyBackByte(out: seq<Byte>, d: nat, n: nat, i: nat)
    requires 1 <= d <= |out| && i < n
    ensures CopyBack(out, d, n)[..|out|] == out
    ensures CopyBack(out, d, n)[|out| + i] == out[|out| - d + i % d]
    decreases n
  {
    CopyBackPrefix(out, d, n);
    var longer := out + [out[|out| - d]];
    var r := CopyBack(longer, d, n - 1);
    if i == 0 {
      CopyBackPrefix(longer, d, n - 1);
      assert r[|out|] == r[..|longer|][|out|];
    } else {
      CopyBackByte(longer, d, n - 1, i - 1);
      Wrap(i, d);
      var x := (i - 1) % d;
      assert r[|out| + i] == longer[|out| - d + (x + 1)];
    }
  }

  lemma {:induction false} CopyBackPrefix(out: seq<Byte>, d: nat, n: nat)
    requires 1 <= d <= |out|
    ensures CopyBack(out, d, n)[..|out|] == out
    decreases n
  {
    if n > 0 {
      var longer := out + [out[|out| - d]];
      CopyBackPrefix(longer, d, n - 1);
      assert CopyBack(out, d, n)[..|out|] == CopyBack(longer, d, n - 1)[..|longer|][..|out|];
    }
  }

  lemma Wrap(i: nat, d: nat)
    requires d >= 1 && i >= 1
    ensures (i - 1) % d + 1 == if i % d == 0 then d else i % d
  {
    var q, r := (i - 1) / d, (i - 1) % d;
    assert i == d * q + (r + 1);
    if r + 1 < d {
      RemainderIs(i, d, q, r + 1);
    } else {
      assert i == d * (q + 1) + 0;
      RemainderIs(i, d, q + 1, 0);
    }
  }

  lemma RemainderIs(v: nat, d: nat, q: nat, r: nat)
    requires d > 0 && v == d * q + r && r < d
    ensures v % d == r
  {
    var q' := v / d;
    if q' > q {
      MulMonotone(d, q + 1, q');
    } else if q' < q {
      MulMonotone(d, q' + 1, q);
    }
  }

  lemma MulMonotone(c: nat, a: int, b: int)
    requires a <= b
    ensures c * a <= c * b
  {
  }

  /// Every length from 3 to 258 and every distance from 1 to 32768 has a code and extra bits.
  lemma LengthsCovered(n: nat) returns (c: nat, e: nat)
    requires 3 <= n <= 258
    ensures c < LENGTH_CODES && e < Pow2(LengthExtra(c)) && LengthBase(c) + e == n
  {
    if n == 258 {
      return 28, 0;
    }
    c := 27;
    while LengthBase(c) > n
      invariant c <= 27 && (c < 27 ==> n < LengthBase(c + 1))
      decreases c
    {
      c := c - 1;
    }
    e := n - LengthBase(c);
    NextLength(c);
  }

  lemma LengthAt(c: nat, e: nat, r: nat)
    requires c == 4 * (e + 1) + r && r < 4 && 8 <= c < 28
    ensures LengthExtra(c) == e && LengthBase(c) == 3 + Shl(4 + r, e)
  {
    assert c % 4 == r;
  }

  lemma NextShort(c: nat)
    requires c < 8
    ensures LengthBase(c) + Pow2(LengthExtra(c)) == LengthBase(c + 1)
  {
    if c == 7 {
      LengthAt(8, 1, 0);
    }
  }

  lemma NextLong(c: nat, e: nat, r: nat)
    requires 8 <= c <= 27 && c == 4 * (e + 1) + r && r < 4
    ensures LengthBase(c) + Pow2(LengthExtra(c)) == if c < 27 then LengthBase(c + 1) else 259
  {
    LengthAt(c, e, r);
    ShlPlus(4 + r, 1, e);
    ShlDouble(4, e);
    if c == 27 {
      assert Shl(8, 5) == 256;
    } else if r < 3 {
      LengthAt(c + 1, e, r + 1);
    } else {
      LengthAt(c + 1, e + 1, 0);
    }
  }

  lemma NextLength(c: nat)
    requires c <= 27
    ensures LengthBase(c) + Pow2(LengthExtra(c)) == if c < 27 then LengthBase(c + 1) else 259
  {
    if c >= 8 {
      NextLong(c, c / 4 - 1, c % 4);
    } else {
      NextShort(c);
    }
  }

  lemma DistancesCovered(d: nat) returns (c: nat, e: nat)
    requires 1 <= d <= 32768
    ensures c < DISTANCE_CODES && e < Pow2(DistanceExtra(c)) && DistanceBase(c) + e == d
  {
    c := 29;
    while DistanceBase(c) > d
      invariant c <= 29 && (c < 29 ==> d < DistanceBase(c + 1))
      decreases c
    {
      c := c - 1;
    }
    e := d - DistanceBase(c);
    NextDistance(c);
  }

  lemma DistanceAt(c: nat, e: nat, r: nat)
    requires c == 2 * (e + 1) + r && r < 2 && c >= 4
    ensures DistanceExtra(c) == e && DistanceBase(c) == 1 + Shl(2 + r, e)
  {
    assert c % 2 == r;
  }

  lemma ShlNext(a: nat, e: nat)
    ensures Shl(a, e) + Pow2(e) == Shl(a + 1, e)
  {
    ShlPlus(a, 1, e);
  }

  lemma EvenStep(c: nat, e: nat, next: nat)
    requires c == 2 * (e + 1) && e >= 1 && next == c + 1
    ensures DistanceBase(c) + Pow2(DistanceExtra(c)) == DistanceBase(next)
  {
    DistanceAt(c, e, 0);
    DistanceAt(next, e, 1);
    ShlNext(2, e);
  }

  lemma OddStep(c: nat, e: nat, next: nat)
    requires c == 2 * (e + 1) + 1 && e >= 1 && next == c + 1
    ensures DistanceBase(c) + Pow2(DistanceExtra(c)) == DistanceBase(next)
  {
    DistanceAt(c, e, 1);
    DistanceAt(next, e + 1, 0);
    ShlNext(3, e);
    ShlDouble(2, e);
  }

  lemma NextDistance(c: nat)
    requires c <= 29
    ensures DistanceBase(c) + Pow2(DistanceExtra(c)) == if c < 29 then DistanceBase(c + 1) else 32769
  {
    if c >= 4 {
      if c % 2 == 0 {
        EvenStep(c, c / 2 - 1, c + 1);
      } else {
        OddStep(c, c / 2 - 1, c + 1);
      }
      DistanceAt(30, 14, 0);
      assert Shl(2, 14) == 32768;
    }
  }
}
