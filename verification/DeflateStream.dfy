/// Whole DEFLATE streams: the block loop as a function on the bit string, and the proof that it
/// accepts exactly the encodings of valid block lists and returns what they stand for.
module DeflateStreams {
  import opened Bits
  import opened Huffman
  import opened BitReading
  import opened Deflate
  import opened DeflateParsing

  // ---- Blocks ----

  function AlignUp(p: nat): (q: nat)
    ensures p <= q < p + 8 && q % 8 == 0
  {
    p + (8 - p % 8) % 8
  }

  ghost function BytesAt(bits: seq<Bit>, p: nat, n: nat): (r: seq<Byte>)
    requires p + 8 * n <= |bits|
    ensures |r| == n
  {
    seq(n, i requires 0 <= i < n => ByteAt(bits, p + 8 * i))
  }

  ghost function ByteAt(bits: seq<Bit>, p: nat): Byte
    requires p + 8 <= |bits|
  {
    LsbValueBound(bits[p..p + 8]);
    assert Pow2(8) == 256;
    LsbValue(bits[p..p + 8])
  }

  ghost function TakeStored(bits: seq<Bit>, p: nat, out: seq<Byte>): (r: Parsed<seq<Byte>>)
    ensures r.Parsed? ==> p <= r.next
  {
    var (length, p1) :- TakeBits(bits, AlignUp(p), 16);
    var (inverse, p2) :- TakeBits(bits, p1, 16);
    if inverse != 65535 - length || |out| + length > MAX_OUTPUT || p2 + 8 * length > |bits| then NoParse
    else Parsed(out + BytesAt(bits, p2, length), p2 + 8 * length)
  }

  /// The body of a block of the given type, after its three header bits.
  ghost function TakePayload(bits: seq<Bit>, p: nat, kind: nat, out: seq<Byte>): (r: Parsed<seq<Byte>>)
    ensures r.Parsed? ==> p <= r.next
  {
    if kind == 0 then TakeStored(bits, p, out)
    else if kind == 1 then TakeBody(bits, p, Canonical(FixedLitLengths()), Canonical(FixedDistLengths()), out)
    else if kind == 2 then
      var (t, p1) :- TakeTables(bits, p);
      TakeBody(bits, p1, Canonical(t.lit), Canonical(t.dist), out)
    else NoParse
  }

  ghost function TakeStream(bits: seq<Bit>, p: nat, out: seq<Byte>): (r: Parsed<seq<Byte>>)
    decreases |bits| - p
  {
    var (final, p1) :- TakeBits(bits, p, 1);
    var (kind, p2) :- TakeBits(bits, p1, 2);
    var (more, p3) :- TakePayload(bits, p2, kind, out);
    if final != 0 then Parsed(more, p3) else TakeStream(bits, p3, more)
  }

  lemma BytesOfBits(bits: seq<Bit>, p: nat, n: nat, q: nat)
    requires q == p + 8 * n <= |bits|
    ensures BitsOf(BytesAt(bits, p, n)) == bits[p..q]
  {
    var bytes := BytesAt(bits, p, n);
    forall i | 0 <= i < 8 * n
      ensures BitsOf(bytes)[i] == bits[p..q][i]
    {
      var k, j := i / 8, i % 8;
      var chunk := bits[p + 8 * k..p + 8 * k + 8];
      assert bytes[k] == LsbValue(chunk);
      LsbBitsOfValue(chunk);
      LsbBitsIndex(bytes[k], 8, j);
      assert chunk[j] == bits[p + i];
    }
  }

  lemma BitsDetermineBytes(a: seq<Byte>, b: seq<Byte>)
    requires BitsOf(a) == BitsOf(b)
    ensures a == b
  {
    assert |a| == |b|;
    forall i | 0 <= i < |a|
      ensures a[i] == b[i]
    {
      ByteOfBits(a, i);
      ByteOfBits(b, i);
    }
  }

  lemma ContentTaken(bits: seq<Bit>, p: nat, content: seq<Byte>, q: nat)
    requires q == p + 8 * |content|
    ensures Follows(bits, p, BitsOf(content)) <==> q <= |bits| && BytesAt(bits, p, |content|) == content
  {
    if q <= |bits| {
      BytesOfBits(bits, p, |content|, q);
      if bits[p..q] == BitsOf(content) {
        BitsDetermineBytes(BytesAt(bits, p, |content|), content);
      }
    }
  }

  // ---- Stored blocks ----

  lemma StoredParts(bits: seq<Bit>, p: nat, pad: seq<Bit>, content: seq<Byte>, n: nat, q: nat, q1: nat, q2: nat)
    requires n == |content| < 65536 && q == p + |pad| && q1 == q + 16 && q2 == q1 + 16
    ensures Follows(bits, p, pad + (LsbBits(n, 16) + (LsbBits(65535 - n, 16) + BitsOf(content))))
       <==> Follows(bits, p, pad) && TakeBits(bits, q, 16) == Parsed(n, q1)
            && TakeBits(bits, q1, 16) == Parsed(65535 - n, q2) && Follows(bits, q2, BitsOf(content))
  {
    var m, e := 65535 - n, BitsOf(content);
    var a, b := LsbBits(n, 16), LsbBits(m, 16);
    SixteenBits();
    FollowsConcat(bits, p, pad, a + (b + e), q);
    FollowsConcat(bits, q, a, b + e, q1);
    FollowsConcat(bits, q1, b, e, q2);
    FollowsNumber(bits, q, n, 16, q1);
    FollowsNumber(bits, q1, m, 16, q2);
  }

  lemma StoredUnfold(bits: seq<Bit>, p: nat, out: seq<Byte>, n: nat, q: nat, q1: nat, q2: nat, q3: nat)
    requires q == AlignUp(p) && TakeBits(bits, q, 16) == Parsed(n, q1)
    requires TakeBits(bits, q1, 16) == Parsed(65535 - n, q2) && q3 == q2 + 8 * n <= |bits| && n < 65536
    requires |out| + n <= MAX_OUTPUT
    ensures TakeStored(bits, p, out) == Parsed(out + BytesAt(bits, q2, n), q3)
  {
  }

  /// The padding of a stored block is what brings it to the next byte boundary.
  lemma Padding(s: nat, p: nat, q: nat, pad: seq<Bit>, content: seq<Byte>)
    requires p == s + 3 && q == p + |pad|
    ensures |pad| < 8 && Stored(pad, content).Aligned(s) <==> q == AlignUp(p)
  {
    assert Stored(pad, content).Aligned(s) <==> q % 8 == 0;
    assert p <= q;
  }

  lemma StoredShape(p: nat, q: nat, q2: nat, q3: nat, pad: seq<Bit>, content: seq<Byte>, n: nat, b: Block)
    requires q == p + |pad| && q2 == q + 32 && q3 == q2 + 8 * n && n == |content| < 65536 && |pad| < 8
    requires b == Stored(pad, content)
    ensures b.WellFormed() && q3 == p + |b.Payload()|
    ensures b.Payload() == pad + (LsbBits(n, 16) + (LsbBits(65535 - n, 16) + BitsOf(content)))
  {
  }

  lemma StoredRead(bits: seq<Bit>, p: nat, out: seq<Byte>) returns (n: nat, q: nat)
    requires TakeStored(bits, p, out).Parsed?
    ensures q == AlignUp(p) && n < 65536 && |out| + n <= MAX_OUTPUT && q + 32 + 8 * n <= |bits|
    ensures TakeBits(bits, q, 16) == Parsed(n, q + 16) && TakeBits(bits, q + 16, 16) == Parsed(65535 - n, q + 32)
  {
    q := AlignUp(p);
    n := TakeBits(bits, q, 16).value;
    TakenNumber(bits, q, 16);
    SixteenBits();
  }

  lemma StoredFollows(bits: seq<Bit>, p: nat, pad: seq<Bit>, content: seq<Byte>, n: nat, q: nat, q1: nat, q2: nat, q3: nat)
    requires p <= q <= |bits| && q3 == q2 + 8 * n <= |bits| && n < 65536 && q1 == q + 16 && q2 == q1 + 16
    requires TakeBits(bits, q, 16) == Parsed(n, q1) && TakeBits(bits, q1, 16) == Parsed(65535 - n, q2)
    requires pad == bits[p..q] && content == BytesAt(bits, q2, n)
    ensures Follows(bits, p, pad + (LsbBits(n, 16) + (LsbBits(65535 - n, 16) + BitsOf(content))))
  {
    StoredParts(bits, p, pad, content, n, q, q1, q2);
    ContentTaken(bits, q2, content, q3);
  }

  lemma StoredSound(bits: seq<Bit>, s: nat, p: nat, out: seq<Byte>) returns (b: Block)
    requires p == s + 3 && TakeStored(bits, p, out).Parsed?
    ensures b.Stored? && b.WellFormed() && b.Aligned(s) && b.Fits(out) && Follows(bits, p, b.Payload())
    ensures TakeStored(bits, p, out) == Parsed(b.Apply(out), p + |b.Payload()|)
  {
    var n, q := StoredRead(bits, p, out);
    var q1, q2 := q + 16, q + 32;
    var q3 := q2 + 8 * n;
    var pad, content := bits[p..q], BytesAt(bits, q2, n);
    b := Stored(pad, content);
    StoredFollows(bits, p, pad, content, n, q, q1, q2, q3);
    StoredUnfold(bits, p, out, n, q, q1, q2, q3);
    Padding(s, p, q, pad, content);
    StoredShape(p, q, q2, q3, pad, content, n, b);
  }

  lemma StoredTaken(bits: seq<Bit>, p: nat, out: seq<Byte>, pad: seq<Bit>, content: seq<Byte>, n: nat, q: nat, q3: nat)
    requires q == p + |pad| == AlignUp(p) && n == |content| < 65536 && q3 == q + 32 + 8 * n && |out| + n <= MAX_OUTPUT
    requires Follows(bits, p, pad + (LsbBits(n, 16) + (LsbBits(65535 - n, 16) + BitsOf(content))))
    ensures TakeStored(bits, p, out) == Parsed(out + content, q3)
  {
    var q1 := q + 16;
    var q2 := q1 + 16;
    StoredParts(bits, p, pad, content, n, q, q1, q2);
    ContentTaken(bits, q2, content, q3);
    StoredUnfold(bits, p, out, n, q, q1, q2, q3);
  }

  lemma StoredComplete(bits: seq<Bit>, s: nat, p: nat, out: seq<Byte>, b: Block)
    requires p == s + 3 && b.Stored? && b.WellFormed() && b.Aligned(s) && b.Fits(out) && Follows(bits, p, b.Payload())
    ensures TakeStored(bits, p, out) == Parsed(b.Apply(out), p + |b.Payload()|)
  {
    StoredParsed(bits, s, p, out, b.padding, b.content, |b.content|, p + |b.padding|, b);
  }

  lemma StoredParsed(bits: seq<Bit>, s: nat, p: nat, out: seq<Byte>, pad: seq<Bit>, content: seq<Byte>, n: nat, q: nat, b: Block)
    requires p == s + 3 && b == Stored(pad, content) && n == |content| && q == p + |pad|
    requires b.WellFormed() && b.Aligned(s) && b.Fits(out) && Follows(bits, p, b.Payload())
    ensures TakeStored(bits, p, out) == Parsed(out + content, p + |b.Payload()|)
  {
    var q2 := q + 32;
    var q3 := q2 + 8 * n;
    Padding(s, p, q, pad, content);
    StoredShape(p, q, q2, q3, pad, content, n, b);
    StoredTaken(bits, p, out, pad, content, n, q, q3);
  }

  // ---- The fixed codes are usable ----

  lemma WeightSnoc(lengths: seq<nat>, v: nat)
    requires 1 <= v <= MAX_BITS
    ensures Weight(lengths + [v], MAX_BITS) == Weight(lengths, MAX_BITS) + Pow2(MAX_BITS - v)
  {
    var all := lengths + [v];
    assert all[..|all| - 1] == lengths;
  }

  lemma OneLess(n: nat, unit: nat, total: nat)
    requires n > 0 && total == n * unit
    ensures total - unit == (n - 1) * unit >= 0
  {
  }

  lemma {:induction false} WeightOfRun(lengths: seq<nat>, v: nat, n: nat, unit: nat, total: nat)
    requires 1 <= v <= MAX_BITS && unit == Pow2(MAX_BITS - v) && total == n * unit
    ensures Weight(lengths + Run(v, n), MAX_BITS) == Weight(lengths, MAX_BITS) + total
  {
    if n == 0 {
      assert lengths + Run(v, n) == lengths;
    } else {
      var shorter := lengths + Run(v, n - 1);
      OneLess(n, unit, total);
      WeightOfRun(lengths, v, n - 1, unit, total - unit);
      WeightSnoc(shorter, v);
      assert lengths + Run(v, n) == shorter + [v];
    }
  }

  lemma FixedLitUsable()
    ensures Usable(FixedLitLengths())
  {
    assert Pow2(7) == 128 && Pow2(6) == 64 && Pow2(8) == 256;
    var none: seq<nat> := [];
    var a, b, c, d := Run(8, 144), Run(9, 112), Run(7, 24), Run(8, 8);
    assert none + a == a;
    WeightOfRun(none, 8, 144, 128, 18432);
    WeightOfRun(a, 9, 112, 64, 7168);
    WeightOfRun(a + b, 7, 24, 256, 6144);
    WeightOfRun(a + b + c, 8, 8, 128, 1024);
    assert Pow2(15) == 32768;
  }

  lemma FixedUsable()
    ensures Usable(FixedLitLengths()) && Usable(FixedDistLengths())
  {
    FixedLitUsable();
    assert Pow2(10) == 1024 && Pow2(15) == 32768;
    var none: seq<nat> := [];
    assert none + Run(5, 30) == Run(5, 30);
    WeightOfRun(none, 5, 30, 1024, 30720);
  }

  // ---- Any block ----

  /// The symbol loop with the canonical codes of two length vectors.
  lemma CanonicalBodySound(bits: seq<Bit>, p: nat, l: seq<nat>, d: seq<nat>, out: seq<Byte>) returns (ts: seq<Token>)
    requires Usable(l) && Usable(d) && TakeBody(bits, p, Canonical(l), Canonical(d), out).Parsed?
    ensures Codable(Canonical(l), Canonical(d), ts) && AllReach(ts, out)
    ensures Follows(bits, p, EncodeTokens(Canonical(l), Canonical(d), ts)) && |Expand(ts, out)| < MAX_OUTPUT
    ensures TakeBody(bits, p, Canonical(l), Canonical(d), out)
         == Parsed(Expand(ts, out), p + |EncodeTokens(Canonical(l), Canonical(d), ts)|)
  {
    CanonicalPrefixFree(l);
    CanonicalPrefixFree(d);
    ts := BodySound(bits, p, Canonical(l), Canonical(d), out);
  }

  lemma CanonicalBodyComplete(bits: seq<Bit>, p: nat, l: seq<nat>, d: seq<nat>, out: seq<Byte>, ts: seq<Token>)
    requires Usable(l) && Usable(d) && Codable(Canonical(l), Canonical(d), ts) && AllReach(ts, out)
    requires Follows(bits, p, EncodeTokens(Canonical(l), Canonical(d), ts)) && |Expand(ts, out)| < MAX_OUTPUT
    ensures TakeBody(bits, p, Canonical(l), Canonical(d), out)
         == Parsed(Expand(ts, out), p + |EncodeTokens(Canonical(l), Canonical(d), ts)|)
  {
    CanonicalPrefixFree(l);
    CanonicalPrefixFree(d);
    BodyComplete(bits, p, Canonical(l), Canonical(d), out, ts);
  }

  /// What a block of the given type turns out to be.
  lemma PayloadSound(bits: seq<Bit>, s: nat, p: nat, kind: nat, out: seq<Byte>) returns (b: Block)
    requires p == s + 3 <= |bits| && TakePayload(bits, p, kind, out).Parsed?
    ensures b.WellFormed() && b.Type() == kind && b.Aligned(s) && b.Fits(out) && Follows(bits, p, b.Payload())
    ensures TakePayload(bits, p, kind, out) == Parsed(b.Apply(out), p + |b.Payload()|)
  {
    if kind == 0 {
      b := StoredSound(bits, s, p, out);
    } else if kind == 1 {
      FixedUsable();
      var ts := CanonicalBodySound(bits, p, FixedLitLengths(), FixedDistLengths(), out);
      b := Fixed(ts);
    } else {
      b := DynamicSound(bits, p, out);
    }
  }

  lemma DynamicUnfold(bits: seq<Bit>, p: nat, out: seq<Byte>, lit: seq<nat>, dist: seq<nat>, q: nat)
    requires TakeTables(bits, p) == Parsed(Tables(lit, dist), q)
    ensures TakePayload(bits, p, 2, out) == TakeBody(bits, q, Canonical(lit), Canonical(dist), out)
  {
  }

  lemma DynamicShape(h: Header, l: seq<nat>, d: seq<nat>, ts: seq<Token>, b: Block, p: nat, q: nat)
    requires b == Dynamic(h, ts) && h.WellFormed() && q == p + |h.Encode()|
    requires l == h.LitLengths() && d == h.DistLengths() && Codable(Canonical(l), Canonical(d), ts)
    ensures b.WellFormed()
    ensures b.Payload() == h.Encode() + EncodeTokens(Canonical(l), Canonical(d), ts)
    ensures p + |b.Payload()| == q + |EncodeTokens(Canonical(l), Canonical(d), ts)|
  {
  }

  lemma DynamicBlock(bits: seq<Bit>, p: nat, out: seq<Byte>, h: Header, l: seq<nat>, d: seq<nat>, ts: seq<Token>, b: Block, q: nat)
    requires b == Dynamic(h, ts) && h.WellFormed() && q == p + |h.Encode()| && AllReach(ts, out)
    requires l == h.LitLengths() && d == h.DistLengths() && Codable(Canonical(l), Canonical(d), ts)
    requires |Expand(ts, out)| < MAX_OUTPUT && Follows(bits, p, h.Encode())
    requires Follows(bits, q, EncodeTokens(Canonical(l), Canonical(d), ts))
    ensures b.WellFormed() && b.Fits(out) && b.Apply(out) == Expand(ts, out) && Follows(bits, p, b.Payload())
    ensures p + |b.Payload()| == q + |EncodeTokens(Canonical(l), Canonical(d), ts)|
  {
    DynamicShape(h, l, d, ts, b, p, q);
    FollowsConcat(bits, p, h.Encode(), EncodeTokens(Canonical(l), Canonical(d), ts), q);
  }

  lemma HeaderSound(bits: seq<Bit>, p: nat, out: seq<Byte>) returns (h: Header, l: seq<nat>, d: seq<nat>, q: nat)
    requires TakePayload(bits, p, 2, out).Parsed?
    ensures h.WellFormed() && l == h.LitLengths() && d == h.DistLengths() && q == p + |h.Encode()|
    ensures Usable(l) && Usable(d) && Follows(bits, p, h.Encode())
    ensures TakePayload(bits, p, 2, out) == TakeBody(bits, q, Canonical(l), Canonical(d), out)
  {
    h := TablesSound(bits, p);
    l, d, q := h.LitLengths(), h.DistLengths(), p + |h.Encode()|;
    DynamicUnfold(bits, p, out, l, d, q);
  }

  lemma DynamicSound(bits: seq<Bit>, p: nat, out: seq<Byte>) returns (b: Block)
    requires TakePayload(bits, p, 2, out).Parsed?
    ensures b.WellFormed() && b.Dynamic? && b.Fits(out) && Follows(bits, p, b.Payload())
    ensures TakePayload(bits, p, 2, out) == Parsed(b.Apply(out), p + |b.Payload()|)
  {
    var h, l, d, q := HeaderSound(bits, p, out);
    var ts := CanonicalBodySound(bits, q, l, d, out);
    b := Dynamic(h, ts);
    DynamicBlock(bits, p, out, h, l, d, ts, b, q);
  }

  lemma PayloadComplete(bits: seq<Bit>, s: nat, p: nat, out: seq<Byte>, b: Block)
    requires p == s + 3 && b.WellFormed() && b.Aligned(s) && b.Fits(out) && Follows(bits, p, b.Payload())
    ensures TakePayload(bits, p, b.Type(), out) == Parsed(b.Apply(out), p + |b.Payload()|)
  {
    if b.Stored? {
      StoredComplete(bits, s, p, out, b);
    } else if b.Fixed? {
      FixedUsable();
      CanonicalBodyComplete(bits, p, FixedLitLengths(), FixedDistLengths(), out, b.tokens);
    } else {
      DynamicComplete(bits, p, out, b.header, b.tokens, b);
    }
  }

  lemma HeaderTaken(bits: seq<Bit>, p: nat, h: Header, l: seq<nat>, d: seq<nat>, q: nat)
    requires h.WellFormed() && Follows(bits, p, h.Encode()) && q == p + |h.Encode()|
    requires l == h.LitLengths() && d == h.DistLengths()
    ensures TakeTables(bits, p) == Parsed(Tables(l, d), q)
  {
    TablesComplete(bits, p, h, h.hlit - 257, h.total - h.hlit - 1, |h.sent| - 4);
  }

  lemma DynamicComplete(bits: seq<Bit>, p: nat, out: seq<Byte>, h: Header, ts: seq<Token>, b: Block)
    requires b == Dynamic(h, ts) && b.WellFormed() && b.Fits(out) && Follows(bits, p, b.Payload())
    ensures TakePayload(bits, p, 2, out) == Parsed(b.Apply(out), p + |b.Payload()|)
  {
    var l, d, e := h.LitLengths(), h.DistLengths(), h.Encode();
    var lit, dist, q := Canonical(l), Canonical(d), p + |e|;
    DynamicShape(h, l, d, ts, b, p, q);
    FollowsConcat(bits, p, e, EncodeTokens(lit, dist, ts), q);
    HeaderTaken(bits, p, h, l, d, q);
    CanonicalBodyComplete(bits, q, l, d, out, ts);
    DynamicUnfold(bits, p, out, l, d, q);
  }

  // ---- Streams ----

  /// The three header bits of a block.
  lemma HeaderParts(bits: seq<Bit>, s: nat, payload: seq<Bit>, f: nat, k: nat, s1: nat, p: nat)
    requires f < 2 && k < 4 && s1 == s + 1 && p == s1 + 2
    ensures Follows(bits, s, LsbBits(f, 1) + (LsbBits(k, 2) + payload))
       <==> TakeBits(bits, s, 1) == Parsed(f, s1) && TakeBits(bits, s1, 2) == Parsed(k, p) && Follows(bits, p, payload)
  {
    var a, c := LsbBits(f, 1), LsbBits(k, 2);
    assert Pow2(1) == 2 && Pow2(2) == 4;
    FollowsConcat(bits, s, a, c + payload, s1);
    FollowsConcat(bits, s1, c, payload, p);
    FollowsNumber(bits, s, f, 1, s1);
    FollowsNumber(bits, s1, k, 2, p);
  }

  lemma BlockParts(bits: seq<Bit>, s: nat, b: Block, final: bool, f: nat, k: nat, s1: nat, p: nat)
    requires b.WellFormed() && f == (if final then 1 else 0) && k == b.Type() && s1 == s + 1 && p == s1 + 2
    ensures Follows(bits, s, b.Encode(final))
       <==> TakeBits(bits, s, 1) == Parsed(f, s1) && TakeBits(bits, s1, 2) == Parsed(k, p)
            && Follows(bits, p, b.Payload())
    ensures p + |b.Payload()| == b.After(s) == s + |b.Encode(final)|
  {
    HeaderParts(bits, s, b.Payload(), f, k, s1, p);
  }

  lemma StreamStep(bits: seq<Bit>, s: nat, out: seq<Byte>, f: nat, k: nat, s1: nat, p: nat, more: seq<Byte>, q: nat)
    requires TakeBits(bits, s, 1) == Parsed(f, s1) && TakeBits(bits, s1, 2) == Parsed(k, p)
    requires TakePayload(bits, p, k, out) == Parsed(more, q)
    ensures TakeStream(bits, s, out) == if f != 0 then Parsed(more, q) else TakeStream(bits, q, more)
  {
  }

  lemma HeaderRead(bits: seq<Bit>, s: nat, out: seq<Byte>) returns (f: nat, k: nat, s1: nat, p: nat)
    requires TakeStream(bits, s, out).Parsed?
    ensures s1 == s + 1 && p == s1 + 2 <= |bits| && f < 2
    ensures TakeBits(bits, s, 1) == Parsed(f, s1) && TakeBits(bits, s1, 2) == Parsed(k, p)
    ensures TakePayload(bits, p, k, out).Parsed?
  {
    s1, p := s + 1, s + 3;
    f, k := TakeBits(bits, s, 1).value, TakeBits(bits, s1, 2).value;
    TakenNumber(bits, s, 1);
    TakenNumber(bits, s1, 2);
  }

  /// The first block of an accepted stream.
  lemma BlockSound(bits: seq<Bit>, s: nat, out: seq<Byte>) returns (b: Block, final: bool, q: nat, more: seq<Byte>)
    requires TakeStream(bits, s, out).Parsed?
    ensures b.WellFormed() && b.Aligned(s) && b.Fits(out) && Follows(bits, s, b.Encode(final))
    ensures s < q == b.After(s) == s + |b.Encode(final)| && q <= |bits| && more == b.Apply(out)
    ensures TakeStream(bits, s, out) == if final then Parsed(more, q) else TakeStream(bits, q, more)
  {
    var f, k, s1, p := HeaderRead(bits, s, out);
    b := PayloadSound(bits, s, p, k, out);
    final, more, q := f != 0, b.Apply(out), p + |b.Payload()|;
    StreamStep(bits, s, out, f, k, s1, p, more, q);
    BlockParts(bits, s, b, final, f, k, s1, p);
  }

  lemma {:induction false} StreamSound(bits: seq<Bit>, s: nat, out: seq<Byte>) returns (blocks: seq<Block>)
    requires TakeStream(bits, s, out).Parsed?
    ensures ValidStream(blocks, s, out) && Follows(bits, s, EncodeStream(blocks))
    ensures TakeStream(bits, s, out) == Parsed(ExpandStream(blocks, out), s + |EncodeStream(blocks)|)
    decreases |bits| - s
  {
    var b, final, q, more := BlockSound(bits, s, out);
    if final {
      blocks := [b];
    } else {
      var rest := StreamSound(bits, q, more);
      blocks := [b] + rest;
      BlocksCons(b, rest, s, q, out, more);
      FollowsConcat(bits, s, b.Encode(false), EncodeStream(rest), q);
    }
  }

  lemma BlocksCons(b: Block, rest: seq<Block>, s: nat, q: nat, out: seq<Byte>, more: seq<Byte>)
    requires b.WellFormed() && b.Aligned(s) && b.Fits(out) && q == b.After(s) && more == b.Apply(out)
    requires ValidStream(rest, q, more)
    ensures ValidStream([b] + rest, s, out) && ExpandStream([b] + rest, out) == ExpandStream(rest, more)
    ensures EncodeStream([b] + rest) == b.Encode(false) + EncodeStream(rest)
  {
    var blocks := [b] + rest;
    assert blocks[1..] == rest;
    AlignedStep(blocks, b, rest, s, q);
  }

  lemma AlignedStep(blocks: seq<Block>, b: Block, rest: seq<Block>, s: nat, q: nat)
    requires blocks != [] && blocks[0] == b && blocks[1..] == rest && AllWellFormed(blocks)
    requires q == b.After(s)
    ensures AllAligned(blocks, s) <==> b.Aligned(s) && AllAligned(rest, q)
  {
  }

  lemma BlocksTail(blocks: seq<Block>, b: Block, rest: seq<Block>, s: nat, q: nat, out: seq<Byte>, more: seq<Byte>)
    requires ValidStream(blocks, s, out) && blocks[0] == b && blocks[1..] == rest
    requires q == b.After(s) && more == b.Apply(out)
    ensures b.WellFormed() && b.Aligned(s) && b.Fits(out)
    ensures rest != [] ==> ValidStream(rest, q, more)
    ensures ExpandStream(blocks, out) == ExpandStream(rest, more)
  {
    AlignedStep(blocks, b, rest, s, q);
  }

  lemma BlockReads(bits: seq<Bit>, s: nat, out: seq<Byte>, b: Block, final: bool, f: nat, s1: nat, p: nat, q: nat)
    requires b.WellFormed() && b.Aligned(s) && b.Fits(out) && Follows(bits, s, b.Encode(final))
    requires f == (if final then 1 else 0) && s1 == s + 1 && p == s1 + 2 && q == b.After(s)
    ensures TakeBits(bits, s, 1) == Parsed(f, s1) && TakeBits(bits, s1, 2) == Parsed(b.Type(), p)
    ensures TakePayload(bits, p, b.Type(), out) == Parsed(b.Apply(out), q) && q == s + |b.Encode(final)|
  {
    BlockParts(bits, s, b, final, f, b.Type(), s1, p);
    PayloadComplete(bits, s, p, out, b);
  }

  /// One encoded block is taken, and the loop goes on behind it.
  lemma BlockTaken(bits: seq<Bit>, s: nat, out: seq<Byte>, b: Block, final: bool, q: nat, more: seq<Byte>)
    requires b.WellFormed() && b.Aligned(s) && b.Fits(out) && Follows(bits, s, b.Encode(final))
    requires q == b.After(s) && more == b.Apply(out)
    ensures q == s + |b.Encode(final)|
    ensures TakeStream(bits, s, out) == if final then Parsed(more, q) else TakeStream(bits, q, more)
  {
    var s1, f, k := s + 1, if final then 1 else 0, b.Type();
    var p := s1 + 2;
    BlockReads(bits, s, out, b, final, f, s1, p, q);
    StreamStep(bits, s, out, f, k, s1, p, more, q);
  }

  lemma EncodeTail(blocks: seq<Block>, b: Block, rest: seq<Block>)
    requires blocks != [] && AllWellFormed(blocks) && b == blocks[0] && rest == blocks[1..]
    ensures EncodeStream(blocks) == if rest == [] then b.Encode(true) else b.Encode(false) + EncodeStream(rest)
  {
  }

  /// A block that is not the last, with the rest of the stream behind it.
  lemma StepTaken(bits: seq<Bit>, s: nat, out: seq<Byte>, b: Block, back: seq<Bit>, q: nat, more: seq<Byte>)
    requires b.WellFormed() && b.Aligned(s) && b.Fits(out) && Follows(bits, s, b.Encode(false) + back)
    requires q == b.After(s) && more == b.Apply(out)
    ensures TakeStream(bits, s, out) == TakeStream(bits, q, more)
    ensures Follows(bits, q, back) && q + |back| == s + |b.Encode(false) + back|
  {
    FollowsConcat(bits, s, b.Encode(false), back, q);
    BlockTaken(bits, s, out, b, false, q, more);
  }

  lemma LastTaken(bits: seq<Bit>, s: nat, out: seq<Byte>, blocks: seq<Block>, b: Block)
    requires ValidStream(blocks, s, out) && Follows(bits, s, EncodeStream(blocks)) && blocks == [b]
    ensures TakeStream(bits, s, out) == Parsed(ExpandStream(blocks, out), s + |EncodeStream(blocks)|)
  {
    var rest, q, more := blocks[1..], b.After(s), b.Apply(out);
    BlocksTail(blocks, b, rest, s, q, out, more);
    EncodeTail(blocks, b, rest);
    BlockTaken(bits, s, out, b, true, q, more);
  }

  lemma FirstTaken(bits: seq<Bit>, s: nat, out: seq<Byte>, blocks: seq<Block>, rest: seq<Block>) returns (q: nat, more: seq<Byte>)
    requires ValidStream(blocks, s, out) && Follows(bits, s, EncodeStream(blocks)) && rest == blocks[1..] != []
    ensures TakeStream(bits, s, out) == TakeStream(bits, q, more)
    ensures ValidStream(rest, q, more) && Follows(bits, q, EncodeStream(rest))
    ensures ExpandStream(blocks, out) == ExpandStream(rest, more) && q + |EncodeStream(rest)| == s + |EncodeStream(blocks)|
  {
    var b := blocks[0];
    q, more := b.After(s), b.Apply(out);
    BlocksTail(blocks, b, rest, s, q, out, more);
    EncodeTail(blocks, b, rest);
    StepTaken(bits, s, out, b, EncodeStream(rest), q, more);
  }

  lemma {:induction false} StreamComplete(bits: seq<Bit>, s: nat, out: seq<Byte>, blocks: seq<Block>)
    requires ValidStream(blocks, s, out) && Follows(bits, s, EncodeStream(blocks))
    ensures TakeStream(bits, s, out) == Parsed(ExpandStream(blocks, out), s + |EncodeStream(blocks)|)
    decreases |blocks|
  {
    var rest := blocks[1..];
    if rest == [] {
      LastTaken(bits, s, out, blocks, blocks[0]);
    } else {
      var q, more := FirstTaken(bits, s, out, blocks, rest);
      StreamComplete(bits, q, more, rest);
    }
  }

  /// The decoder accepts `data` exactly when it begins with the encoding of a valid list of blocks,
  /// and then returns what those blocks stand for.
  lemma DecodesExactly(data: seq<Byte>)
    ensures TakeStream(BitsOf(data), 0, []).Parsed? <==> exists blocks :: Holds(data, blocks)
    ensures forall blocks | Holds(data, blocks) :: TakeStream(BitsOf(data), 0, []).Parsed?
              && TakeStream(BitsOf(data), 0, []).value == ExpandStream(blocks, [])
  {
    var bits, none: seq<Byte> := BitsOf(data), [];
    if TakeStream(bits, 0, none).Parsed? {
      var blocks := StreamSound(bits, 0, none);
      var e := EncodeStream(blocks);
      assert bits[0..|e|] == bits[..|e|];
      assert Holds(data, blocks);
    }
    forall blocks | Holds(data, blocks)
      ensures TakeStream(bits, 0, none).Parsed? && TakeStream(bits, 0, none).value == ExpandStream(blocks, none)
    {
      var e := EncodeStream(blocks);
      assert bits[0..|e|] == bits[..|e|];
      StreamComplete(bits, 0, none, blocks);
    }
  }
}
