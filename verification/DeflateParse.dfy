/// The decoder of transport/src/Inflate.cpp as functions on the bit string, and the proof that it
/// inverts the encoder of the format in both directions.
module DeflateParsing {
  import opened Bits
  import opened Huffman
  import opened BitReading
  import opened Deflate

  // ---- Numbers and symbols in the stream ----

  lemma FollowsConcat(bits: seq<Bit>, p: nat, a: seq<Bit>, b: seq<Bit>, q: nat)
    requires q == p + |a|
    ensures Follows(bits, p, a + b) <==> Follows(bits, p, a) && Follows(bits, q, b)
  {
    var r := q + |b|;
    if r <= |bits| {
      var whole := bits[p..r];
      assert whole[..|a|] == bits[p..q];
      assert whole[|a|..] == bits[q..r];
      assert whole == whole[..|a|] + whole[|a|..];
      assert (a + b)[..|a|] == a && (a + b)[|a|..] == b;
    }
  }

  lemma FollowsNumber(bits: seq<Bit>, p: nat, v: nat, n: nat, q: nat)
    requires v < Pow2(n) && q == p + n
    ensures Follows(bits, p, LsbBits(v, n)) <==> TakeBits(bits, p, n) == Parsed(v, q)
  {
    LsbValueOfBits(v, n);
    if q <= |bits| {
      LsbBitsOfValue(bits[p..q]);
    }
  }

  lemma TakenNumber(bits: seq<Bit>, p: nat, n: nat)
    requires TakeBits(bits, p, n).Parsed?
    ensures TakeBits(bits, p, n).value < Pow2(n) && TakeBits(bits, p, n).next == p + n
  {
    LsbValueBound(bits[p..p + n]);
  }

  // ---- The symbol loop of a compressed block ----

  /// The rest of a back reference, after its length symbol.
  ghost function TakeCopy(bits: seq<Bit>, p: nat, dist: Code, lc: nat): (r: Parsed<Token>)
    ensures r.Parsed? ==> p < r.next <= |bits|
    ensures r.Parsed? ==> r.value.Copy? && r.value.lengthCode == lc && r.value.WellFormed()
  {
    if lc >= LENGTH_CODES then NoParse
    else
      var (le, p1) :- TakeBits(bits, p, LengthExtra(lc));
      var (dc, p2) :- TakeSymbol(bits, p1, dist);
      if dc >= DISTANCE_CODES then NoParse
      else
        var (de, p3) :- TakeBits(bits, p2, DistanceExtra(dc));
        TakenNumber(bits, p, LengthExtra(lc));
        TakenNumber(bits, p2, DistanceExtra(dc));
        Parsed(Copy(lc, le, dc, de), p3)
  }

  /// One literal or back reference, or the end of the block.
  datatype Item = End | Item(token: Token)

  ghost function TakeItem(bits: seq<Bit>, p: nat, lit: Code, dist: Code): (r: Parsed<Item>)
    ensures r.Parsed? ==> p < r.next <= |bits|
    ensures r.Parsed? && r.value.Item? ==> r.value.token.WellFormed()
  {
    var (symbol, p1) :- TakeSymbol(bits, p, lit);
    if symbol < END_OF_BLOCK then Parsed(Item(Literal(symbol as Byte)), p1)
    else if symbol == END_OF_BLOCK then Parsed(End, p1)
    else
      var (t, p2) :- TakeCopy(bits, p1, dist, symbol - END_OF_BLOCK - 1);
      Parsed(Item(t), p2)
  }

  /// Whether the loop goes on with `t` after `out`.
  ghost predicate Admits(out: seq<Byte>, t: Token) {
    |out| < MAX_OUTPUT && t.Distance() <= |out| && |out| + t.Length() <= MAX_OUTPUT
  }

  /// From one symbol to the end-of-block symbol.
  ghost function TakeBody(bits: seq<Bit>, p: nat, lit: Code, dist: Code, out: seq<Byte>): (r: Parsed<seq<Byte>>)
    ensures r.Parsed? ==> p < r.next <= |bits|
    decreases |bits| - p
  {
    var (item, p1) :- TakeItem(bits, p, lit, dist);
    if item.End? then (if |out| < MAX_OUTPUT then Parsed(out, p1) else NoParse)
    else if Admits(out, item.token) then TakeBody(bits, p1, lit, dist, Apply(out, item.token))
    else NoParse
  }

  lemma CopyTaken(bits: seq<Bit>, p: nat, dist: Code, t: Token, q: nat)
    requires PrefixFree(dist) && t.Copy? && t.WellFormed() && t.distanceCode in dist
    requires q == p + |CopyTail(dist, t)|
    ensures Follows(bits, p, CopyTail(dist, t)) <==> TakeCopy(bits, p, dist, t.lengthCode) == Parsed(t, q)
  {
    var a, c, w := LengthExtra(t.lengthCode), DistanceExtra(t.distanceCode), Word(dist, t.distanceCode);
    var x, y := LsbBits(t.lengthExtra, a), LsbBits(t.distanceExtra, c);
    var p1 := p + a;
    var p2 := p1 + |w|;
    FollowsConcat(bits, p, x, w + y, p1);
    FollowsConcat(bits, p1, w, y, p2);
    FollowsNumber(bits, p, t.lengthExtra, a, p1);
    TakeSymbolExact(bits, p1, dist, t.distanceCode, p2);
    FollowsNumber(bits, p2, t.distanceExtra, c, q);
    CopyInParts(bits, p, dist, t, p1, p2, q);
  }

  lemma CopyInParts(bits: seq<Bit>, p: nat, dist: Code, t: Token, p1: nat, p2: nat, p3: nat)
    requires t.Copy? && t.WellFormed()
    requires p1 == p + LengthExtra(t.lengthCode) && p2 == p1 + |Word(dist, t.distanceCode)|
    requires p3 == p2 + DistanceExtra(t.distanceCode)
    ensures TakeCopy(bits, p, dist, t.lengthCode) == Parsed(t, p3)
       <==> TakeBits(bits, p, LengthExtra(t.lengthCode)) == Parsed(t.lengthExtra, p1)
            && TakeSymbol(bits, p1, dist) == Parsed(t.distanceCode, p2)
            && TakeBits(bits, p2, DistanceExtra(t.distanceCode)) == Parsed(t.distanceExtra, p3)
  {
  }

  lemma CopyUsesDistance(bits: seq<Bit>, p: nat, dist: Code, lc: nat)
    requires TakeCopy(bits, p, dist, lc).Parsed?
    ensures TakeCopy(bits, p, dist, lc).value.distanceCode in dist
    ensures TakeCopy(bits, p, dist, lc).next == p + |CopyTail(dist, TakeCopy(bits, p, dist, lc).value)|
  {
  }

  lemma EndTaken(bits: seq<Bit>, p: nat, lit: Code, dist: Code, q: nat)
    requires PrefixFree(lit) && END_OF_BLOCK in lit && q == p + |Word(lit, END_OF_BLOCK)|
    ensures Follows(bits, p, Word(lit, END_OF_BLOCK)) <==> TakeItem(bits, p, lit, dist) == Parsed(End, q)
  {
    TakeSymbolExact(bits, p, lit, END_OF_BLOCK, q);
  }

  lemma TokenTaken(bits: seq<Bit>, p: nat, lit: Code, dist: Code, t: Token, q: nat)
    requires PrefixFree(lit) && PrefixFree(dist) && Encodable(lit, dist, t) && q == p + |EncodeToken(lit, dist, t)|
    ensures Follows(bits, p, EncodeToken(lit, dist, t)) <==> TakeItem(bits, p, lit, dist) == Parsed(Item(t), q)
  {
    var w := Word(lit, t.Symbol());
    var p1 := p + |w|;
    TakeSymbolExact(bits, p, lit, t.Symbol(), p1);
    if t.Copy? {
      FollowsConcat(bits, p, w, CopyTail(dist, t), p1);
      CopyTaken(bits, p1, dist, t, q);
      ItemOfCopy(bits, p, lit, dist, t, p1, q);
    } else {
      assert EncodeToken(lit, dist, t) == w;
      ItemOfLiteral(bits, p, lit, dist, t, q);
    }
  }

  lemma ItemOfCopy(bits: seq<Bit>, p: nat, lit: Code, dist: Code, t: Token, p1: nat, p2: nat)
    requires t.Copy? && p1 == p + |Word(lit, t.Symbol())|
    ensures TakeItem(bits, p, lit, dist) == Parsed(Item(t), p2)
       <==> TakeSymbol(bits, p, lit) == Parsed(t.Symbol(), p1)
            && TakeCopy(bits, p1, dist, t.lengthCode) == Parsed(t, p2)
  {
  }

  lemma ItemOfLiteral(bits: seq<Bit>, p: nat, lit: Code, dist: Code, t: Token, p1: nat)
    requires t.Literal?
    ensures TakeItem(bits, p, lit, dist) == Parsed(Item(t), p1) <==> TakeSymbol(bits, p, lit) == Parsed(t.Symbol(), p1)
  {
  }

  /// Whatever the loop takes has a code, and is as long as its encoding.
  lemma ItemHasCode(bits: seq<Bit>, p: nat, lit: Code, dist: Code)
    requires TakeItem(bits, p, lit, dist).Parsed?
    ensures var r := TakeItem(bits, p, lit, dist);
            if r.value.End? then END_OF_BLOCK in lit && r.next == p + |Word(lit, END_OF_BLOCK)|
            else Encodable(lit, dist, r.value.token) && r.next == p + |EncodeToken(lit, dist, r.value.token)|
  {
    var Parsed(symbol, p1) := TakeSymbol(bits, p, lit);
    if symbol > END_OF_BLOCK {
      CopyUsesDistance(bits, p1, dist, symbol - END_OF_BLOCK - 1);
    }
  }

  /// What the symbol loop accepts is the encoding of some tokens, and it returns their expansion.
  lemma {:induction false} BodySound(bits: seq<Bit>, p: nat, lit: Code, dist: Code, out: seq<Byte>)
    returns (ts: seq<Token>)
    requires PrefixFree(lit) && PrefixFree(dist) && TakeBody(bits, p, lit, dist, out).Parsed?
    ensures Codable(lit, dist, ts) && AllReach(ts, out) && Follows(bits, p, EncodeTokens(lit, dist, ts))
    ensures TakeBody(bits, p, lit, dist, out) == Parsed(Expand(ts, out), p + |EncodeTokens(lit, dist, ts)|)
    ensures |Expand(ts, out)| < MAX_OUTPUT
    decreases |bits| - p
  {
    ItemHasCode(bits, p, lit, dist);
    var Parsed(item, q) := TakeItem(bits, p, lit, dist);
    if item.End? {
      ts := [];
      EndTaken(bits, p, lit, dist, q);
    } else {
      var t := item.token;
      var rest := BodySound(bits, q, lit, dist, Apply(out, t));
      ts := [t] + rest;
      assert ts[1..] == rest;
      TokenTaken(bits, p, lit, dist, t, q);
      FollowsConcat(bits, p, EncodeToken(lit, dist, t), EncodeTokens(lit, dist, rest), q);
    }
  }

  lemma BodyStep(bits: seq<Bit>, p: nat, lit: Code, dist: Code, out: seq<Byte>, t: Token, q: nat)
    requires TakeItem(bits, p, lit, dist) == Parsed(Item(t), q) && Admits(out, t)
    ensures TakeBody(bits, p, lit, dist, out) == TakeBody(bits, q, lit, dist, Apply(out, t))
  {
  }

  lemma {:induction false} BodyComplete(bits: seq<Bit>, p: nat, lit: Code, dist: Code, out: seq<Byte>, ts: seq<Token>)
    requires PrefixFree(lit) && PrefixFree(dist) && Codable(lit, dist, ts) && AllReach(ts, out)
    requires Follows(bits, p, EncodeTokens(lit, dist, ts)) && |Expand(ts, out)| < MAX_OUTPUT
    ensures TakeBody(bits, p, lit, dist, out) == Parsed(Expand(ts, out), p + |EncodeTokens(lit, dist, ts)|)
    decreases |ts|
  {
    if ts == [] {
      EndTaken(bits, p, lit, dist, p + |Word(lit, END_OF_BLOCK)|);
    } else {
      var t, rest := ts[0], ts[1..];
      var q, out' := p + |EncodeToken(lit, dist, t)|, Apply(out, t);
      assert Expand(ts, out) == Expand(rest, out');
      FollowsConcat(bits, p, EncodeToken(lit, dist, t), EncodeTokens(lit, dist, rest), q);
      TokenTaken(bits, p, lit, dist, t, q);
      BodyComplete(bits, q, lit, dist, out', rest);
      assert Admits(out, t);
      BodyStep(bits, p, lit, dist, out, t, q);
    }
  }

  // ---- The tables of a dynamic block ----

  /// `n` three-bit numbers, appended to `sent`.
  ghost function TakeEach(bits: seq<Bit>, p: nat, n: nat, sent: seq<nat>): (r: Parsed<seq<nat>>)
    ensures r.Parsed? ==> p <= r.next
    decreases n
  {
    if n == 0 then Parsed(sent, p)
    else
      var (v, p1) :- TakeBits(bits, p, 3);
      TakeEach(bits, p1, n - 1, sent + [v])
  }

  lemma {:induction false} EachSound(bits: seq<Bit>, p: nat, n: nat, sent: seq<nat>) returns (more: seq<nat>)
    requires p <= |bits| && TakeEach(bits, p, n, sent).Parsed?
    ensures |more| == n && EachFits(more) && Follows(bits, p, EncodeEach(more))
    ensures TakeEach(bits, p, n, sent) == Parsed(sent + more, p + |EncodeEach(more)|)
    decreases n
  {
    if n == 0 {
      more := [];
      assert sent + more == sent;
    } else {
      var Parsed(v, q) := TakeBits(bits, p, 3);
      TakenNumber(bits, p, 3);
      FollowsNumber(bits, p, v, 3, q);
      var rest := EachSound(bits, q, n - 1, sent + [v]);
      more := [v] + rest;
      assert more[1..] == rest && sent + [v] + rest == sent + more;
      FollowsConcat(bits, p, LsbBits(v, 3), EncodeEach(rest), q);
    }
  }

  lemma {:induction false} EachComplete(bits: seq<Bit>, p: nat, sent: seq<nat>, more: seq<nat>)
    requires EachFits(more) && Follows(bits, p, EncodeEach(more))
    ensures TakeEach(bits, p, |more|, sent) == Parsed(sent + more, p + |EncodeEach(more)|)
    decreases |more|
  {
    if more == [] {
      assert sent + more == sent;
    } else {
      var q, rest := p + 3, more[1..];
      FollowsConcat(bits, p, LsbBits(more[0], 3), EncodeEach(rest), q);
      FollowsNumber(bits, p, more[0], 3, q);
      EachComplete(bits, q, sent + [more[0]], rest);
      assert sent + [more[0]] + rest == sent + more;
    }
  }

  ghost function TakeOp(bits: seq<Bit>, p: nat, code: Code): (r: Parsed<LengthOp>)
    ensures r.Parsed? ==> p < r.next <= |bits| && r.value.InRange()
  {
    var (symbol, p1) :- TakeSymbol(bits, p, code);
    if symbol < 16 then Parsed(Length(symbol), p1)
    else
      var n := if symbol == 16 then 2 else if symbol == 17 then 3 else 7;
      var (e, p2) :- TakeBits(bits, p1, n);
      TakenNumber(bits, p1, n);
      Parsed(if symbol == 16 then Repeat(e) else if symbol == 17 then ShortZeros(e) else LongZeros(e), p2)
  }

  /// The run-length coded list of `total` lengths, `so_far` of it already known.
  ghost function TakeLengths(bits: seq<Bit>, p: nat, code: Code, so_far: seq<nat>, total: nat): (r: Parsed<seq<nat>>)
    ensures r.Parsed? ==> p <= r.next && |r.value| == total
    decreases total - |so_far|
  {
    if |so_far| == total then Parsed(so_far, p)
    else
      var (op, p1) :- TakeOp(bits, p, code);
      if op.Applicable(so_far) && |op.Apply(so_far)| <= total then TakeLengths(bits, p1, code, op.Apply(so_far), total)
      else NoParse
  }

  /// A code for the code length alphabet, which has nineteen symbols.
  ghost predicate NineteenSymbols(code: Code) {
    PrefixFree(code) && forall s | s in code :: s < 19
  }

  lemma OpTaken(bits: seq<Bit>, p: nat, code: Code, op: LengthOp, q: nat)
    requires NineteenSymbols(code) && op.Symbol() in code && op.InRange() && q == p + |EncodeOp(code, op)|
    ensures Follows(bits, p, EncodeOp(code, op)) <==> TakeOp(bits, p, code) == Parsed(op, q)
  {
    var w := Word(code, op.Symbol());
    var p1 := p + |w|;
    TakeSymbolExact(bits, p, code, op.Symbol(), p1);
    if op.Length? {
      assert EncodeOp(code, op) == w;
    } else {
      FollowsConcat(bits, p, w, LsbBits(op.Extra(), op.ExtraBits()), p1);
      FollowsNumber(bits, p1, op.Extra(), op.ExtraBits(), q);
      OpInParts(bits, p, code, op, p1, q);
    }
  }

  lemma OpInParts(bits: seq<Bit>, p: nat, code: Code, op: LengthOp, p1: nat, q: nat)
    requires !op.Length? && NineteenSymbols(code) && op.Symbol() in code
    requires p1 == p + |Word(code, op.Symbol())|
    ensures TakeOp(bits, p, code) == Parsed(op, q)
       <==> TakeSymbol(bits, p, code) == Parsed(op.Symbol(), p1)
            && TakeBits(bits, p1, op.ExtraBits()) == Parsed(op.Extra(), q)
  {
  }

  lemma OpHasCode(bits: seq<Bit>, p: nat, code: Code)
    requires NineteenSymbols(code) && TakeOp(bits, p, code).Parsed?
    ensures var r := TakeOp(bits, p, code); r.value.Symbol() in code && r.next == p + |EncodeOp(code, r.value)|
  {
  }

  lemma {:induction false} LengthsSound(bits: seq<Bit>, p: nat, code: Code, so_far: seq<nat>, total: nat)
    returns (ops: seq<LengthOp>)
    requires NineteenSymbols(code) && p <= |bits| && TakeLengths(bits, p, code, so_far, total).Parsed? && |so_far| <= total
    ensures OpsCodable(code, ops) && OpsFill(ops, so_far, total) && Follows(bits, p, EncodeOps(code, ops))
    ensures TakeLengths(bits, p, code, so_far, total) == Parsed(ExpandOps(ops, so_far), p + |EncodeOps(code, ops)|)
    decreases total - |so_far|
  {
    if |so_far| == total {
      ops := [];
    } else {
      OpHasCode(bits, p, code);
      var Parsed(op, q) := TakeOp(bits, p, code);
      OpTaken(bits, p, code, op, q);
      var rest := LengthsSound(bits, q, code, op.Apply(so_far), total);
      ops := [op] + rest;
      assert ops[1..] == rest;
      FollowsConcat(bits, p, EncodeOp(code, op), EncodeOps(code, rest), q);
    }
  }

  lemma {:induction false} LengthsComplete(bits: seq<Bit>, p: nat, code: Code, so_far: seq<nat>, total: nat, ops: seq<LengthOp>)
    requires NineteenSymbols(code) && OpsCodable(code, ops) && OpsFill(ops, so_far, total)
    requires Follows(bits, p, EncodeOps(code, ops))
    ensures TakeLengths(bits, p, code, so_far, total) == Parsed(ExpandOps(ops, so_far), p + |EncodeOps(code, ops)|)
    decreases |ops|
  {
    if ops != [] {
      var op, rest := ops[0], ops[1..];
      var q := p + |EncodeOp(code, op)|;
      FollowsConcat(bits, p, EncodeOp(code, op), EncodeOps(code, rest), q);
      OpTaken(bits, p, code, op, q);
      LengthsComplete(bits, q, code, op.Apply(so_far), total, rest);
    }
  }

  datatype Tables = Tables(lit: seq<nat>, dist: seq<nat>)

  /// How many literal lengths, lengths in all, and code length code lengths are to come.
  datatype Counts = Counts(hlit: nat, total: nat, n: nat)
  {
    /// They are sent as the three numbers `x`, `y` and `z`.
    ghost predicate SentAs(x: nat, y: nat, z: nat) {
      x + 257 == hlit <= 286 && total == hlit + (y + 1) && y + 1 <= 30 && n == z + 4 <= 19
    }
  }

  ghost function TakeCounts(bits: seq<Bit>, p: nat): (r: Parsed<Counts>)
    ensures r.Parsed? ==> p <= r.next
  {
    var (x, p1) :- TakeBits(bits, p, 5);
    var (y, p2) :- TakeBits(bits, p1, 5);
    var (z, p3) :- TakeBits(bits, p2, 4);
    var hlit := x + 257;
    if hlit > 286 || y + 1 > 30 then NoParse else Parsed(Counts(hlit, hlit + (y + 1), z + 4), p3)
  }

  ghost function TakeTables(bits: seq<Bit>, p: nat): (r: Parsed<Tables>)
    ensures r.Parsed? ==> p <= r.next
    ensures r.Parsed? ==> Usable(r.value.lit) && Usable(r.value.dist)
  {
    var (c, p1) :- TakeCounts(bits, p);
    TakeLists(bits, p1, c.hlit, c.total, c.n)
  }

  ghost function TakeLists(bits: seq<Bit>, p: nat, hlit: nat, total: nat, n: nat): (r: Parsed<Tables>)
    ensures r.Parsed? ==> p <= r.next
    ensures r.Parsed? ==> Usable(r.value.lit) && Usable(r.value.dist)
  {
    var (sent, p1) :- TakeEach(bits, p, n, []);
    TakeCoded(bits, p1, hlit, total, CodeLengths(sent, n))
  }

  /// Both length lists, run-length coded with the code of `lengths`.
  ghost function TakeCoded(bits: seq<Bit>, p: nat, hlit: nat, total: nat, lengths: seq<nat>): (r: Parsed<Tables>)
    ensures r.Parsed? ==> p <= r.next
    ensures r.Parsed? ==> Usable(r.value.lit) && Usable(r.value.dist)
  {
    if !Usable(lengths) then NoParse
    else
      var (all, p1) :- TakeLengths(bits, p, Canonical(lengths), [], total);
      if hlit <= total && Usable(all[..hlit]) && Usable(all[hlit..]) then Parsed(Tables(all[..hlit], all[hlit..]), p1) else NoParse
  }

  lemma CanonicalSymbols(lengths: seq<nat>)
    requires Usable(lengths) && |lengths| == 19
    ensures NineteenSymbols(Canonical(lengths))
  {
    CanonicalPrefixFree(lengths);
  }

  /// Three numbers in front of `rest`.
  lemma NumbersFollow(bits: seq<Bit>, p: nat, x: nat, y: nat, z: nat, rest: seq<Bit>, p1: nat, p2: nat, p3: nat)
    requires x < Pow2(5) && y < Pow2(5) && z < Pow2(4) && p1 == p + 5 && p2 == p1 + 5 && p3 == p2 + 4
    ensures Follows(bits, p, LsbBits(x, 5) + (LsbBits(y, 5) + (LsbBits(z, 4) + rest)))
       <==> TakeBits(bits, p, 5) == Parsed(x, p1) && TakeBits(bits, p1, 5) == Parsed(y, p2)
            && TakeBits(bits, p2, 4) == Parsed(z, p3) && Follows(bits, p3, rest)
  {
    var a, b, c := LsbBits(x, 5), LsbBits(y, 5), LsbBits(z, 4);
    FollowsConcat(bits, p, a, b + (c + rest), p1);
    FollowsConcat(bits, p1, b, c + rest, p2);
    FollowsConcat(bits, p2, c, rest, p3);
    FollowsNumber(bits, p, x, 5, p1);
    FollowsNumber(bits, p1, y, 5, p2);
    FollowsNumber(bits, p2, z, 4, p3);
  }

  lemma CodedSound(bits: seq<Bit>, p: nat, hlit: nat, total: nat, lengths: seq<nat>) returns (ops: seq<LengthOp>)
    requires |lengths| == 19 && p <= |bits| && TakeCoded(bits, p, hlit, total, lengths).Parsed?
    ensures OpsCodable(Canonical(lengths), ops) && OpsFill(ops, [], total) && |ExpandOps(ops, [])| == total
    ensures Usable(lengths) && Usable(ExpandOps(ops, [])[..hlit]) && Usable(ExpandOps(ops, [])[hlit..])
    ensures Follows(bits, p, EncodeOps(Canonical(lengths), ops))
    ensures TakeCoded(bits, p, hlit, total, lengths)
         == Parsed(Tables(ExpandOps(ops, [])[..hlit], ExpandOps(ops, [])[hlit..]), p + |EncodeOps(Canonical(lengths), ops)|)
  {
    CanonicalSymbols(lengths);
    ops := LengthsSound(bits, p, Canonical(lengths), [], total);
  }

  lemma {:induction false} FillLength(ops: seq<LengthOp>, so_far: seq<nat>, total: nat)
    requires OpsFill(ops, so_far, total)
    ensures |ExpandOps(ops, so_far)| == total
  {
    if ops != [] {
      FillLength(ops[1..], ops[0].Apply(so_far), total);
    }
  }

  lemma CodedComplete(bits: seq<Bit>, p: nat, hlit: nat, total: nat, lengths: seq<nat>, ops: seq<LengthOp>, all: seq<nat>)
    requires |lengths| == 19 && Usable(lengths)
    requires OpsCodable(Canonical(lengths), ops) && OpsFill(ops, [], total)
    requires Follows(bits, p, EncodeOps(Canonical(lengths), ops))
    requires all == ExpandOps(ops, []) && hlit <= |all| && Usable(all[..hlit]) && Usable(all[hlit..])
    ensures TakeCoded(bits, p, hlit, total, lengths)
         == Parsed(Tables(all[..hlit], all[hlit..]), p + |EncodeOps(Canonical(lengths), ops)|)
  {
    CanonicalSymbols(lengths);
    var code, none: seq<nat> := Canonical(lengths), [];
    LengthsComplete(bits, p, code, none, total, ops);
    assert TakeLengths(bits, p, code, none, total).value == all;
  }

  lemma HeaderOf(h: Header, lengths: seq<nat>, all: seq<nat>)
    requires 257 <= h.hlit <= 286 && h.hlit + 1 <= h.total <= h.hlit + 30 && 4 <= |h.sent| <= 19 && EachFits(h.sent)
    requires lengths == CodeLengths(h.sent, |h.sent|) && Usable(lengths) && OpsCodable(Canonical(lengths), h.ops)
    requires OpsFill(h.ops, [], h.total)
    requires all == ExpandOps(h.ops, []) && h.hlit <= |all| && Usable(all[..h.hlit]) && Usable(all[h.hlit..])
    ensures h.WellFormed() && h.LitLengths() == all[..h.hlit] && h.DistLengths() == all[h.hlit..]
    ensures h.OpsCode() == Canonical(lengths)
  {
  }

  lemma ListsUnfold(bits: seq<Bit>, p: nat, hlit: nat, total: nat, n: nat, sent: seq<nat>, q: nat)
    requires TakeEach(bits, p, n, []) == Parsed(sent, q)
    ensures TakeLists(bits, p, hlit, total, n) == TakeCoded(bits, q, hlit, total, CodeLengths(sent, n))
  {
  }

  /// The length lists after the three numbers, as the header that sends them.
  lemma ListsSound(bits: seq<Bit>, p: nat, hlit: nat, total: nat, n: nat) returns (h: Header)
    requires 257 <= hlit <= 286 && hlit + 1 <= total <= hlit + 30 && 4 <= n <= 19 && p <= |bits|
    requires TakeLists(bits, p, hlit, total, n).Parsed?
    ensures h.WellFormed() && h.hlit == hlit && h.total == total && |h.sent| == n
    ensures Follows(bits, p, h.EncodeLists())
    ensures TakeLists(bits, p, hlit, total, n) == Parsed(Tables(h.LitLengths(), h.DistLengths()), p + |h.EncodeLists()|)
  {
    var none: seq<nat> := [];
    var sent := EachSound(bits, p, n, none);
    assert none + sent == sent;
    var q, lengths := p + |EncodeEach(sent)|, CodeLengths(sent, n);
    assert TakeEach(bits, p, n, none) == Parsed(sent, q);
    assert TakeEach(bits, p, n, []) == Parsed(sent, q);
    ListsUnfold(bits, p, hlit, total, n, sent, q);
    var ops := CodedSound(bits, q, hlit, total, lengths);
    h := Header(hlit, total, sent, ops);
    HeaderOf(h, lengths, ExpandOps(ops, none));
    var e := EncodeOps(Canonical(lengths), ops);
    FollowsConcat(bits, p, EncodeEach(sent), e, q);
    assert h.EncodeLists() == EncodeEach(sent) + e;
  }

  lemma AllTaken(bits: seq<Bit>, p: nat, sent: seq<nat>, n: nat, q: nat)
    requires EachFits(sent) && Follows(bits, p, EncodeEach(sent)) && n == |sent| && q == p + |EncodeEach(sent)|
    ensures TakeEach(bits, p, n, []) == Parsed(sent, q)
  {
    var none: seq<nat> := [];
    EachComplete(bits, p, none, sent);
    assert none + sent == sent;
  }

  lemma ListsComplete(bits: seq<Bit>, p: nat, h: Header)
    requires h.WellFormed() && Follows(bits, p, h.EncodeLists())
    ensures TakeLists(bits, p, h.hlit, h.total, |h.sent|)
         == Parsed(Tables(h.LitLengths(), h.DistLengths()), p + |h.EncodeLists()|)
  {
    var none: seq<nat> := [];
    var n, q := |h.sent|, p + |EncodeEach(h.sent)|;
    var lengths := CodeLengths(h.sent, n);
    var e := EncodeOps(Canonical(lengths), h.ops);
    FollowsConcat(bits, p, EncodeEach(h.sent), e, q);
    AllTaken(bits, p, h.sent, n, q);
    ListsUnfold(bits, p, h.hlit, h.total, n, h.sent, q);
    FillLength(h.ops, none, h.total);
    CodedComplete(bits, q, h.hlit, h.total, lengths, h.ops, ExpandOps(h.ops, none));
  }

  lemma CountsSound(bits: seq<Bit>, p: nat) returns (x: nat, y: nat, z: nat, p1: nat, p2: nat)
    requires TakeCounts(bits, p).Parsed?
    ensures x < Pow2(5) && y < Pow2(5) && z < Pow2(4) && TakeCounts(bits, p).value.SentAs(x, y, z)
    ensures TakeBits(bits, p, 5) == Parsed(x, p1) && TakeBits(bits, p1, 5) == Parsed(y, p2)
    ensures TakeBits(bits, p2, 4) == Parsed(z, TakeCounts(bits, p).next)
    ensures p1 == p + 5 && p2 == p1 + 5 && TakeCounts(bits, p).next == p2 + 4 <= |bits|
  {
    x, p1 := TakeBits(bits, p, 5).value, TakeBits(bits, p, 5).next;
    y, p2 := TakeBits(bits, p1, 5).value, TakeBits(bits, p1, 5).next;
    z := TakeBits(bits, p2, 4).value;
    TakenNumber(bits, p, 5);
    TakenNumber(bits, p1, 5);
    TakenNumber(bits, p2, 4);
    assert Pow2(4) == 16;
  }

  lemma CountsComplete(bits: seq<Bit>, p: nat, c: Counts, x: nat, y: nat, z: nat, p1: nat, p2: nat, p3: nat)
    requires c.SentAs(x, y, z) && TakeBits(bits, p, 5) == Parsed(x, p1) && TakeBits(bits, p1, 5) == Parsed(y, p2)
    requires TakeBits(bits, p2, 4) == Parsed(z, p3)
    ensures TakeCounts(bits, p) == Parsed(c, p3)
  {
  }

  lemma TablesSound(bits: seq<Bit>, p: nat) returns (h: Header)
    requires TakeTables(bits, p).Parsed?
    ensures h.WellFormed() && Follows(bits, p, h.Encode())
    ensures TakeTables(bits, p) == Parsed(Tables(h.LitLengths(), h.DistLengths()), p + |h.Encode()|)
  {
    var x, y, z, p1, p2 := CountsSound(bits, p);
    var Parsed(c, p3) := TakeCounts(bits, p);
    h := ListsSound(bits, p3, c.hlit, c.total, c.n);
    var lists := h.EncodeLists();
    NumbersFollow(bits, p, x, y, z, lists, p1, p2, p3);
    HeaderEncoding(h, x, y, z, lists);
  }

  lemma HeaderEncoding(h: Header, x: nat, y: nat, z: nat, lists: seq<Bit>)
    requires h.Counted() && Counts(h.hlit, h.total, |h.sent|).SentAs(x, y, z) && lists == h.EncodeLists()
    ensures h.Encode() == LsbBits(x, 5) + (LsbBits(y, 5) + (LsbBits(z, 4) + lists))
    ensures |h.Encode()| == 14 + |lists|
  {
    assert h.hlit - 257 == x && h.total - h.hlit - 1 == y && |h.sent| - 4 == z;
  }

  lemma TablesComplete(bits: seq<Bit>, p: nat, h: Header, x: nat, y: nat, z: nat)
    requires h.WellFormed() && Follows(bits, p, h.Encode()) && Counts(h.hlit, h.total, |h.sent|).SentAs(x, y, z)
    ensures TakeTables(bits, p) == Parsed(Tables(h.LitLengths(), h.DistLengths()), p + |h.Encode()|)
  {
    var p1 := p + 5;
    var p2 := p1 + 5;
    var p3 := p2 + 4;
    assert Pow2(5) == 32 && Pow2(4) == 16;
    var lists := h.EncodeLists();
    HeaderEncoding(h, x, y, z, lists);
    NumbersFollow(bits, p, x, y, z, lists, p1, p2, p3);
    ListsComplete(bits, p3, h);
    CountsComplete(bits, p, Counts(h.hlit, h.total, |h.sent|), x, y, z, p1, p2, p3);
  }
}
