/// The decompressor of transport/src/Inflate.cpp, proved against the DEFLATE format.
module Inflate {
  import opened Bits
  import opened Huffman
  import opened BitReading
  import opened Deflate
  import opened DeflateParsing
  import opened DeflateStreams

  const K_LENGTH_BASE: seq<nat> := [
    3, 4, 5, 6, 7, 8, 9, 10, 11, 13, 15, 17, 19, 23, 27, 31, 35, 43, 51, 59, 67, 83, 99, 115, 131, 163, 195, 227, 258]

  const K_LENGTH_EXTRA: seq<nat> := [
    0, 0, 0, 0, 0, 0, 0, 0, 1, 1, 1, 1, 2, 2, 2, 2, 3, 3, 3, 3, 4, 4, 4, 4, 5, 5, 5, 5, 0]

  const K_DISTANCE_BASE: seq<nat> := [
    1, 2, 3, 4, 5, 7, 9, 13, 17, 25, 33, 49, 65, 97, 129, 193, 257, 385, 513, 769,
    1025, 1537, 2049, 3073, 4097, 6145, 8193, 12289, 16385, 24577]

  const K_DISTANCE_EXTRA: seq<nat> := [
    0, 0, 0, 0, 1, 1, 2, 2, 3, 3, 4, 4, 5, 5, 6, 6, 7, 7, 8, 8, 9, 9, 10, 10, 11, 11, 12, 12, 13, 13]

  const K_ORDER: seq<nat> := [16, 17, 18, 0, 8, 7, 9, 6, 10, 5, 11, 4, 12, 3, 13, 2, 14, 1, 15]

  lemma LengthBaseTable(c: nat)
    requires c < LENGTH_CODES
    ensures K_LENGTH_BASE[c] == LengthBase(c)
  {
    if c < 16 {
      ShortLengths(c);
    } else if c < 22 {
      MediumLengths(c);
    } else {
      LongLengths(c);
    }
  }

  lemma ShortLengths(c: nat)
    requires c < 16
    ensures K_LENGTH_BASE[c] == LengthBase(c)
  {
    assert Shl(4, 1) == 8 && Shl(5, 1) == 10 && Shl(6, 1) == 12 && Shl(7, 1) == 14;
    assert Shl(4, 2) == 16 && Shl(5, 2) == 20 && Shl(6, 2) == 24 && Shl(7, 2) == 28;
  }

  lemma MediumLengths(c: nat)
    requires 16 <= c < 22
    ensures K_LENGTH_BASE[c] == LengthBase(c)
  {
    assert Shl(4, 3) == 32 && Shl(5, 3) == 40 && Shl(6, 3) == 48 && Shl(7, 3) == 56;
    assert Shl(4, 4) == 64 && Shl(5, 4) == 80;
  }

  lemma LongLengths(c: nat)
    requires 22 <= c < LENGTH_CODES
    ensures K_LENGTH_BASE[c] == LengthBase(c)
  {
    assert Shl(6, 4) == 96 && Shl(7, 4) == 112;
    assert Shl(4, 5) == 128 && Shl(5, 5) == 160 && Shl(6, 5) == 192 && Shl(7, 5) == 224;
  }

  lemma LengthExtraTable(c: nat)
    requires c < LENGTH_CODES
    ensures K_LENGTH_EXTRA[c] == LengthExtra(c)
  {
  }

  lemma DistanceBaseTable(c: nat)
    requires c < DISTANCE_CODES
    ensures K_DISTANCE_BASE[c] == DistanceBase(c)
  {
    if c < 10 {
      ShortDistances(c);
    } else if c < 17 {
      MediumDistances(c);
    } else if c < 24 {
      LongDistances(c);
    } else {
      LongestDistances(c);
    }
  }

  lemma ShortDistances(c: nat)
    requires c < 10
    ensures K_DISTANCE_BASE[c] == DistanceBase(c)
  {
  }

  lemma MediumDistances(c: nat)
    requires 10 <= c < 17
    ensures K_DISTANCE_BASE[c] == DistanceBase(c)
  {
    assert Shl(2, 4) == 32 && Shl(3, 4) == 48;
    assert Shl(2, 5) == 64 && Shl(3, 5) == 96;
    assert Shl(2, 6) == 128 && Shl(3, 6) == 192;
    assert Shl(2, 7) == 256;
  }

  lemma LongDistances(c: nat)
    requires 17 <= c < 24
    ensures K_DISTANCE_BASE[c] == DistanceBase(c)
  {
    assert Shl(3, 7) == 384;
    assert Shl(2, 8) == 512 && Shl(3, 8) == 768;
    assert Shl(2, 9) == 1024 && Shl(3, 9) == 1536;
    assert Shl(2, 10) == 2048 && Shl(3, 10) == 3072;
  }

  lemma LongestDistances(c: nat)
    requires 24 <= c < DISTANCE_CODES
    ensures K_DISTANCE_BASE[c] == DistanceBase(c)
  {
    assert Shl(2, 11) == 4096 && Shl(3, 11) == 6144;
    assert Shl(2, 12) == 8192 && Shl(3, 12) == 12288;
    assert Shl(2, 13) == 16384 && Shl(3, 13) == 24576;
  }

  lemma DistanceExtraTable(c: nat)
    requires c < DISTANCE_CODES
    ensures K_DISTANCE_EXTRA[c] == DistanceExtra(c)
  {
  }

  lemma OrderTable(i: nat)
    requires i < 19
    ensures K_ORDER[i] == Order(i)
  {
  }

  /// The decoding tables of a block, and the code lengths they were built from.
  datatype Codes = Codes(lit: Table, dist: Table) | BadCodes

  ghost predicate Serve(c: Codes, lengths: Tables) {
    c.Codes? && TableOf(c.lit, lengths.lit) && TableOf(c.dist, lengths.dist)
  }

  // ---- Fixed tables ----

  method FixedTables() returns (r: Codes)
    ensures Serve(r, Tables(FixedLitLengths(), FixedDistLengths()))
  {
    var lit := new nat[288](_ => 0);
    for i := 0 to 144
      invariant forall j | 0 <= j < i :: lit[j] == 8
    {
      lit[i] := 8;
    }
    for i := 144 to 256
      invariant forall j | 0 <= j < i :: lit[j] == FixedLength(j)
    {
      lit[i] := 9;
    }
    for i := 256 to 280
      invariant forall j | 0 <= j < i :: lit[j] == FixedLength(j)
    {
      lit[i] := 7;
    }
    for i := 280 to 288
      invariant forall j | 0 <= j < i :: lit[j] == FixedLength(j)
    {
      lit[i] := 8;
    }
    FixedIndexed();
    assert lit[..] == FixedLitLengths();
    FixedUsable();
    var l := Build(lit[..]);
    var d := Build(seq(30, _ => 5));
    assert seq(30, _ => 5) == FixedDistLengths();
    r := Codes(l.table, d.table);
  }

  ghost function FixedLength(s: nat): nat {
    if s < 144 then 8 else if s < 256 then 9 else if s < 280 then 7 else 8
  }

  lemma FixedIndexed()
    ensures |FixedLitLengths()| == 288
    ensures forall s | 0 <= s < 288 :: FixedLitLengths()[s] == FixedLength(s)
  {
  }

  // ---- Dynamic tables ----

  /// How the rest of a computation on the bit string stands after some of it is done: still the
  /// same result, or failed.
  ghost predicate Sent(bits: seq<Bit>, at: nat, overrun: bool, sent: seq<nat>, left: nat, whole: Parsed<seq<nat>>) {
    if overrun then whole.NoParse? else whole == TakeEach(bits, at, left, sent)
  }

  lemma {:induction false} CodeLengthsPrefix(sent: seq<nat>, v: nat, n: nat)
    requires n <= |sent|
    ensures CodeLengths(sent + [v], n) == CodeLengths(sent, n)
  {
    if n != 0 {
      CodeLengthsPrefix(sent, v, n - 1);
    }
  }

  lemma CodeLengthsStep(sent: seq<nat>, v: nat, n: nat)
    requires n == |sent| < 19
    ensures CodeLengths(sent + [v], n + 1) == CodeLengths(sent, n)[K_ORDER[n] := v]
  {
    CodeLengthsPrefix(sent, v, n);
    OrderTable(n);
  }

  /// The loop that fills `code_lengths`.
  method CodeLengthAlphabet(input: BitReader, hclen: nat) returns (r: seq<nat>)
    requires input.Valid() && !input.overrun && hclen <= 19
    modifies input
    ensures input.Valid() && |r| == 19
    ensures var t := TakeEach(input.bits, old(input.At()), hclen, []);
            if input.overrun then t.NoParse? else t.Parsed? && t.next == input.At() && r == CodeLengths(t.value, hclen)
  {
    ghost var bits, sent: seq<nat>, left := input.bits, [], hclen;
    ghost var whole := TakeEach(bits, input.At(), hclen, []);
    var codeLengths := new nat[19](_ => 0);
    assert codeLengths[..] == CodeLengths(sent, 0);
    for i := 0 to hclen
      invariant input.Valid() && left == hclen - i && |sent| == i && codeLengths[..] == CodeLengths(sent, i)
      invariant Sent(bits, input.At(), input.overrun, sent, left, whole)
    {
      var v := input.ReadBits(3);
      CodeLengthsStep(sent, v, i);
      codeLengths[K_ORDER[i]] := v;
      sent, left := sent + [v], left - 1;
    }
    r := codeLengths[..];
  }

  /// The three counts that open a dynamic block.
  method ReadCounts(input: BitReader) returns (ok: bool, hlit: nat, hdist: nat, hclen: nat)
    requires input.Valid() && !input.overrun
    modifies input
    ensures input.Valid()
    ensures var t := TakeCounts(input.bits, old(input.At()));
            if ok then !input.overrun && t == Parsed(Counts(hlit, hlit + hdist, hclen), input.At()) else t.NoParse?
    ensures ok ==> hclen <= 19
  {
    ghost var bits, p := input.bits, input.At();
    var x := input.ReadBits(5);
    ghost var p1 := input.At();
    var y := input.ReadBits(5);
    ghost var p2 := input.At();
    var z := input.ReadBits(4);
    hlit, hdist, hclen := x + 257, y + 1, z + 4;
    ok := !(input.overrun || hlit > 286 || hdist > 30);
    if !input.overrun {
      TakenNumber(bits, p2, 4);
      assert Pow2(4) == 16;
      if ok {
        CountsComplete(bits, p, Counts(hlit, hlit + hdist, hclen), x, y, z, p1, p2, input.At());
      }
    }
  }

  /// The rest of the run-length coded list, from the state of the loop.
  ghost predicate Filled(bits: seq<Bit>, at: nat, code: Code, so_far: seq<nat>, total: nat, whole: Parsed<seq<nat>>) {
    |so_far| <= total && whole == TakeLengths(bits, at, code, so_far, total)
  }

  lemma FilledStep(bits: seq<Bit>, at: nat, code: Code, so_far: seq<nat>, total: nat, whole: Parsed<seq<nat>>,
                   ok: bool, next: nat, after: seq<nat>)
    requires Filled(bits, at, code, so_far, total, whole) && |so_far| < total && |after| <= total
    requires Ran(TakeOp(bits, at, code), so_far, total, ok, next, after)
    ensures if ok then Filled(bits, next, code, after, total, whole) else whole.NoParse?
  {
  }

  ghost function ExtraOf(symbol: nat): nat {
    if symbol == 16 then 2 else if symbol == 17 then 3 else 7
  }

  ghost function OpOf(symbol: nat, e: nat): LengthOp {
    if symbol == 16 then Repeat(e) else if symbol == 17 then ShortZeros(e) else LongZeros(e)
  }

  lemma LengthTakenNow(bits: seq<Bit>, at: nat, code: Code, symbol: nat, p1: nat)
    requires TakeSymbol(bits, at, code) == Parsed(symbol, p1) && symbol < 16
    ensures TakeOp(bits, at, code) == Parsed(Length(symbol), p1)
  {
  }

  lemma RepeatTakenNow(bits: seq<Bit>, at: nat, code: Code, symbol: nat, p1: nat)
    requires TakeSymbol(bits, at, code) == Parsed(symbol, p1) && symbol >= 16
    ensures TakeBits(bits, p1, ExtraOf(symbol)).NoParse? ==> TakeOp(bits, at, code).NoParse?
    ensures TakeBits(bits, p1, ExtraOf(symbol)).Parsed? ==>
              TakeOp(bits, at, code)
              == Parsed(OpOf(symbol, TakeBits(bits, p1, ExtraOf(symbol)).value), TakeBits(bits, p1, ExtraOf(symbol)).next)
  {
  }

  /// How often a repeat symbol repeats.
  method ReadRepeat(input: BitReader, symbol: nat) returns (repeat: nat, ghost extra: nat)
    requires input.Valid() && !input.overrun && 16 <= symbol
    modifies input
    ensures input.Valid() && repeat == extra + if symbol <= 17 then 3 else 11
    ensures var t := TakeBits(input.bits, old(input.At()), ExtraOf(symbol));
            if input.overrun then t.NoParse? else t == Parsed(extra, input.At())
  {
    if symbol == 16 {
      var e := input.ReadBits(2);
      return 3 + e, e;
    } else if symbol == 17 {
      var e := input.ReadBits(3);
      return 3 + e, e;
    } else {
      var e := input.ReadBits(7);
      return 11 + e, e;
    }
  }

  method Fill(list: array<nat>, from: nat, value: nat, repeat: nat) returns (written: nat)
    requires from + repeat <= list.Length
    modifies list
    ensures written == from + repeat && list[..written] == old(list[..from]) + Run(value, repeat)
  {
    ghost var soFar := list[..from];
    written := from;
    for i := 0 to repeat
      invariant written == from + i && list[..written] == soFar + Run(value, i)
    {
      list[written] := value;
      written := written + 1;
      assert list[..written] == soFar + Run(value, i) + [value];
    }
  }

  /// What one operation makes of the list, when it can be applied and fits.
  ghost predicate Ran(taken: Parsed<LengthOp>, so_far: seq<nat>, total: nat, ok: bool, next: nat, after: seq<nat>) {
    if ok then taken.Parsed? && taken.next == next && taken.value.Applicable(so_far) && after == taken.value.Apply(so_far)
    else taken.Parsed? && taken.value.Applicable(so_far) ==> |taken.value.Apply(so_far)| > total
  }

  lemma RanLength(bits: seq<Bit>, at: nat, code: Code, symbol: nat, next: nat, so_far: seq<nat>, total: nat, after: seq<nat>)
    requires TakeSymbol(bits, at, code) == Parsed(symbol, next) && symbol < 16 && after == so_far + [symbol]
    ensures Ran(TakeOp(bits, at, code), so_far, total, true, next, after)
  {
    LengthTakenNow(bits, at, code, symbol, next);
  }

  lemma RanNothing(bits: seq<Bit>, at: nat, code: Code, so_far: seq<nat>, total: nat, next: nat, after: seq<nat>)
    requires TakeOp(bits, at, code).NoParse? || !TakeOp(bits, at, code).value.Applicable(so_far)
    ensures Ran(TakeOp(bits, at, code), so_far, total, false, next, after)
  {
  }

  lemma RanRepeat(bits: seq<Bit>, at: nat, code: Code, symbol: nat, p1: nat, e: nat, repeat: nat, value: nat, next: nat,
                  so_far: seq<nat>, total: nat, after: seq<nat>)
    requires TakeSymbol(bits, at, code) == Parsed(symbol, p1) && symbol >= 16
    requires TakeBits(bits, p1, ExtraOf(symbol)) == Parsed(e, next) && repeat == e + (if symbol <= 17 then 3 else 11)
    requires if symbol == 16 then so_far != [] && value == so_far[|so_far| - 1] else value == 0
    requires after == so_far + Run(value, repeat)
    ensures Ran(TakeOp(bits, at, code), so_far, total, true, next, after)
    ensures |so_far| + repeat > total ==> Ran(TakeOp(bits, at, code), so_far, total, false, next, so_far)
  {
    RepeatTakenNow(bits, at, code, symbol, p1);
  }

  /// One turn of the loop below: a length, or a run of them.
  method ReadRun(input: BitReader, cl: Table, ghost clLengths: seq<nat>, ghost code: Code, list: array<nat>, from: nat)
    returns (ok: bool, written: nat)
    requires input.Valid() && !input.overrun && TableOf(cl, clLengths) && code == Canonical(clLengths)
    requires from < list.Length
    modifies input, list
    ensures input.Valid() && from <= written <= list.Length && (ok ==> !input.overrun)
    ensures Ran(TakeOp(input.bits, old(input.At()), code), old(list[..from]), list.Length, ok, input.At(), list[..written])
  {
    ghost var bits, at, soFar := input.bits, input.At(), list[..from];
    written := from;
    var symbol := input.Decode(cl, clLengths, code);
    if symbol < 0 {
      RanNothing(bits, at, code, soFar, list.Length, input.At(), soFar);
      return false, from;
    }
    if symbol < 16 {
      list[written] := symbol;
      written := written + 1;
      assert list[..written] == soFar + [symbol];
      RanLength(bits, at, code, symbol, input.At(), soFar, list.Length, list[..written]);
      return true, written;
    }
    ok, written := RunOf(input, symbol, list, from, at, code);
  }

  /// The repeat symbols 16 to 18.
  method RunOf(input: BitReader, symbol: nat, list: array<nat>, from: nat, ghost at: nat, ghost code: Code)
    returns (ok: bool, written: nat)
    requires input.Valid() && !input.overrun && from < list.Length && symbol >= 16
    requires TakeSymbol(input.bits, at, code) == Parsed(symbol, input.At())
    modifies input, list
    ensures input.Valid() && from <= written <= list.Length && (ok ==> !input.overrun)
    ensures Ran(TakeOp(input.bits, at, code), old(list[..from]), list.Length, ok, input.At(), list[..written])
  {
    ghost var bits, p1, soFar := input.bits, input.At(), list[..from];
    RepeatTakenNow(bits, at, code, symbol, p1);
    var value := 0;
    if symbol == 16 {
      if from == 0 {
        RanNothing(bits, at, code, soFar, list.Length, p1, soFar);
        return false, from;
      }
      value := list[from - 1];
    }
    var repeat, e := ReadRepeat(input, symbol);
    if input.overrun {
      RanNothing(bits, at, code, soFar, list.Length, input.At(), soFar);
      return false, from;
    }
    RanRepeat(bits, at, code, symbol, p1, e, repeat, value, input.At(), soFar, list.Length, soFar + Run(value, repeat));
    if from + repeat > list.Length {
      return false, from;
    }
    written := Fill(list, from, value, repeat);
    ok := true;
  }

  /// The loop that expands the two length lists.
  method ReadLengths(input: BitReader, cl: Table, ghost clLengths: seq<nat>, total: nat) returns (ok: bool, lengths: seq<nat>)
    requires input.Valid() && !input.overrun && TableOf(cl, clLengths)
    modifies input
    ensures input.Valid()
    ensures var t := TakeLengths(input.bits, old(input.At()), Canonical(clLengths), [], total);
            if ok then !input.overrun && t == Parsed(lengths, input.At()) else t.NoParse?
  {
    ghost var bits, code, none: seq<nat> := input.bits, Canonical(clLengths), [];
    ghost var whole := TakeLengths(bits, input.At(), code, none, total);
    var list := new nat[total](_ => 0);
    var written := 0;
    assert list[..0] == none;
    while written < total
      invariant input.Valid() && !input.overrun && written <= total
      invariant Filled(bits, input.At(), code, list[..written], total, whole)
    {
      ghost var at, soFar := input.At(), list[..written];
      var more;
      more, written := ReadRun(input, cl, clLengths, code, list, written);
      FilledStep(bits, at, code, soFar, total, whole, more, input.At(), list[..written]);
      if !more {
        return false, [];
      }
    }
    assert list[..written] == list[..];
    return true, list[..];
  }

  lemma CodedUnfold(bits: seq<Bit>, p: nat, hlit: nat, total: nat, lengths: seq<nat>, all: seq<nat>, q: nat)
    requires Usable(lengths) && TakeLengths(bits, p, Canonical(lengths), [], total) == Parsed(all, q) && hlit <= total
    ensures |all| == total
    ensures TakeCoded(bits, p, hlit, total, lengths)
         == if Usable(all[..hlit]) && Usable(all[hlit..]) then Parsed(Tables(all[..hlit], all[hlit..]), q) else NoParse
  {
  }

  lemma CodedStop(bits: seq<Bit>, p: nat, hlit: nat, total: nat, lengths: seq<nat>)
    requires Usable(lengths) ==> TakeLengths(bits, p, Canonical(lengths), [], total).NoParse?
    ensures TakeCoded(bits, p, hlit, total, lengths).NoParse?
  {
  }

  method ReadCoded(input: BitReader, hlit: nat, total: nat, codeLengths: seq<nat>) returns (r: Codes)
    requires input.Valid() && !input.overrun && hlit <= total && |codeLengths| == 19
    modifies input
    ensures input.Valid()
    ensures var t := TakeCoded(input.bits, old(input.At()), hlit, total, codeLengths);
            if r.BadCodes? then t.NoParse? else t.Parsed? && t.next == input.At() && !input.overrun && Serve(r, t.value)
  {
    ghost var bits, p := input.bits, input.At();
    var cl := Build(codeLengths);
    if cl.Rejected? {
      CodedStop(bits, p, hlit, total, codeLengths);
      return BadCodes;
    }
    var filled, lengths := ReadLengths(input, cl.table, codeLengths, total);
    if !filled {
      CodedStop(bits, p, hlit, total, codeLengths);
      return BadCodes;
    }
    CodedUnfold(bits, p, hlit, total, codeLengths, lengths, input.At());
    var l := Build(lengths[..hlit]);
    if l.Rejected? {
      return BadCodes;
    }
    var d := Build(lengths[hlit..]);
    if d.Rejected? {
      return BadCodes;
    }
    r := Codes(l.table, d.table);
  }

  method ReadLists(input: BitReader, hlit: nat, total: nat, hclen: nat) returns (r: Codes)
    requires input.Valid() && !input.overrun && hlit <= total && hclen <= 19
    modifies input
    ensures input.Valid()
    ensures var t := TakeLists(input.bits, old(input.At()), hlit, total, hclen);
            if r.BadCodes? then t.NoParse? else t.Parsed? && t.next == input.At() && !input.overrun && Serve(r, t.value)
  {
    ghost var bits, p := input.bits, input.At();
    var codeLengths := CodeLengthAlphabet(input, hclen);
    if input.overrun {
      return BadCodes;
    }
    ListsUnfold(bits, p, hlit, total, hclen, TakeEach(bits, p, hclen, []).value, input.At());
    r := ReadCoded(input, hlit, total, codeLengths);
  }

  lemma TablesUnfold(bits: seq<Bit>, p: nat, c: Counts, q: nat)
    requires TakeCounts(bits, p) == Parsed(c, q)
    ensures TakeTables(bits, p) == TakeLists(bits, q, c.hlit, c.total, c.n)
  {
  }

  method DynamicTables(input: BitReader) returns (r: Codes)
    requires input.Valid() && !input.overrun
    modifies input
    ensures input.Valid()
    ensures var t := TakeTables(input.bits, old(input.At()));
            if r.BadCodes? then t.NoParse? else t.Parsed? && t.next == input.At() && !input.overrun && Serve(r, t.value)
  {
    ghost var bits, p := input.bits, input.At();
    var ok, hlit, hdist, hclen := ReadCounts(input);
    if !ok {
      return BadCodes;
    }
    var total := hlit + hdist;
    TablesUnfold(bits, p, Counts(hlit, total, hclen), input.At());
    r := ReadLists(input, hlit, total, hclen);
  }

  // ---- The symbol loop ----

  method ReadLength(input: BitReader, index: nat) returns (n: nat, ghost extra: nat)
    requires input.Valid() && !input.overrun && index < LENGTH_CODES
    modifies input
    ensures input.Valid() && n == LengthBase(index) + extra
    ensures var t := TakeBits(input.bits, old(input.At()), LengthExtra(index));
            if input.overrun then t.NoParse? else t == Parsed(extra, input.At())
  {
    LengthBaseTable(index);
    LengthExtraTable(index);
    var e := input.ReadBits(K_LENGTH_EXTRA[index]);
    return K_LENGTH_BASE[index] + e, e;
  }

  method ReadDistance(input: BitReader, index: nat) returns (d: nat, ghost extra: nat)
    requires input.Valid() && !input.overrun && index < DISTANCE_CODES
    modifies input
    ensures input.Valid() && d == DistanceBase(index) + extra
    ensures var t := TakeBits(input.bits, old(input.At()), DistanceExtra(index));
            if input.overrun then t.NoParse? else t == Parsed(extra, input.At())
  {
    DistanceBaseTable(index);
    DistanceExtraTable(index);
    var e := input.ReadBits(K_DISTANCE_EXTRA[index]);
    return K_DISTANCE_BASE[index] + e, e;
  }

  /// The byte loop of a back reference, which may read what it has just written.
  method CopyLoop(out: seq<Byte>, distance: nat, length: nat) returns (r: seq<Byte>)
    requires 1 <= distance <= |out|
    ensures r == CopyBack(out, distance, length)
  {
    var from := |out| - distance;
    r := out;
    ghost var left := length;
    for i := 0 to length
      invariant left == length - i && from + i == |r| - distance && distance <= |r|
      invariant CopyBack(out, distance, length) == CopyBack(r, distance, left)
    {
      r := r + [r[from + i]];
      left := left - 1;
    }
  }

  ghost predicate Reaches(out: seq<Byte>, t: Token) {
    t.Distance() <= |out| && |out| + t.Length() <= MAX_OUTPUT
  }

  lemma CopyParts(bits: seq<Bit>, p: nat, dist: Code, lc: nat, le: nat, p1: nat, dc: nat, p2: nat, de: nat, p3: nat, t: Token)
    requires lc < LENGTH_CODES && TakeBits(bits, p, LengthExtra(lc)) == Parsed(le, p1)
    requires TakeSymbol(bits, p1, dist) == Parsed(dc, p2) && dc < DISTANCE_CODES
    requires t == Copy(lc, le, dc, de)
    ensures TakeBits(bits, p2, DistanceExtra(dc)).NoParse? ==> TakeCopy(bits, p, dist, lc).NoParse?
    ensures TakeBits(bits, p2, DistanceExtra(dc)) == Parsed(de, p3) ==> TakeCopy(bits, p, dist, lc) == Parsed(t, p3)
  {
  }

  lemma CopyStops(bits: seq<Bit>, p: nat, dist: Code, lc: nat)
    requires lc >= LENGTH_CODES || TakeBits(bits, p, LengthExtra(lc)).NoParse?
             || (var q := TakeBits(bits, p, LengthExtra(lc)).next;
                 TakeSymbol(bits, q, dist).NoParse? || TakeSymbol(bits, q, dist).value >= DISTANCE_CODES)
    ensures TakeCopy(bits, p, dist, lc).NoParse?
  {
  }

  ghost predicate Read(taken: Parsed<Token>, ok: bool, next: nat, t: Token, length: nat, distance: nat) {
    if ok then taken == Parsed(t, next) && t.Length() == length && t.Distance() == distance else taken.NoParse?
  }

  /// The length and the distance of a back reference, after its length symbol.
  method ReadCopy(input: BitReader, table: Table, ghost lengths: seq<nat>, ghost dist: Code, index: nat)
    returns (ok: bool, length: nat, distance: nat, ghost t: Token)
    requires input.Valid() && !input.overrun && TableOf(table, lengths) && dist == Canonical(lengths)
    modifies input
    ensures input.Valid() && (ok ==> !input.overrun)
    ensures Read(TakeCopy(input.bits, old(input.At()), dist, index), ok, input.At(), t, length, distance)
  {
    ghost var bits, p := input.bits, input.At();
    ok, length, distance, t := false, 0, 0, Literal(0);
    if index >= 29 {
      CopyStops(bits, p, dist, index);
      return;
    }
    ghost var le, de;
    length, le := ReadLength(input, index);
    ghost var p1 := input.At();
    var symbol := input.Decode(table, lengths, dist);
    if symbol < 0 || symbol >= 30 {
      CopyStops(bits, p, dist, index);
      return;
    }
    ghost var p2 := input.At();
    distance, de := ReadDistance(input, symbol);
    t := Copy(index, le, symbol, de);
    CopyParts(bits, p, dist, index, le, p1, symbol, p2, de, input.At(), t);
    ok := !input.overrun;
  }

  /// A back reference, from the extra bits of its length on.
  method BackReference(input: BitReader, table: Table, ghost lengths: seq<nat>, ghost dist: Code, index: nat, out: seq<Byte>)
    returns (ok: bool, r: seq<Byte>)
    requires input.Valid() && !input.overrun && TableOf(table, lengths) && dist == Canonical(lengths)
    modifies input
    ensures input.Valid()
    ensures var t := TakeCopy(input.bits, old(input.At()), dist, index);
            if ok then !input.overrun && t.Parsed? && t.next == input.At() && Reaches(out, t.value) && r == Apply(out, t.value)
            else t.Parsed? ==> !Reaches(out, t.value)
  {
    var length, distance;
    ghost var t;
    ok, length, distance, t := ReadCopy(input, table, lengths, dist, index);
    if !ok || distance == 0 || distance > |out| || |out| + length > MAX_OUTPUT {
      return false, out;
    }
    r := CopyLoop(out, distance, length);
  }

  /// How the symbol loop stands: still owing the rest of the block, done, or failed.
  datatype Progress = More | Done | Failed

  ghost predicate Stands(bits: seq<Bit>, at: nat, lit: Code, dist: Code, out: seq<Byte>, pr: Progress, whole: Parsed<seq<Byte>>) {
    match pr
    case More => whole == TakeBody(bits, at, lit, dist, out)
    case Done => whole == Parsed(out, at)
    case Failed => whole.NoParse?
  }

  lemma SymbolStops(bits: seq<Bit>, p: nat, lit: Code, dist: Code, out: seq<Byte>)
    requires TakeSymbol(bits, p, lit).NoParse? || |out| >= MAX_OUTPUT
    ensures TakeBody(bits, p, lit, dist, out).NoParse?
  {
  }

  lemma LiteralTaken(bits: seq<Bit>, p: nat, lit: Code, dist: Code, out: seq<Byte>, symbol: nat, q: nat, after: seq<Byte>)
    requires TakeSymbol(bits, p, lit) == Parsed(symbol, q) && symbol < 256 && |out| < MAX_OUTPUT
    requires after == out + [symbol as Byte]
    ensures TakeBody(bits, p, lit, dist, out) == TakeBody(bits, q, lit, dist, after)
  {
    var t := Literal(symbol as Byte);
    ItemOfLiteral(bits, p, lit, dist, t, q);
    BodyStep(bits, p, lit, dist, out, t, q);
  }

  lemma EndOfBlock(bits: seq<Bit>, p: nat, lit: Code, dist: Code, out: seq<Byte>, q: nat)
    requires TakeSymbol(bits, p, lit) == Parsed(256, q) && |out| < MAX_OUTPUT
    ensures TakeBody(bits, p, lit, dist, out) == Parsed(out, q)
  {
  }

  lemma CopyRefused(bits: seq<Bit>, p: nat, lit: Code, dist: Code, out: seq<Byte>, symbol: nat, p1: nat, t: Parsed<Token>)
    requires TakeSymbol(bits, p, lit) == Parsed(symbol, p1) && symbol > 256
    requires t == TakeCopy(bits, p1, dist, symbol - END_OF_BLOCK - 1) && !(t.Parsed? && Reaches(out, t.value))
    ensures TakeBody(bits, p, lit, dist, out).NoParse?
  {
  }

  lemma CopyStep(bits: seq<Bit>, p: nat, lit: Code, dist: Code, out: seq<Byte>, symbol: nat, p1: nat, index: nat)
    requires TakeSymbol(bits, p, lit) == Parsed(symbol, p1) && symbol > 256 && |out| < MAX_OUTPUT && index == symbol - 257
    ensures var t := TakeCopy(bits, p1, dist, index);
            if t.Parsed? && Reaches(out, t.value) then
              TakeBody(bits, p, lit, dist, out) == TakeBody(bits, t.next, lit, dist, Apply(out, t.value))
            else TakeBody(bits, p, lit, dist, out).NoParse?
  {
    assert symbol - END_OF_BLOCK - 1 == index;
    var t := TakeCopy(bits, p1, dist, index);
    if t.Parsed? && Reaches(out, t.value) {
      BodyStep(bits, p, lit, dist, out, t.value, t.next);
    } else {
      CopyRefused(bits, p, lit, dist, out, symbol, p1, t);
    }
  }

  /// One turn of the symbol loop.
  method Step(input: BitReader, c: Codes, ghost lengths: Tables, ghost lit: Code, ghost dist: Code, out: seq<Byte>)
    returns (pr: Progress, r: seq<Byte>)
    requires input.Valid() && !input.overrun && Serve(c, lengths)
    requires lit == Canonical(lengths.lit) && dist == Canonical(lengths.dist)
    modifies input
    ensures input.Valid() && (pr.More? ==> input.At() > old(input.At())) && (!pr.Failed? ==> !input.overrun)
    ensures Stands(input.bits, input.At(), lit, dist, r, pr, TakeBody(input.bits, old(input.At()), lit, dist, out))
  {
    ghost var bits, p := input.bits, input.At();
    var symbol := input.Decode(c.lit, lengths.lit, lit);
    if symbol < 0 || |out| >= MAX_OUTPUT {
      SymbolStops(bits, p, lit, dist, out);
      return Failed, out;
    }
    ghost var p1 := input.At();
    if symbol < 256 {
      r := out + [symbol as Byte];
      LiteralTaken(bits, p, lit, dist, out, symbol, p1, r);
      return More, r;
    }
    if symbol == 256 {
      EndOfBlock(bits, p, lit, dist, out, p1);
      return Done, out;
    }
    CopyStep(bits, p, lit, dist, out, symbol, p1, symbol - 257);
    var ok;
    ok, r := BackReference(input, c.dist, lengths.dist, dist, symbol - 257, out);
    pr := if ok then More else Failed;
  }

  method InflateBlock(input: BitReader, c: Codes, ghost lengths: Tables, out: seq<Byte>) returns (ok: bool, r: seq<Byte>)
    requires input.Valid() && !input.overrun && Serve(c, lengths)
    modifies input
    ensures input.Valid()
    ensures var t := TakeBody(input.bits, old(input.At()), Canonical(lengths.lit), Canonical(lengths.dist), out);
            if ok then !input.overrun && t == Parsed(r, input.At()) else t.NoParse?
  {
    ghost var bits, lit, dist := input.bits, Canonical(lengths.lit), Canonical(lengths.dist);
    ghost var whole := TakeBody(bits, input.At(), lit, dist, out);
    r := out;
    var pr := More;
    while pr.More?
      invariant input.Valid() && (!pr.Failed? ==> !input.overrun)
      invariant Stands(bits, input.At(), lit, dist, r, pr, whole)
      decreases pr.More?, |bits| - input.At()
    {
      pr, r := Step(input, c, lengths, lit, dist, r);
    }
    ok := pr.Done?;
  }

  // ---- Stored blocks ----

  lemma ByteAtByte(data: seq<Byte>, j: nat, at: nat)
    requires j < |data| && at == 8 * j
    ensures ByteAt(BitsOf(data), at) == data[j]
  {
    ByteOfBits(data, j);
  }

  lemma ContentAt(data: seq<Byte>, k: nat, n: nat, at: nat)
    requires k + n <= |data| && at == 8 * k
    ensures BytesAt(BitsOf(data), at, n) == data[k..k + n]
  {
    var bytes, part := BytesAt(BitsOf(data), at, n), data[k..k + n];
    forall i | 0 <= i < n
      ensures bytes[i] == part[i]
    {
      ByteAtByte(data, k + i, at + 8 * i);
    }
  }

  /// The two numbers of a stored block, after its padding.
  ghost predicate StoredNumbers(bits: seq<Bit>, p: nat, length: nat, inverse: nat, q2: nat) {
    var q := AlignUp(p);
    var q1 := q + 16;
    TakeBits(bits, q, 16) == Parsed(length, q1) && TakeBits(bits, q1, 16) == Parsed(inverse, q2) && length < 65536
  }

  lemma StoredStops(bits: seq<Bit>, p: nat, out: seq<Byte>, length: nat, inverse: nat, q2: nat)
    requires StoredNumbers(bits, p, length, inverse, q2)
    requires inverse != 65535 - length || |out| + length > MAX_OUTPUT || q2 + 8 * length > |bits|
    ensures TakeStored(bits, p, out).NoParse?
  {
  }

  lemma StoredGoes(bits: seq<Bit>, p: nat, out: seq<Byte>, length: nat, q2: nat, q3: nat)
    requires length < 65536 && StoredNumbers(bits, p, length, 65535 - length, q2)
    requires |out| + length <= MAX_OUTPUT && q3 == q2 + 8 * length <= |bits|
    ensures TakeStored(bits, p, out) == Parsed(out + BytesAt(bits, q2, length), q3)
  {
    var q := AlignUp(p);
    StoredUnfold(bits, p, out, length, q, q + 16, q2, q3);
  }

  /// The next two bytes as a number.
  method TakeU16(input: BitReader) returns (v: nat)
    requires input.Valid() && input.held == 0
    modifies input
    ensures input.Valid() && input.held == 0
    ensures input.overrun == (old(input.overrun) || TakeBits(input.bits, old(input.At()), 16).NoParse?)
    ensures var t := TakeBits(input.bits, old(input.At()), 16); t.Parsed? ==> t == Parsed(v, input.At()) && v < 65536
  {
    ghost var p := input.At();
    v := input.ReadU16Le();
    if TakeBits(input.bits, p, 16).Parsed? {
      TakenNumber(input.bits, p, 16);
      SixteenBits();
    }
  }

  lemma StoredShort(bits: seq<Bit>, p: nat, q: nat, q1: nat)
    requires q == AlignUp(p) && q1 == q + 16
    requires TakeBits(bits, q, 16).NoParse? || TakeBits(bits, q1, 16).NoParse?
    ensures forall out :: TakeStored(bits, p, out).NoParse?
  {
  }

  lemma NextBoundary(p: nat, q: nat)
    requires p <= q < p + 8 && q % 8 == 0
    ensures q == AlignUp(p)
  {
  }

  method StoredHeader(input: BitReader) returns (length: nat, inverse: nat)
    requires input.Valid() && !input.overrun
    modifies input
    ensures input.Valid() && input.held == 0
    ensures if input.overrun then forall out :: TakeStored(input.bits, old(input.At()), out).NoParse?
            else StoredNumbers(input.bits, old(input.At()), length, inverse, input.At())
  {
    ghost var p := input.At();
    input.AlignToByte();
    ghost var q := input.At();
    NextBoundary(p, q);
    length := TakeU16(input);
    inverse := TakeU16(input);
    if input.overrun {
      StoredShort(input.bits, p, q, q + 16);
    }
  }

  method StoredBlock(input: BitReader, out: seq<Byte>) returns (ok: bool, r: seq<Byte>)
    requires input.Valid() && !input.overrun
    modifies input
    ensures input.Valid()
    ensures var t := TakeStored(input.bits, old(input.At()), out);
            if ok then !input.overrun && t == Parsed(r, input.At()) else t.NoParse?
  {
    ghost var bits, p := input.bits, input.At();
    ok, r := false, out;
    var length, inverse := StoredHeader(input);
    if input.overrun {
      return;
    }
    ghost var q2 := input.At();
    if inverse != 65535 - length || |out| + length > MAX_OUTPUT {
      StoredStops(bits, p, out, length, inverse, q2);
      return;
    }
    var k := input.pos;
    ok, r := input.CopyBytes(out, length);
    if ok {
      ContentAt(input.data, k, length, q2);
      StoredGoes(bits, p, out, length, q2, input.At());
    } else {
      StoredStops(bits, p, out, length, inverse, q2);
    }
  }

  // ---- Streams ----

  ghost predicate Standing(bits: seq<Bit>, at: nat, out: seq<Byte>, pr: Progress, whole: Parsed<seq<Byte>>) {
    match pr
    case More => whole == TakeStream(bits, at, out)
    case Done => whole == Parsed(out, at)
    case Failed => whole.NoParse?
  }

  lemma StreamTurn(bits: seq<Bit>, s: nat, out: seq<Byte>, f: nat, k: nat, s1: nat, p: nat, ok: bool, q: nat, more: seq<Byte>)
    requires TakeBits(bits, s, 1) == Parsed(f, s1) && TakeBits(bits, s1, 2) == Parsed(k, p)
    requires if ok then TakePayload(bits, p, k, out) == Parsed(more, q) else TakePayload(bits, p, k, out).NoParse?
    ensures Standing(bits, q, more, if !ok then Failed else if f != 0 then Done else More, TakeStream(bits, s, out))
  {
    if ok {
      StreamStep(bits, s, out, f, k, s1, p, more, q);
    }
  }

  /// A block after its three header bits.
  method BlockBody(input: BitReader, kind: nat, out: seq<Byte>) returns (ok: bool, r: seq<Byte>)
    requires input.Valid() && !input.overrun
    modifies input
    ensures input.Valid() && (ok ==> !input.overrun)
    ensures var t := TakePayload(input.bits, old(input.At()), kind, out);
            if ok then t == Parsed(r, input.At()) else t.NoParse?
  {
    if kind == 0 {
      ok, r := StoredBlock(input, out);
      return;
    }
    if kind >= 3 {
      return false, out;
    }
    var codes;
    ghost var lengths;
    ghost var p := input.At();
    if kind == 1 {
      codes := FixedTables();
      lengths := Tables(FixedLitLengths(), FixedDistLengths());
    } else {
      codes := DynamicTables(input);
      if codes.BadCodes? {
        return false, out;
      }
      lengths := TakeTables(input.bits, p).value;
      DynamicUnfold(input.bits, p, out, lengths.lit, lengths.dist, input.At());
    }
    ok, r := InflateBlock(input, codes, lengths, out);
  }

  method NextBlock(input: BitReader, out: seq<Byte>) returns (pr: Progress, r: seq<Byte>)
    requires input.Valid() && !input.overrun
    modifies input
    ensures input.Valid() && (!pr.Failed? ==> !input.overrun && input.At() > old(input.At()))
    ensures Standing(input.bits, input.At(), r, pr, TakeStream(input.bits, old(input.At()), out))
  {
    ghost var bits, s := input.bits, input.At();
    var final := input.ReadBits(1);
    ghost var s1 := input.At();
    var kind := input.ReadBits(2);
    if input.overrun {
      return Failed, out;
    }
    ghost var p := input.At();
    var ok;
    ok, r := BlockBody(input, kind, out);
    StreamTurn(bits, s, out, final, kind, s1, p, ok, input.At(), r);
    pr := if !ok then Failed else if final != 0 then Done else More;
  }

  datatype Inflated = Ok(bytes: seq<Byte>) | BadFormat

  /// `inflate_raw`: it succeeds exactly on the data that begins with a valid list of blocks, and
  /// returns their expansion.
  method InflateRaw(data: seq<Byte>) returns (r: Inflated)
    ensures r.Ok? <==> exists blocks :: Holds(data, blocks)
    ensures forall blocks | Holds(data, blocks) :: r == Ok(ExpandStream(blocks, []))
  {
    var input := new BitReader(data);
    ghost var whole := TakeStream(BitsOf(data), 0, []);
    var out: seq<Byte> := [];
    var pr := More;
    while pr.More?
      invariant input.Valid() && fresh(input) && input.bits == BitsOf(data) && (!pr.Failed? ==> !input.overrun)
      invariant Standing(input.bits, input.At(), out, pr, whole)
      decreases pr.More?, |input.bits| - input.At()
    {
      pr, out := NextBlock(input, out);
    }
    DecodesExactly(data);
    r := if pr.Done? then Ok(out) else BadFormat;
  }
}
