/// The bit reader of transport/src/Inflate.cpp, specified by the bit string it reads from.
module BitReading {
  import opened Bits
  import opened Huffman

  /// The code of symbol `s` is what follows at bit `p`.
  ghost predicate HasCode(bits: seq<Bit>, p: nat, code: Code, s: nat) {
    s in code && code[s] != [] && Follows(bits, p, code[s])
  }

  lemma OneCode(bits: seq<Bit>, p: nat, code: Code, s: nat, t: nat)
    requires PrefixFree(code) && HasCode(bits, p, code, s) && HasCode(bits, p, code, t)
    ensures s == t
    decreases |code[s]| > |code[t]|
  {
    if |code[s]| <= |code[t]| {
      assert bits[p..p + |code[s]|] == bits[p..p + |code[t]|][..|code[s]|];
    } else {
      OneCode(bits, p, code, t, s);
    }
  }

  /// What a reader finds at bit `p`: a value and where the rest starts, or nothing.
  datatype Parsed<T> = NoParse | Parsed(value: T, next: nat) {
    predicate IsFailure() { NoParse? }
    function PropagateFailure<U>(): Parsed<U>
      requires NoParse?
    {
      NoParse
    }
    function Extract(): (T, nat)
      requires Parsed?
    {
      (value, next)
    }
  }

  ghost function TakeBits(bits: seq<Bit>, p: nat, n: nat): (r: Parsed<nat>)
    ensures r.Parsed? ==> p <= r.next <= |bits|
  {
    if p + n <= |bits| then Parsed(LsbValue(bits[p..p + n]), p + n) else NoParse
  }

  /// The symbol whose code follows.
  ghost function TakeSymbol(bits: seq<Bit>, p: nat, code: Code): (r: Parsed<nat>)
    ensures r.Parsed? ==> p < r.next <= |bits|
  {
    if s: nat :| HasCode(bits, p, code, s) then Parsed(s, p + |code[s]|) else NoParse
  }

  lemma TakeSymbolExact(bits: seq<Bit>, p: nat, code: Code, s: nat, q: nat)
    requires PrefixFree(code) && q == p + |Word(code, s)|
    ensures s in code ==> (Follows(bits, p, Word(code, s)) <==> TakeSymbol(bits, p, code) == Parsed(s, q))
    ensures TakeSymbol(bits, p, code).Parsed? && TakeSymbol(bits, p, code).value == s ==>
              s in code && TakeSymbol(bits, p, code).next == q
  {
    if HasCode(bits, p, code, s) {
      OneCode(bits, p, code, s, TakeSymbol(bits, p, code).value);
    }
  }

  lemma CodeRange(lengths: seq<nat>, s: nat, l: nat)
    requires Used(lengths, s) && lengths[s] == l
    ensures FirstCode(lengths, l) <= CodeOf(lengths, s) < FirstCode(lengths, l) + NumCodes(lengths, l)
  {
    RankBound(lengths, s);
  }

  /// A symbol whose code is `l` bits long is present exactly when those bits spell its code.
  lemma CodeByValue(bits: seq<Bit>, p: nat, lengths: seq<nat>, s: nat)
    requires Usable(lengths) && Used(lengths, s) && p + lengths[s] <= |bits|
    ensures HasCode(bits, p, Canonical(lengths), s) <==> MsbValue(bits[p..p + lengths[s]]) == CodeOf(lengths, s)
  {
    CodeFits(lengths, s);
    SpelledExactly(bits[p..p + lengths[s]], CodeOf(lengths, s), lengths[s]);
    assert Canonical(lengths)[s] == CodeBits(lengths, s);
  }

  lemma SpelledExactly(s: seq<Bit>, v: nat, n: nat)
    requires |s| == n && v < Pow2(n)
    ensures s == MsbBits(v, n) <==> MsbValue(s) == v
  {
    MsbValueOfBits(v, n);
    MsbBitsOfValue(s);
  }

  lemma ExtendCode(bits: seq<Bit>, q: nat, p: nat, b: nat)
    requires p <= q < |bits| && b == LsbValue(bits[q..q + 1])
    ensures MsbValue(bits[p..q + 1]) == 2 * MsbValue(bits[p..q]) + b
  {
    assert bits[q..q + 1] == [bits[q]];
    assert bits[p..q + 1][..q - p] == bits[p..q];
  }

  /// The walk's test at length `l`: an in-range offset is the symbol with that rank ...
  lemma WalkHit(bits: seq<Bit>, p: nat, q: nat, lengths: seq<nat>, code: Code, t: Table, l: nat, v: nat, at: nat)
    requires TableOf(t, lengths) && code == Canonical(lengths) && 1 <= l <= MAX_BITS && p + l == q <= |bits|
    requires v == MsbValue(bits[p..q])
    requires FirstCode(lengths, l) <= v < FirstCode(lengths, l) + t.counts[l]
    requires at == Offset(lengths, l) + (v - FirstCode(lengths, l))
    ensures at < |t.symbols| && TakeSymbol(bits, p, code) == Parsed(t.symbols[at], q)
  {
    var s := SlotHolds(lengths, t, l, v - FirstCode(lengths, l));
    Spelled(bits, p, q, lengths, code, s, v);
  }

  lemma SlotHolds(lengths: seq<nat>, t: Table, l: nat, k: nat) returns (s: nat)
    requires TableOf(t, lengths) && 1 <= l <= MAX_BITS && k < t.counts[l]
    ensures Offset(lengths, l) + k < |t.symbols| && t.symbols[Offset(lengths, l) + k] == s
    ensures Used(lengths, s) && lengths[s] == l && CodeOf(lengths, s) == FirstCode(lengths, l) + k
  {
    s := SymbolOfRank(lengths, l, k);
    TableEntry(t, lengths, s);
  }

  lemma Spelled(bits: seq<Bit>, p: nat, q: nat, lengths: seq<nat>, code: Code, s: nat, v: nat)
    requires Usable(lengths) && code == Canonical(lengths) && Used(lengths, s) && p + lengths[s] == q <= |bits|
    requires v == MsbValue(bits[p..q]) == CodeOf(lengths, s)
    ensures TakeSymbol(bits, p, code) == Parsed(s, q)
  {
    CodeByValue(bits, p, lengths, s);
    CanonicalPrefixFree(lengths);
    TakeSymbolExact(bits, p, code, s, q);
  }

  lemma TableEntry(t: Table, lengths: seq<nat>, s: nat)
    requires TableOf(t, lengths) && Used(lengths, s)
    ensures Slot(lengths, s) < |t.symbols| && t.symbols[Slot(lengths, s)] == s
  {
  }

  /// Whatever code follows has at least `l` bits.
  ghost predicate NoneShorter(bits: seq<Bit>, p: nat, code: Code, l: nat) {
    forall s: nat | HasCode(bits, p, code, s) :: |code[s]| >= l
  }

  /// ... and an out-of-range one means no symbol of that length is there.
  lemma WalkMiss(bits: seq<Bit>, p: nat, q: nat, lengths: seq<nat>, code: Code, l: nat, v: nat)
    requires Usable(lengths) && code == Canonical(lengths) && 1 <= l && p + l == q <= |bits|
    requires v == MsbValue(bits[p..q]) && v >= FirstCode(lengths, l) + NumCodes(lengths, l)
    requires NoneShorter(bits, p, code, l)
    ensures NoneShorter(bits, p, code, l + 1)
  {
    forall s: nat | HasCode(bits, p, code, s)
      ensures |code[s]| >= l + 1
    {
      if |code[s]| == l {
        NotThisLength(bits, p, q, lengths, l, v, s);
      }
    }
  }

  lemma NotThisLength(bits: seq<Bit>, p: nat, q: nat, lengths: seq<nat>, l: nat, v: nat, s: nat)
    requires Usable(lengths) && 1 <= l && p + l == q <= |bits|
    requires v == MsbValue(bits[p..q]) && v >= FirstCode(lengths, l) + NumCodes(lengths, l)
    requires s < |lengths| && lengths[s] == l
    ensures !HasCode(bits, p, Canonical(lengths), s)
  {
    CodeByValue(bits, p, lengths, s);
    CodeRange(lengths, s, l);
  }

  /// The walk's variables after `l - 1` bits without a hit.
  ghost predicate Walked(bits: seq<Bit>, p: nat, q: nat, lengths: seq<nat>, code: Code, l: nat, v: nat, first: nat, index: nat) {
    && 1 <= l <= MAX_BITS + 1 && p + l - 1 == q <= |bits|
    && v == 2 * MsbValue(bits[p..q]) && v >= first
    && first == FirstCode(lengths, l) && index == Offset(lengths, l)
    && NoneShorter(bits, p, code, l)
  }

  lemma WalkStart(bits: seq<Bit>, p: nat, lengths: seq<nat>, code: Code)
    requires p <= |bits|
    ensures Walked(bits, p, p, lengths, code, 1, 0, 0, 0)
  {
  }

  /// One more bit makes `w` of `v`; `at` is the table index the walk then looks at.
  lemma WalkStep(bits: seq<Bit>, p: nat, q: nat, lengths: seq<nat>, code: Code, t: Table, l: nat, v: nat, first: nat,
                 index: nat, b: nat, w: nat, at: int)
    requires TableOf(t, lengths) && code == Canonical(lengths) && l <= MAX_BITS
    requires Walked(bits, p, q, lengths, code, l, v, first, index)
    requires q < |bits| && b == LsbValue(bits[q..q + 1]) && w == v + b && at == index + (w - first)
    ensures l < |t.counts|
    ensures w - first < t.counts[l] ==>
              0 <= at < |t.symbols| && TakeSymbol(bits, p, code) == Parsed(t.symbols[at], q + 1)
    ensures w - first >= t.counts[l] ==>
              Walked(bits, p, q + 1, lengths, code, l + 1, 2 * w, 2 * (first + t.counts[l]), index + t.counts[l])
  {
    ExtendCode(bits, q, p, b);
    if w - first < t.counts[l] {
      WalkHit(bits, p, q + 1, lengths, code, t, l, w, at);
    } else {
      WalkMiss(bits, p, q + 1, lengths, code, l, w);
    }
  }

  lemma NoneAtAll(bits: seq<Bit>, p: nat, q: nat, lengths: seq<nat>, code: Code, l: nat, v: nat, first: nat, index: nat)
    requires Usable(lengths) && code == Canonical(lengths)
    requires Walked(bits, p, q, lengths, code, l, v, first, index) && (l > MAX_BITS || q >= |bits|)
    ensures TakeSymbol(bits, p, code).NoParse?
  {
  }

  lemma RunsOut(bits: seq<Bit>, p: nat, q: nat, lengths: seq<nat>, code: Code, l: nat, v: nat, first: nat, index: nat, already: bool)
    requires Usable(lengths) && code == Canonical(lengths)
    requires Walked(bits, p, q, lengths, code, l, v, first, index) && (already || q >= |bits|)
    ensures !already ==> TakeSymbol(bits, p, code).NoParse?
  {
    if !already {
      NoneAtAll(bits, p, q, lengths, code, l, v, first, index);
    }
  }

  /// The bit under the cursor is the low bit of what is left of the current byte.
  lemma NextBit(data: seq<Byte>, pos: nat, held: nat, q: nat, buffer: nat)
    requires 0 < pos <= |data| && 0 < held <= 8 && q == 8 * pos - held && buffer == Shr(data[pos - 1], 8 - held)
    ensures BitsOf(data)[q] as nat == buffer % 2
    ensures Shr(data[pos - 1], 8 - (held - 1)) == buffer / 2
  {
    assert q / 8 == pos - 1 && q % 8 == 8 - held;
    ShrHalf(data[pos - 1], 8 - held);
  }

  lemma ExtendValue(bits: seq<Bit>, p: nat, q: nat, i: nat)
    requires p <= q < |bits| && i == q - p
    ensures LsbValue(bits[p..q + 1]) == LsbValue(bits[p..q]) + Shl(bits[q] as nat, i)
  {
    LsbValueSnoc(bits[p..q], bits[q]);
    assert bits[p..q] + [bits[q]] == bits[p..q + 1];
  }

  class BitReader {
    const data: seq<Byte>
    ghost const bits: seq<Bit>
    var pos: nat
    var buffer: nat
    var held: nat
    var overrun: bool

    ghost predicate Valid()
      reads this
    {
      bits == BitsOf(data) && pos <= |data| && held < 8 && (held > 0 ==> pos > 0 && buffer == Shr(data[pos - 1], 8 - held))
    }

    /// The index of the next bit to be read.
    ghost function At(): nat
      reads this
      requires Valid()
    {
      8 * pos - held
    }

    constructor (data: seq<Byte>)
      ensures Valid() && At() == 0 && !overrun && this.data == data && bits == BitsOf(data)
    {
      this.data := data;
      this.bits := BitsOf(data);
      pos, buffer, held, overrun := 0, 0, 0, false;
    }

    /// The body of the bit loop: fetch a byte when none is held, then take its low bit.
    method ReadBit() returns (ok: bool, b: nat)
      requires Valid()
      modifies this
      ensures Valid() && ok == (old(At()) < |bits|) && overrun == (old(overrun) || !ok)
      ensures ok ==> At() == old(At()) + 1 && b == bits[old(At())] as nat
    {
      if held == 0 {
        if pos >= |data| {
          overrun := true;
          return false, 0;
        }
        buffer := data[pos];
        pos := pos + 1;
        held := 8;
      }
      NextBit(data, pos, held, 8 * pos - held, buffer);
      ok, b := true, buffer % 2;
      buffer := buffer / 2;
      held := held - 1;
    }

    /// The next `count` bits as a number, first bit least significant.
    method ReadBits(count: nat) returns (value: nat)
      requires Valid()
      modifies this
      ensures Valid()
      ensures overrun == (old(overrun) || TakeBits(bits, old(At()), count).NoParse?)
      ensures TakeBits(bits, old(At()), count).Parsed? ==> TakeBits(bits, old(At()), count) == Parsed(value, At())
    {
      value := 0;
      ghost var p, q := At(), At();
      for i := 0 to count
        invariant Valid() && At() == q && q == p + i && overrun == old(overrun)
        invariant p <= q <= |bits| && value == LsbValue(bits[p..q])
      {
        var ok, b := ReadBit();
        if !ok {
          return;
        }
        ExtendValue(bits, p, q, i);
        q := q + 1;
        value := value + Shl(b, i);
      }
    }

    method AlignToByte()
      requires Valid()
      modifies this
      ensures Valid() && overrun == old(overrun)
      ensures old(At()) <= At() < old(At()) + 8 && At() % 8 == 0 && held == 0
    {
      held := 0;
      buffer := 0;
    }

    /// Append the next `n` whole bytes to `out`; the reader stands on a byte boundary.
    method CopyBytes(out: seq<Byte>, n: nat) returns (ok: bool, r: seq<Byte>)
      requires Valid() && held == 0
      modifies this
      ensures Valid() && held == 0
      ensures ok <==> old(pos) + n <= |data|
      ensures overrun == (old(overrun) || !ok)
      ensures ok ==> pos == old(pos) + n && r == out + data[old(pos)..pos]
      ensures !ok ==> r == out
    {
      if pos + n > |data| {
        overrun := true;
        return false, out;
      }
      r := out + data[pos..pos + n];
      pos := pos + n;
      ok := true;
    }

    method ReadU16Le() returns (v: nat)
      requires Valid() && held == 0
      modifies this
      ensures Valid() && held == 0
      ensures overrun == (old(overrun) || old(pos) + 2 > |data|)
      ensures old(pos) + 2 <= |data| ==> pos == old(pos) + 2
      ensures old(pos) + 2 <= |data| ==> v == LsbValue(bits[old(At())..old(At()) + 16])
    {
      if pos + 2 > |data| {
        overrun := true;
        return 0;
      }
      v := data[pos] as nat + 256 * data[pos + 1] as nat;
      TwoBytes(data, pos);
      pos := pos + 2;
    }

    /// Decode a symbol: the one whose code comes next, and just that code is consumed; or -1 when the next
    /// bits are no code of the table.
    method Decode(table: Table, ghost lengths: seq<nat>, ghost code: Code) returns (symbol: int)
      requires Valid() && TableOf(table, lengths) && code == Canonical(lengths)
      modifies this
      ensures Valid()
      ensures old(overrun) ==> overrun && symbol == -1
      ensures !old(overrun) ==> Outcome(TakeSymbol(bits, old(At()), code), symbol)
    {
      ghost var p, q := At(), At();
      var v, first, index := 0, 0, 0;
      WalkStart(bits, p, lengths, code);
      for length := 1 to MAX_BITS + 1
        invariant Valid() && At() == q && overrun == old(overrun) && (length > 1 ==> !overrun)
        invariant Walked(bits, p, q, lengths, code, length, v, first, index)
      {
        var b := ReadBits(1);
        if overrun {
          RunsOut(bits, p, q, lengths, code, length, v, first, index, old(overrun));
          return -1;
        }
        ghost var before := v;
        v := v + b;
        var count := table.counts[length];
        var at := index + (v - first);
        WalkStep(bits, p, q, lengths, code, table, length, before, first, index, b, v, at);
        q := q + 1;
        if v - first < count {
          return if at < |table.symbols| then table.symbols[at] else -1;
        }
        index := index + count;
        first := 2 * (first + count);
        v := 2 * v;
      }
      NoneAtAll(bits, p, q, lengths, code, MAX_BITS + 1, v, first, index);
      return -1;
    }

    /// The reader has returned and consumed exactly what there was to take.
    ghost predicate Outcome(taken: Parsed<nat>, symbol: int)
      reads this
      requires Valid()
    {
      match taken
      case NoParse => symbol == -1
      case Parsed(s, next) => symbol == s && At() == next && !overrun
    }
  }

  lemma TwoBytes(data: seq<Byte>, k: nat)
    requires k + 2 <= |data|
    ensures LsbValue(BitsOf(data)[8 * k..8 * k + 16]) == data[k] as nat + 256 * data[k + 1] as nat
  {
    var s := BitsOf(data);
    ByteOfBits(data, k);
    ByteOfBits(data, k + 1);
    assert s[8 * k..8 * k + 16] == s[8 * k..8 * k + 8] + s[8 * k + 8..8 * k + 16];
    LsbValueConcat(s[8 * k..8 * k + 8], s[8 * k + 8..8 * k + 16]);
    ShlBy8(data[k + 1]);
  }

  lemma ShlBy8(v: nat)
    ensures Shl(v, 8) == 256 * v
  {
    assert Shl(v, 1) == 2 * v;
    assert Shl(v, 2) == 4 * v;
    assert Shl(v, 3) == 8 * v;
    assert Shl(v, 4) == 16 * v;
    assert Shl(v, 5) == 32 * v;
    assert Shl(v, 6) == 64 * v;
    assert Shl(v, 7) == 128 * v;
  }

  lemma {:induction false} LsbValueConcat(s: seq<Bit>, t: seq<Bit>)
    ensures LsbValue(s + t) == LsbValue(s) + Shl(LsbValue(t), |s|)
  {
    if s == [] {
      assert s + t == t;
    } else {
      LsbValueConcat(s[1..], t);
      assert (s + t)[1..] == s[1..] + t;
    }
  }
}
