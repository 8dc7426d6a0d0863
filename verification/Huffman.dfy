/// Canonical Huffman codes as section 3.2.2 of RFC 1951 defines them, and the table builder of
/// transport/src/Inflate.cpp.
module Huffman {
  import opened Bits

  /// Symbols and their code words.
  type Code = map<nat, seq<Bit>>

  /// The code word of `s`, empty when it has none.
  ghost function Word(code: Code, s: nat): seq<Bit> {
    if s in code then code[s] else []
  }

  /// No code word is empty or begins another.
  ghost predicate PrefixFree(code: Code) {
    forall s, t | s in code && t in code :: code[s] != [] && (code[s] <= code[t] ==> s == t)
  }

  const MAX_BITS: nat := 15

  // ---- The canonical code of a length vector ----

  /// How many symbols have code length `l`.
  function Count(lengths: seq<nat>, l: nat): (c: nat)
    ensures c <= |lengths|
  {
    if lengths == [] then 0
    else Count(lengths[..|lengths| - 1], l) + if lengths[|lengths| - 1] == l then 1 else 0
  }

  /// Symbols of length 0 take no part in the code.
  function NumCodes(lengths: seq<nat>, l: nat): nat {
    if l == 0 then 0 else Count(lengths, l)
  }

  /// The numerically smallest code of length `l`.
  function FirstCode(lengths: seq<nat>, l: nat): nat {
    if l == 0 then 0 else 2 * (FirstCode(lengths, l - 1) + NumCodes(lengths, l - 1))
  }

  /// How many symbols of the same length precede `s`.
  function Rank(lengths: seq<nat>, s: nat): nat
    requires s < |lengths|
  {
    Count(lengths[..s], lengths[s])
  }

  function CodeOf(lengths: seq<nat>, s: nat): nat
    requires s < |lengths|
  {
    FirstCode(lengths, lengths[s]) + Rank(lengths, s)
  }

  ghost predicate Used(lengths: seq<nat>, s: nat) {
    s < |lengths| && lengths[s] != 0
  }

  /// The code of symbol `s` as it appears in the stream, most significant bit first.
  ghost function CodeBits(lengths: seq<nat>, s: nat): (c: seq<Bit>)
    requires Used(lengths, s)
    ensures |c| == lengths[s]
  {
    MsbBits(CodeOf(lengths, s), lengths[s])
  }

  ghost function Canonical(lengths: seq<nat>): Code {
    map s: nat | s < |lengths| && lengths[s] != 0 :: CodeBits(lengths, s)
  }

  /// Kraft's sum over the symbols of length 1 to `l`, in units of 2^-15.
  function Weight(lengths: seq<nat>, l: nat): nat
    requires l <= MAX_BITS
  {
    if lengths == [] then 0
    else
      var last := lengths[|lengths| - 1];
      Weight(lengths[..|lengths| - 1], l) + if 1 <= last <= l then Pow2(MAX_BITS - last) else 0
  }

  /// No length above 15, and Kraft's inequality: what makes a length vector a usable code.
  /// Equality is not required, so an incomplete code is usable too.
  ghost predicate Usable(lengths: seq<nat>) {
    (forall i | 0 <= i < |lengths| :: lengths[i] <= MAX_BITS)
    && Weight(lengths, MAX_BITS) <= Pow2(MAX_BITS)
  }

  /// One symbol of length 1 leaves half the code words unused, and is usable.
  lemma IncompleteIsUsable()
    ensures Usable([1]) && Weight([1], MAX_BITS) < Pow2(MAX_BITS)
  {
    SixteenBits();
    assert [1 as nat][..0] == [];
    assert Pow2(15) == 32768 && Pow2(14) == 16384;
  }

  // ---- Counting ----

  lemma {:induction false} CountMonotone(lengths: seq<nat>, i: nat, j: nat, l: nat)
    requires i <= j <= |lengths|
    ensures Count(lengths[..i], l) <= Count(lengths[..j], l)
  {
    if i < j {
      CountMonotone(lengths, i, j - 1, l);
      assert lengths[..j][..j - 1] == lengths[..j - 1];
    }
  }

  lemma CountSnoc(lengths: seq<nat>, i: nat, l: nat)
    requires i < |lengths|
    ensures Count(lengths[..i + 1], l) == Count(lengths[..i], l) + if lengths[i] == l then 1 else 0
  {
    assert lengths[..i + 1][..i] == lengths[..i];
  }

  /// Among symbols of one length the rank is below the count and grows with the symbol.
  lemma RankOrder(lengths: seq<nat>, s: nat, t: nat)
    requires s < t < |lengths| && lengths[s] == lengths[t]
    ensures Rank(lengths, s) < Rank(lengths, t)
  {
    CountSnoc(lengths, s, lengths[s]);
    CountMonotone(lengths, s + 1, t, lengths[s]);
  }

  lemma RankBound(lengths: seq<nat>, s: nat)
    requires s < |lengths|
    ensures Rank(lengths, s) < Count(lengths, lengths[s])
  {
    CountSnoc(lengths, s, lengths[s]);
    CountMonotone(lengths, s + 1, |lengths|, lengths[s]);
    assert lengths[..|lengths|] == lengths;
  }

  /// Every rank below the count is taken.
  lemma {:induction false} SymbolOfRank(lengths: seq<nat>, l: nat, k: nat) returns (s: nat)
    requires k < Count(lengths, l)
    ensures s < |lengths| && lengths[s] == l && Rank(lengths, s) == k
  {
    var n := |lengths| - 1;
    if lengths[n] == l && k == Count(lengths[..n], l) {
      s := n;
    } else {
      s := SymbolOfRank(lengths[..n], l, k);
      assert lengths[..n][..s] == lengths[..s];
    }
  }

  // ---- Kraft's inequality is exactly what keeps every code inside its length ----

  lemma {:induction false} WeightStep(lengths: seq<nat>, l: nat)
    requires l < MAX_BITS
    ensures Weight(lengths, l + 1) == Weight(lengths, l) + Shl(Count(lengths, l + 1), MAX_BITS - l - 1)
  {
    if lengths != [] {
      var front := lengths[..|lengths| - 1];
      WeightStep(front, l);
      ShlPlus(Count(front, l + 1), 1, MAX_BITS - l - 1);
    }
    ShlZero(MAX_BITS - l - 1);
  }

  lemma {:induction false} ShlZero(n: nat)
    ensures Shl(0, n) == 0
  {
    if n != 0 {
      ShlZero(n - 1);
    }
  }

  lemma {:induction false} WeightZero(lengths: seq<nat>)
    ensures Weight(lengths, 0) == 0
  {
    if lengths != [] {
      WeightZero(lengths[..|lengths| - 1]);
    }
  }

  /// The first unused code after length `l`, scaled to 15 bits, is the weight so far.
  lemma {:induction false} CodesUsed(lengths: seq<nat>, l: nat)
    requires l <= MAX_BITS
    ensures Shl(FirstCode(lengths, l) + NumCodes(lengths, l), MAX_BITS - l) == Weight(lengths, l)
  {
    if l == 0 {
      WeightZero(lengths);
      ShlZero(MAX_BITS);
    } else {
      CodesUsed(lengths, l - 1);
      WeightStep(lengths, l - 1);
      var a := FirstCode(lengths, l - 1) + NumCodes(lengths, l - 1);
      ShlPlus(2 * a, Count(lengths, l), MAX_BITS - l);
      ShlDouble(a, MAX_BITS - l);
    }
  }

  lemma {:induction false} WeightMonotone(lengths: seq<nat>, l: nat, m: nat)
    requires l <= m <= MAX_BITS
    ensures Weight(lengths, l) <= Weight(lengths, m)
  {
    if lengths != [] {
      WeightMonotone(lengths[..|lengths| - 1], l, m);
    }
  }

  lemma Fits(lengths: seq<nat>, l: nat)
    requires l <= MAX_BITS && Weight(lengths, MAX_BITS) <= Pow2(MAX_BITS)
    ensures FirstCode(lengths, l) + NumCodes(lengths, l) <= Pow2(l)
  {
    WeightMonotone(lengths, l, MAX_BITS);
    UsedFits(lengths, l, MAX_BITS - l, Weight(lengths, l));
  }

  lemma UsedFits(lengths: seq<nat>, l: nat, k: nat, w: nat)
    requires l + k == MAX_BITS && w == Weight(lengths, l) <= Pow2(MAX_BITS)
    ensures FirstCode(lengths, l) + NumCodes(lengths, l) <= Pow2(l)
  {
    CodesUsed(lengths, l);
    ScaledFits(FirstCode(lengths, l) + NumCodes(lengths, l), l, k, w);
  }

  lemma ScaledFits(c: nat, l: nat, k: nat, w: nat)
    requires l + k == MAX_BITS && Shl(c, k) == w && w <= Pow2(MAX_BITS)
    ensures c <= Pow2(l)
  {
    ShlShl(1, l, k);
    ShlOrder(Pow2(l), c, k);
  }

  lemma CodeFits(lengths: seq<nat>, s: nat)
    requires Usable(lengths) && Used(lengths, s)
    ensures CodeOf(lengths, s) < Pow2(lengths[s])
  {
    RankBound(lengths, s);
    Fits(lengths, lengths[s]);
  }

  // ---- The code is prefix-free ----

  /// Longer codes start beyond every extension of the shorter ones.
  lemma {:induction false} FirstCodeGrows(lengths: seq<nat>, l: nat, c: nat, d: nat, m: nat)
    requires c == FirstCode(lengths, l) + NumCodes(lengths, l) && d >= 1 && m == l + d
    ensures FirstCode(lengths, m) >= Shl(c, d)
  {
    if d == 1 {
      assert Shl(c, 0) == c;
    } else {
      FirstCodeGrows(lengths, l, c, d - 1, m - 1);
    }
  }

  /// The first `l` bits of a longer code are past the last code of length `l`.
  lemma LongerCodeLeaves(lengths: seq<nat>, t: nat, v: nat, l: nat, c: nat, d: nat)
    requires Used(lengths, t) && lengths[t] == l + d && d >= 1 && v == CodeOf(lengths, t)
    requires c == FirstCode(lengths, l) + NumCodes(lengths, l)
    ensures Shr(v, d) >= c
  {
    FirstCodeGrows(lengths, l, c, d, l + d);
    ShrAtLeast(v, d, c);
  }

  /// A shorter code is no prefix of a longer one: the longer ones come after all codes of its length.
  lemma ShorterIsNoPrefix(lengths: seq<nat>, s: nat, t: nat, l: nat)
    requires Usable(lengths) && Used(lengths, s) && Used(lengths, t) && l == lengths[s] < lengths[t]
    ensures l <= |CodeBits(lengths, t)| && CodeBits(lengths, s) != CodeBits(lengths, t)[..l]
  {
    var c, d := CodeOf(lengths, s), CodeOf(lengths, t);
    CodeFits(lengths, s);
    CodeFits(lengths, t);
    RankBound(lengths, s);
    MsbValueOfBits(c, l);
    MsbPrefix(d, lengths[t], l);
    LongerCodeLeaves(lengths, t, d, l, FirstCode(lengths, l) + NumCodes(lengths, l), lengths[t] - l);
    PrefixValue(d, lengths[t], l);
  }

  lemma OneIsPrefix(lengths: seq<nat>, s: nat, t: nat)
    requires Usable(lengths) && Used(lengths, s) && Used(lengths, t)
    requires CodeBits(lengths, s) <= CodeBits(lengths, t)
    ensures s == t
  {
    var l := lengths[s];
    CodeFits(lengths, s);
    CodeFits(lengths, t);
    assert CodeBits(lengths, s) == CodeBits(lengths, t)[..l];
    if l < lengths[t] {
      ShorterIsNoPrefix(lengths, s, t, l);
    } else {
      MsbPrefix(CodeOf(lengths, t), lengths[t], l);
      MsbValueOfBits(CodeOf(lengths, s), l);
      MsbValueOfBits(CodeOf(lengths, t), l);
      if s < t {
        RankOrder(lengths, s, t);
      } else if t < s {
        RankOrder(lengths, t, s);
      }
    }
  }

  lemma CanonicalPrefixFree(lengths: seq<nat>)
    requires Usable(lengths)
    ensures PrefixFree(Canonical(lengths))
  {
    forall s, t | s in Canonical(lengths) && t in Canonical(lengths) && Canonical(lengths)[s] <= Canonical(lengths)[t]
      ensures s == t
    {
      OneIsPrefix(lengths, s, t);
    }
  }

  lemma PrefixValue(v: nat, n: nat, k: nat)
    requires k <= n && v < Pow2(n)
    ensures MsbValue(MsbBits(v, n)[..k]) == Shr(v, n - k)
  {
    MsbPrefix(v, n, k);
    ShlShl(1, k, n - k);
    ShrAtLeast(v, n - k, Pow2(k));
    MsbValueOfBits(Shr(v, n - k), k);
  }

  // ---- The decoding table ----

  /// Where the symbols of length `l` start in the table.
  function Offset(lengths: seq<nat>, l: nat): nat {
    if l == 0 then 0 else Offset(lengths, l - 1) + NumCodes(lengths, l - 1)
  }

  function Slot(lengths: seq<nat>, s: nat): nat
    requires s < |lengths|
  {
    Offset(lengths, lengths[s]) + Rank(lengths, s)
  }

  datatype Table = Table(counts: seq<nat>, symbols: seq<nat>)

  /// `t` is the table of `lengths`: counts by length, symbols sorted by length and then by value.
  ghost predicate TableOf(t: Table, lengths: seq<nat>) {
    && Usable(lengths)
    && |t.counts| == MAX_BITS + 1
    && (forall l | 0 <= l <= MAX_BITS :: t.counts[l] == NumCodes(lengths, l))
    && Placed(lengths, |lengths|, t.symbols)
  }

  /// Every one of the first `n` symbols that has a code is in its slot.
  ghost predicate Placed(lengths: seq<nat>, n: nat, symbols: seq<nat>)
    requires n <= |lengths|
  {
    |symbols| == |lengths|
    && forall s | 0 <= s < n && lengths[s] != 0 ::
         Slot(lengths, s) < |lengths| && symbols[Slot(lengths, s)] == s
  }

  lemma {:induction false} OffsetMonotone(lengths: seq<nat>, l: nat, m: nat)
    requires l < m
    ensures Offset(lengths, l) + NumCodes(lengths, l) <= Offset(lengths, m)
  {
    if l + 1 < m {
      OffsetMonotone(lengths, l, m - 1);
    }
  }

  lemma {:induction false} OffsetBound(lengths: seq<nat>, l: nat)
    ensures Offset(lengths, l) <= |lengths|
  {
    if lengths == [] {
      OffsetOfNone(l);
    } else {
      OffsetBound(lengths[..|lengths| - 1], l);
      OffsetSnoc(lengths, l);
    }
  }

  lemma {:induction false} OffsetOfNone(l: nat)
    ensures Offset([], l) == 0
  {
    if l > 0 {
      OffsetOfNone(l - 1);
    }
  }

  lemma {:induction false} OffsetSnoc(lengths: seq<nat>, l: nat)
    requires lengths != []
    ensures Offset(lengths, l)
         == Offset(lengths[..|lengths| - 1], l) + if 1 <= lengths[|lengths| - 1] < l then 1 else 0
  {
    if l > 0 {
      OffsetSnoc(lengths, l - 1);
    }
  }

  lemma SlotBound(lengths: seq<nat>, s: nat)
    requires Used(lengths, s)
    ensures Slot(lengths, s) < |lengths|
  {
    RankBound(lengths, s);
    OffsetBound(lengths, lengths[s] + 1);
  }

  lemma SlotInjective(lengths: seq<nat>, s: nat, t: nat)
    requires Used(lengths, s) && Used(lengths, t) && s != t
    ensures Slot(lengths, s) != Slot(lengths, t)
  {
    RankBound(lengths, s);
    RankBound(lengths, t);
    if lengths[s] < lengths[t] {
      OffsetMonotone(lengths, lengths[s], lengths[t]);
    } else if lengths[t] < lengths[s] {
      OffsetMonotone(lengths, lengths[t], lengths[s]);
    } else if s < t {
      RankOrder(lengths, s, t);
    } else {
      RankOrder(lengths, t, s);
    }
  }

  // ---- Building it ----

  /// The histogram of the first `n` lengths.
  ghost predicate Histogram(lengths: seq<nat>, n: nat, counts: seq<nat>)
    requires n <= |lengths|
  {
    |counts| == MAX_BITS + 1 && forall l | 0 <= l <= MAX_BITS :: counts[l] == Count(lengths[..n], l)
  }

  /// Where the next symbol of each length goes once the first `n` symbols are placed.
  ghost predicate Cursors(lengths: seq<nat>, n: nat, offsets: seq<nat>)
    requires n <= |lengths|
  {
    |offsets| == MAX_BITS + 1
    && forall l | 1 <= l <= MAX_BITS :: offsets[l] == Offset(lengths, l) + Count(lengths[..n], l)
  }

  lemma HistogramStep(lengths: seq<nat>, n: nat, counts: seq<nat>)
    requires n < |lengths| && lengths[n] <= MAX_BITS && Histogram(lengths, n, counts)
    ensures Histogram(lengths, n + 1, counts[lengths[n] := counts[lengths[n]] + 1])
  {
    var after := counts[lengths[n] := counts[lengths[n]] + 1];
    forall l | 0 <= l <= MAX_BITS
      ensures after[l] == Count(lengths[..n + 1], l)
    {
      CountSnoc(lengths, n, l);
    }
  }

  lemma CursorsSkip(lengths: seq<nat>, n: nat, offsets: seq<nat>)
    requires n < |lengths| && lengths[n] == 0 && Cursors(lengths, n, offsets)
    ensures Cursors(lengths, n + 1, offsets)
  {
    forall l | 1 <= l <= MAX_BITS
      ensures offsets[l] == Offset(lengths, l) + Count(lengths[..n + 1], l)
    {
      CountSnoc(lengths, n, l);
    }
  }

  lemma CursorsStep(lengths: seq<nat>, n: nat, offsets: seq<nat>)
    requires n < |lengths| && 1 <= lengths[n] <= MAX_BITS && Cursors(lengths, n, offsets)
    ensures Cursors(lengths, n + 1, offsets[lengths[n] := offsets[lengths[n]] + 1])
  {
    var after := offsets[lengths[n] := offsets[lengths[n]] + 1];
    forall l | 1 <= l <= MAX_BITS
      ensures after[l] == Offset(lengths, l) + Count(lengths[..n + 1], l)
    {
      CountSnoc(lengths, n, l);
    }
  }

  lemma PlacedStep(lengths: seq<nat>, n: nat, symbols: seq<nat>)
    requires n < |lengths| && lengths[n] != 0 && Placed(lengths, n, symbols)
    ensures Slot(lengths, n) < |lengths|
    ensures Placed(lengths, n + 1, symbols[Slot(lengths, n) := n])
  {
    SlotBound(lengths, n);
    forall s | 0 <= s < n + 1 && lengths[s] != 0
      ensures Slot(lengths, s) < |lengths| && symbols[Slot(lengths, n) := n][Slot(lengths, s)] == s
    {
      if s < n {
        SlotInjective(lengths, s, n);
      }
    }
  }

  datatype Built = Built(table: Table) | Rejected

  /// `Huffman::build`: accepts exactly the usable length vectors.
  method Build(lengths: seq<nat>) returns (r: Built)
    ensures r.Built? <==> Usable(lengths)
    ensures r.Built? ==> TableOf(r.table, lengths)
  {
    var counts := new nat[MAX_BITS + 1](_ => 0);
    for i := 0 to |lengths|
      invariant forall j | 0 <= j < i :: lengths[j] <= MAX_BITS
      invariant Histogram(lengths, i, counts[..])
    {
      if lengths[i] > MAX_BITS {
        return Rejected;
      }
      HistogramStep(lengths, i, counts[..]);
      counts[lengths[i]] := counts[lengths[i]] + 1;
    }
    assert lengths[..|lengths|] == lengths;
    counts[0] := 0;
    var ok := Subscribed(lengths, counts);
    if !ok {
      return Rejected;
    }
    var symbols := SortSymbols(lengths, counts);
    r := Built(Table(counts[..], symbols));
  }

  /// The over-subscription check: true exactly when Kraft's inequality holds.
  method Subscribed(lengths: seq<nat>, counts: array<nat>) returns (ok: bool)
    requires counts.Length == MAX_BITS + 1
    requires forall l | 0 <= l <= MAX_BITS :: counts[l] == NumCodes(lengths, l)
    ensures ok <==> Weight(lengths, MAX_BITS) <= Pow2(MAX_BITS)
  {
    var left: int := 1;
    for bits := 1 to MAX_BITS + 1
      invariant left == Pow2(bits - 1) - (FirstCode(lengths, bits - 1) + NumCodes(lengths, bits - 1))
      invariant left >= 0
    {
      left := 2 * left;
      left := left - counts[bits];
      if left < 0 {
        if Weight(lengths, MAX_BITS) <= Pow2(MAX_BITS) {
          Fits(lengths, bits);
        }
        return false;
      }
    }
    CodesUsed(lengths, MAX_BITS);
    return true;
  }

  /// The counting sort that ends `build`; the offsets move on as symbols are placed.
  method SortSymbols(lengths: seq<nat>, counts: array<nat>) returns (table: seq<nat>)
    requires forall i | 0 <= i < |lengths| :: lengths[i] <= MAX_BITS
    requires counts.Length == MAX_BITS + 1
    requires forall l | 0 <= l <= MAX_BITS :: counts[l] == NumCodes(lengths, l)
    ensures Placed(lengths, |lengths|, table)
  {
    var offsets := FirstOffsets(lengths, counts);
    var symbols := new nat[|lengths|](_ => 0);
    for i := 0 to |lengths|
      invariant Cursors(lengths, i, offsets[..])
      invariant Placed(lengths, i, symbols[..])
    {
      if lengths[i] != 0 {
        CursorsStep(lengths, i, offsets[..]);
        PlacedStep(lengths, i, symbols[..]);
        assert offsets[..][lengths[i]] == Slot(lengths, i);
        symbols[offsets[lengths[i]]] := i;
        offsets[lengths[i]] := offsets[lengths[i]] + 1;
      } else {
        CursorsSkip(lengths, i, offsets[..]);
      }
    }
    table := symbols[..];
  }

  method FirstOffsets(lengths: seq<nat>, counts: array<nat>) returns (offsets: array<nat>)
    requires counts.Length == MAX_BITS + 1
    requires forall l | 0 <= l <= MAX_BITS :: counts[l] == NumCodes(lengths, l)
    ensures fresh(offsets) && Cursors(lengths, 0, offsets[..])
  {
    offsets := new nat[MAX_BITS + 1](_ => 0);
    for bits := 1 to MAX_BITS
      invariant forall l | 1 <= l <= bits :: offsets[l] == Offset(lengths, l)
    {
      offsets[bits + 1] := offsets[bits] + counts[bits];
    }
  }
}
