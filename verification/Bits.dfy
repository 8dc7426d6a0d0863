/// Numbers as bit strings: powers of two, the bits of a natural number, and the two orders in
/// which a DEFLATE stream and a CAN frame pack numbers into bits.
module Bits {
  newtype Bit = b: int | 0 <= b < 2
  type Byte = b: int | 0 <= b < 256

  // ---- Shifts, by doubling and halving ----

  /// `a << n`, unbounded.
  function Shl(a: nat, n: nat): (r: nat)
    ensures r >= a
  {
    if n == 0 then a else 2 * Shl(a, n - 1)
  }

  /// `v >> n`.
  function Shr(v: nat, n: nat): (r: nat)
    ensures r <= v
  {
    if n == 0 then v else Shr(v / 2, n - 1)
  }

  function Pow2(n: nat): nat {
    Shl(1, n)
  }

  lemma SixteenBits()
    ensures Pow2(8) == 256 && Pow2(16) == 65536
  {
    assert Pow2(4) == 16;
    assert Pow2(12) == 4096;
  }

  lemma {:induction false} ShlDouble(a: nat, n: nat)
    ensures Shl(2 * a, n) == Shl(a, n + 1)
  {
    if n != 0 {
      ShlDouble(a, n - 1);
    }
  }

  lemma {:induction false} ShlPlus(a: nat, b: nat, n: nat)
    ensures Shl(a + b, n) == Shl(a, n) + Shl(b, n)
  {
    if n != 0 {
      ShlPlus(a, b, n - 1);
    }
  }

  lemma {:induction false} ShlOrder(a: nat, b: nat, n: nat)
    ensures a < b <==> Shl(a, n) < Shl(b, n)
  {
    if n != 0 {
      ShlOrder(a, b, n - 1);
    }
  }

  lemma {:induction false} ShlShl(a: nat, m: nat, n: nat)
    ensures Shl(Shl(a, m), n) == Shl(a, m + n)
  {
    if n != 0 {
      ShlShl(a, m, n - 1);
    }
  }

  lemma {:induction false} ShrHalf(v: nat, n: nat)
    ensures Shr(v, n + 1) == Shr(v, n) / 2
  {
    if n != 0 {
      ShrHalf(v / 2, n - 1);
    }
  }

  /// Shifting right is division: the quotient reaches `a` exactly when `v` reaches `a << n`.
  lemma {:induction false} ShrAtLeast(v: nat, n: nat, a: nat)
    ensures Shr(v, n) >= a <==> v >= Shl(a, n)
  {
    if n != 0 {
      ShrAtLeast(v / 2, n - 1, a);
    }
  }

  /// Bit `j` of `v`, the least significant being bit 0.
  function BitAt(v: nat, j: nat): Bit {
    (Shr(v, j) % 2) as Bit
  }

  // ---- Least significant bit first: how DEFLATE packs every number but a Huffman code ----

  function LsbValue(s: seq<Bit>): (v: nat)
  {
    if s == [] then 0 else s[0] as nat + 2 * LsbValue(s[1..])
  }

  function LsbBits(v: nat, n: nat): (s: seq<Bit>)
    ensures |s| == n
  {
    if n == 0 then [] else [(v % 2) as Bit] + LsbBits(v / 2, n - 1)
  }

  lemma {:induction false} LsbValueBound(s: seq<Bit>)
    ensures LsbValue(s) < Pow2(|s|)
  {
    if s != [] {
      LsbValueBound(s[1..]);
    }
  }

  lemma {:induction false} LsbBitsOfValue(s: seq<Bit>)
    ensures LsbBits(LsbValue(s), |s|) == s
  {
    if s != [] {
      LsbBitsOfValue(s[1..]);
    }
  }

  lemma {:induction false} LsbValueOfBits(v: nat, n: nat)
    requires v < Pow2(n)
    ensures LsbValue(LsbBits(v, n)) == v
  {
    if n != 0 {
      LsbValueOfBits(v / 2, n - 1);
      assert LsbBits(v, n)[1..] == LsbBits(v / 2, n - 1);
    }
  }

  lemma {:induction false} LsbValueSnoc(s: seq<Bit>, b: Bit)
    ensures LsbValue(s + [b]) == LsbValue(s) + Shl(b as nat, |s|)
  {
    if s == [] {
      assert [b][1..] == [];
    } else {
      LsbValueSnoc(s[1..], b);
      assert (s + [b])[1..] == s[1..] + [b];
    }
  }

  lemma {:induction false} LsbBitsIndex(v: nat, n: nat, i: nat)
    requires i < n
    ensures LsbBits(v, n)[i] == BitAt(v, i)
  {
    if i > 0 {
      LsbBitsIndex(v / 2, n - 1, i - 1);
    }
  }

  // ---- Most significant bit first: how DEFLATE packs a Huffman code and CAN an identifier ----

  function MsbValue(s: seq<Bit>): (v: nat)
  {
    if s == [] then 0 else 2 * MsbValue(s[..|s| - 1]) + s[|s| - 1] as nat
  }

  function MsbBits(v: nat, n: nat): (s: seq<Bit>)
    ensures |s| == n
  {
    if n == 0 then [] else MsbBits(v / 2, n - 1) + [(v % 2) as Bit]
  }

  lemma {:induction false} MsbValueBound(s: seq<Bit>)
    ensures MsbValue(s) < Pow2(|s|)
  {
    if s != [] {
      MsbValueBound(s[..|s| - 1]);
    }
  }

  lemma {:induction false} MsbBitsOfValue(s: seq<Bit>)
    ensures MsbBits(MsbValue(s), |s|) == s
  {
    if s != [] {
      MsbBitsOfValue(s[..|s| - 1]);
    }
  }

  lemma {:induction false} MsbValueOfBits(v: nat, n: nat)
    requires v < Pow2(n)
    ensures MsbValue(MsbBits(v, n)) == v
  {
    if n != 0 {
      MsbValueOfBits(v / 2, n - 1);
      assert MsbBits(v, n)[..n - 1] == MsbBits(v / 2, n - 1);
    }
  }

  /// The first `k` bits of an `n`-bit number are the number shifted right by `n - k`.
  lemma {:induction false} MsbPrefix(v: nat, n: nat, k: nat)
    requires k <= n
    ensures MsbBits(v, n)[..k] == MsbBits(Shr(v, n - k), k)
  {
    if k == n {
      assert MsbBits(v, n)[..k] == MsbBits(v, n);
    } else {
      MsbPrefix(v / 2, n - 1, k);
      assert MsbBits(v, n)[..k] == MsbBits(v / 2, n - 1)[..k];
    }
  }

  /// The bits `e` come next at position `p`.
  ghost predicate Follows(bits: seq<Bit>, p: nat, e: seq<Bit>) {
    p + |e| <= |bits| && bits[p..p + |e|] == e
  }

  // ---- Bytes as bits: a DEFLATE stream reads each byte from its least significant bit ----

  function BitsOf(data: seq<Byte>): (s: seq<Bit>)
    ensures |s| == 8 * |data|
  {
    seq(8 * |data|, (i: int) requires 0 <= i < 8 * |data| => BitAt(data[i / 8], i % 8))
  }

  lemma ByteOfBits(data: seq<Byte>, k: nat)
    requires k < |data|
    ensures BitsOf(data)[8 * k..8 * k + 8] == LsbBits(data[k], 8)
    ensures LsbValue(BitsOf(data)[8 * k..8 * k + 8]) == data[k]
  {
    var s := BitsOf(data)[8 * k..8 * k + 8];
    forall i | 0 <= i < 8
      ensures s[i] == LsbBits(data[k], 8)[i]
    {
      assert (8 * k + i) / 8 == k && (8 * k + i) % 8 == i;
      LsbBitsIndex(data[k], 8, i);
    }
    assert s == LsbBits(data[k], 8);
    assert Pow2(8) == 256;
    LsbValueOfBits(data[k], 8);
  }
}
