/// Unsigned machine words as natural numbers: the bitwise operators, and what each does to bit `i`.
module Words {
  import opened Bits

  /// `a & b`.
  function And(a: nat, b: nat): nat {
    if a == 0 then 0 else 2 * And(a / 2, b / 2) + if a % 2 == 1 && b % 2 == 1 then 1 else 0
  }

  /// `a | b`.
  function Or(a: nat, b: nat): nat
    decreases a + b
  {
    if a == 0 && b == 0 then 0 else 2 * Or(a / 2, b / 2) + if a % 2 == 1 || b % 2 == 1 then 1 else 0
  }

  /// `~a` in a word of `n` bits.
  function Not(a: nat, n: nat): nat {
    if n == 0 then 0 else 2 * Not(a / 2, n - 1) + (1 - a % 2)
  }

  /// The low `n` bits of `a`: a conversion to a word of that width.
  function Low(a: nat, n: nat): nat {
    if n == 0 then 0 else 2 * Low(a / 2, n - 1) + a % 2
  }

  /// `a << n` in a 64-bit word.
  function Shl64(a: nat, n: nat): nat {
    Low(Shl(a, n), 64)
  }

  /// `bit_mask`: the low `n` bits set, with the full width spelled out.
  function BitMask(n: nat): nat {
    if n >= 64 then Not(0, 64)
    else
      OneShifted(n);
      Shl64(1, n) - 1
  }

  lemma OneShifted(n: nat)
    requires n < 64
    ensures Shl64(1, n) == Pow2(n) >= 1
  {
    Pow2Grows(n, 64);
    LowOfSmall(Pow2(n), 64);
  }

  // ---- The operators, bit by bit ----

  lemma BitOfHalf(a: nat, i: nat)
    requires i > 0
    ensures BitAt(a, i) == BitAt(a / 2, i - 1)
  {
  }

  lemma BitOfZero(i: nat)
    ensures BitAt(0, i) == 0
  {
    ShrOfZero(i);
  }

  lemma {:induction false} ShrOfZero(n: nat)
    ensures Shr(0, n) == 0
  {
    if n != 0 {
      ShrOfZero(n - 1);
    }
  }

  lemma AndHalf(a: nat, b: nat, r: nat)
    requires a > 0 && r == And(a, b)
    ensures r / 2 == And(a / 2, b / 2) && r % 2 == if a % 2 == 1 && b % 2 == 1 then 1 else 0
  {
    var h := And(a / 2, b / 2);
    assert r == 2 * h + if a % 2 == 1 && b % 2 == 1 then 1 else 0;
  }

  lemma {:induction false} AndBit(a: nat, b: nat, i: nat)
    ensures BitAt(And(a, b), i) == if BitAt(a, i) == 1 && BitAt(b, i) == 1 then 1 else 0
  {
    var r := And(a, b);
    if a == 0 {
      BitOfZero(i);
    } else {
      AndHalf(a, b, r);
      if i > 0 {
        AndBit(a / 2, b / 2, i - 1);
        BitOfHalf(a, i);
        BitOfHalf(b, i);
        BitOfHalf(r, i);
      }
    }
  }

  lemma OrHalf(a: nat, b: nat)
    ensures Or(a, b) / 2 == Or(a / 2, b / 2)
    ensures Or(a, b) % 2 == if a % 2 == 1 || b % 2 == 1 then 1 else 0
  {
    var r := Or(a / 2, b / 2);
    if a == 0 && b == 0 {
      assert Or(a, b) == 0;
    }
  }

  lemma {:induction false} OrBit(a: nat, b: nat, i: nat)
    ensures BitAt(Or(a, b), i) == if BitAt(a, i) == 1 || BitAt(b, i) == 1 then 1 else 0
    decreases i
  {
    OrHalf(a, b);
    if i > 0 {
      OrBit(a / 2, b / 2, i - 1);
      BitOfHalf(a, i);
      BitOfHalf(b, i);
      BitOfHalf(Or(a, b), i);
    }
  }

  lemma NotHalf(a: nat, n: nat, r: nat)
    requires n > 0 && r == Not(a, n)
    ensures r / 2 == Not(a / 2, n - 1) && r % 2 == 1 - a % 2
  {
    var h := Not(a / 2, n - 1);
    assert r == 2 * h + (1 - a % 2);
  }

  lemma {:induction false} NotBit(a: nat, n: nat, i: nat)
    ensures BitAt(Not(a, n), i) == if i < n && BitAt(a, i) == 0 then 1 else 0
    decreases n
  {
    var r := Not(a, n);
    if n == 0 {
      BitOfZero(i);
    } else {
      NotHalf(a, n, r);
      if i > 0 {
        NotBit(a / 2, n - 1, i - 1);
        BitOfHalf(a, i);
        BitOfHalf(r, i);
      }
    }
  }

  lemma LowHalf(a: nat, n: nat, r: nat)
    requires n > 0 && r == Low(a, n)
    ensures r / 2 == Low(a / 2, n - 1) && r % 2 == a % 2
  {
    var h := Low(a / 2, n - 1);
    assert r == 2 * h + a % 2;
  }

  lemma {:induction false} LowBit(a: nat, n: nat, i: nat)
    ensures BitAt(Low(a, n), i) == if i < n then BitAt(a, i) else 0
    decreases n
  {
    var r := Low(a, n);
    if n == 0 {
      BitOfZero(i);
    } else {
      LowHalf(a, n, r);
      if i > 0 {
        LowBit(a / 2, n - 1, i - 1);
        BitOfHalf(a, i);
        BitOfHalf(r, i);
      }
    }
  }

  lemma {:induction false} ShlBit(a: nat, n: nat, i: nat)
    ensures BitAt(Shl(a, n), i) == if i < n then 0 else BitAt(a, i - n)
  {
    var r := Shl(a, n);
    if n != 0 && i > 0 {
      ShlBit(a, n - 1, i - 1);
      assert r == 2 * Shl(a, n - 1);
      BitOfHalf(r, i);
    }
  }

  lemma Shl64Bit(a: nat, n: nat, i: nat)
    ensures BitAt(Shl64(a, n), i) == if n <= i < 64 then BitAt(a, i - n) else 0
  {
    LowBit(Shl(a, n), 64, i);
    ShlBit(a, n, i);
  }

  lemma {:induction false} ShrBit(a: nat, n: nat, i: nat)
    ensures BitAt(Shr(a, n), i) == BitAt(a, i + n)
  {
    if n != 0 {
      ShrBit(a / 2, n - 1, i);
      BitOfHalf(a, i + n);
    }
  }

  lemma {:induction false} OnesBit(n: nat, i: nat)
    ensures Pow2(n) >= 1 && BitAt(Pow2(n) - 1, i) == if i < n then 1 else 0
  {
    if n == 0 {
      BitOfZero(i);
    } else {
      OnesBit(n - 1, if i > 0 then i - 1 else 0);
      assert (Pow2(n) - 1) / 2 == Pow2(n - 1) - 1;
      if i > 0 {
        BitOfHalf(Pow2(n) - 1, i);
      }
    }
  }

  lemma {:induction false} LowOfSmall(a: nat, n: nat)
    requires a < Pow2(n)
    ensures Low(a, n) == a
  {
    if n != 0 {
      LowOfSmall(a / 2, n - 1);
    }
  }

  lemma MaskBit(n: nat, i: nat)
    requires n <= 64
    ensures BitAt(BitMask(n), i) == if i < n then 1 else 0
  {
    if n == 64 {
      NotBit(0, 64, i);
      BitOfZero(i);
    } else {
      OneShifted(n);
      OnesBit(n, i);
    }
  }

  lemma {:induction false} Pow2Grows(m: nat, n: nat)
    requires m < n
    ensures Pow2(m) < Pow2(n)
  {
    if m + 1 < n {
      Pow2Grows(m, n - 1);
    }
  }

  /// A bit past the width of `a` is clear.
  lemma {:induction false} BitBeyond(a: nat, n: nat, i: nat)
    requires a < Pow2(n) && i >= n
    ensures BitAt(a, i) == 0
  {
    if n == 0 {
      BitOfZero(i);
    } else {
      BitBeyond(a / 2, n - 1, i - 1);
      BitOfHalf(a, i);
    }
  }

  lemma ByteBit(b: Byte, i: nat)
    requires i >= 8
    ensures BitAt(b, i) == 0
  {
    assert Pow2(8) == 256;
    BitBeyond(b, 8, i);
  }

  /// Numbers with the same bits are the same number.
  lemma {:induction false} SameBits(a: nat, b: nat)
    requires forall i: nat :: BitAt(a, i) == BitAt(b, i)
    ensures a == b
    decreases a + b
  {
    assert BitAt(a, 0) == BitAt(b, 0);
    if a + b > 0 {
      forall i: nat
        ensures BitAt(a / 2, i) == BitAt(b / 2, i)
      {
        BitOfHalf(a, i + 1);
        BitOfHalf(b, i + 1);
      }
      SameBits(a / 2, b / 2);
    }
  }

  /// The number whose first bits are `s` and whose other bits are clear.
  lemma {:induction false} LsbValueBit(s: seq<Bit>, i: nat)
    ensures BitAt(LsbValue(s), i) == if i < |s| then s[i] else 0
  {
    if s == [] {
      BitOfZero(i);
    } else {
      assert LsbValue(s) / 2 == LsbValue(s[1..]);
      if i > 0 {
        LsbValueBit(s[1..], i - 1);
        BitOfHalf(LsbValue(s), i);
      }
    }
  }

  lemma {:induction false} LowBound(a: nat, n: nat)
    ensures Low(a, n) < Pow2(n)
  {
    if n != 0 {
      LowBound(a / 2, n - 1);
    }
  }

  /// `static_cast<std::uint8_t>(a)`.
  function ToByte(a: nat): Byte {
    LowBound(a, 8);
    assert Pow2(8) == 256;
    Low(a, 8)
  }

  lemma ToByteBit(a: nat, i: nat)
    ensures BitAt(ToByte(a), i) == if i < 8 then BitAt(a, i) else 0
  {
    LowBit(a, 8, i);
  }
}
