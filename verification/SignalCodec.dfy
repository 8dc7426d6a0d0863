/// The coders of core/src/Signal.cpp on a byte buffer: the word-at-a-time ones, which span up to nine
/// bytes, and the bit-at-a-time ones that define what they mean, all proved to do what `Signal` says.
module SignalCodec {
  import opened Bits
  import opened Words
  import opened Signal

  // ---- Words in memory ----

  /// Bit `i` of a little-endian word at byte `p`, that is at canonical Intel position `at`.
  lemma LittleBit(s: seq<Byte>, p: nat, m: nat, j: nat, q: nat)
    requires p + m < |s| && j < 8 && q == 8 * p + 8 * m + j
    ensures PayloadBit(s, Intel, q) == BitAt(s[p + m], j)
  {
    BitOfByte(s, Intel, q, p + m, j);
  }

  /// `acc` is the little-endian word of the `n` bytes from `p`.
  ghost predicate LoadedLe(s: seq<Byte>, p: nat, n: nat, acc: nat)
    requires p + n <= |s|
  {
    forall i: nat :: BitAt(acc, i) == if i < 8 * n then PayloadBit(s, Intel, 8 * p + i) else 0
  }

  lemma LoadLeStep(s: seq<Byte>, p: nat, m: nat, acc: nat, more: nat, next: nat)
    requires p + m < |s| && m < 8 && LoadedLe(s, p, m, acc)
    requires more == Shl64(s[p + m], 8 * m) && next == Or(acc, more)
    ensures LoadedLe(s, p, m + 1, next)
  {
    forall i: nat
      ensures BitAt(next, i) == if i < 8 * (m + 1) then PayloadBit(s, Intel, 8 * p + i) else 0
    {
      OrBit(acc, more, i);
      Shl64Bit(s[p + m], 8 * m, i);
      if 8 * m <= i {
        if i < 8 * m + 8 {
          LittleBit(s, p, m, i - 8 * m, 8 * p + i);
        } else {
          ByteBit(s[p + m], i - 8 * m);
        }
      }
    }
  }

  method LoadLe(data: array<Byte>, p: nat, n: nat) returns (acc: nat)
    requires p + n <= data.Length && n <= 8
    ensures LoadedLe(data[..], p, n, acc)
  {
    acc := 0;
    forall i: nat
      ensures BitAt(acc, i) == 0
    {
      BitOfZero(i);
    }
    for i := 0 to n
      invariant LoadedLe(data[..], p, i, acc)
    {
      var more := Shl64(data[p + i], 8 * i);
      LoadLeStep(data[..], p, i, acc, more, Or(acc, more));
      acc := Or(acc, more);
    }
  }

  /// `acc` is the big-endian word of the `n` bytes from `p`.
  ghost predicate LoadedBe(s: seq<Byte>, p: nat, n: nat, acc: nat)
    requires p + n <= |s|
  {
    forall i: nat :: BitAt(acc, i) == if i < 8 * n then PayloadBit(s, Motorola, 8 * (p + n) - 1 - i) else 0
  }

  lemma LoadBeStep(s: seq<Byte>, p: nat, m: nat, acc: nat, shifted: nat, next: nat)
    requires p + m < |s| && m < 8 && LoadedBe(s, p, m, acc)
    requires shifted == Shl64(acc, 8) && next == Or(shifted, s[p + m])
    ensures LoadedBe(s, p, m + 1, next)
  {
    var top := 8 * (p + m) - 1;
    forall i: nat
      ensures BitAt(next, i) == if i < 8 * (m + 1) then PayloadBit(s, Motorola, 8 * (p + (m + 1)) - 1 - i) else 0
    {
      OrBit(shifted, s[p + m], i);
      Shl64Bit(acc, 8, i);
      if i < 8 {
        BitOfByte(s, Motorola, 8 * (p + (m + 1)) - 1 - i, p + m, i);
      } else {
        ByteBit(s[p + m], i);
        assert BitAt(acc, i - 8) == if i - 8 < 8 * m then PayloadBit(s, Motorola, top - (i - 8)) else 0;
      }
    }
  }

  method LoadBe(data: array<Byte>, p: nat, n: nat) returns (acc: nat)
    requires p + n <= data.Length && n <= 8
    ensures LoadedBe(data[..], p, n, acc)
  {
    acc := 0;
    forall i: nat
      ensures BitAt(acc, i) == 0
    {
      BitOfZero(i);
    }
    for i := 0 to n
      invariant LoadedBe(data[..], p, i, acc)
    {
      var shifted := Shl64(acc, 8);
      LoadBeStep(data[..], p, i, acc, shifted, Or(shifted, data[p + i]));
      acc := Or(shifted, data[p + i]);
    }
  }

  /// `after` is `before` with the low `n` bytes of `v` stored little-endian from byte `p`.
  ghost predicate StoredLe(before: seq<Byte>, after: seq<Byte>, p: nat, n: nat, v: nat) {
    |after| == |before|
    && forall q: nat | q < 8 * |before| ::
         PayloadBit(after, Intel, q)
         == if 8 * p <= q < 8 * (p + n) then BitAt(v, q - 8 * p) else PayloadBit(before, Intel, q)
  }

  lemma OctetMask(j: nat) returns (mask: nat)
    requires j < 8
    ensures mask == 255 && BitAt(mask, j) == 1
  {
    assert Pow2(8) == 256;
    OnesBit(8, j);
    mask := 255;
  }

  lemma OctetBit(v: nat, shift: nat, j: nat)
    requires j < 8
    ensures BitAt(ToByte(And(Shr(v, shift), 255)), j) == BitAt(v, shift + j)
  {
    var mask := OctetMask(j);
    var w := Shr(v, shift);
    ToByteBit(And(w, mask), j);
    AndBit(w, mask, j);
    ShrBit(v, shift, j);
  }

  /// One byte of the payload replaced.
  lemma BitAfterUpdate(s: seq<Byte>, order: ByteOrder, k: nat, b: Byte, q: nat)
    requires k < |s| && q < 8 * |s|
    ensures PayloadBit(s[k := b], order, q)
         == if 8 * k <= q < 8 * k + 8 then BitAt(b, if order.Intel? then q - 8 * k else 8 * k + 7 - q) else PayloadBit(s, order, q)
  {
    if 8 * k <= q < 8 * k + 8 {
      BitOfByte(s[k := b], order, q, k, if order.Intel? then q - 8 * k else 8 * k + 7 - q);
    }
  }

  lemma StoreLeStep(before: seq<Byte>, after: seq<Byte>, p: nat, m: nat, v: nat, k: nat, b: Byte, next: seq<Byte>)
    requires p + m < |before| && StoredLe(before, after, p, m, v) && k == p + m && next == after[k := b]
    requires b == ToByte(And(Shr(v, 8 * m), 255))
    ensures StoredLe(before, next, p, m + 1, v)
  {
    forall q: nat | q < 8 * |before|
      ensures PayloadBit(next, Intel, q)
           == if 8 * p <= q < 8 * (p + (m + 1)) then BitAt(v, q - 8 * p) else PayloadBit(before, Intel, q)
    {
      BitAfterUpdate(after, Intel, k, b, q);
      if 8 * k <= q < 8 * k + 8 {
        OctetBit(v, 8 * m, q - 8 * k);
      }
    }
  }

  method StoreLe(data: array<Byte>, p: nat, n: nat, v: nat)
    requires p + n <= data.Length
    modifies data
    ensures StoredLe(old(data[..]), data[..], p, n, v)
  {
    ghost var before := data[..];
    for i := 0 to n
      invariant StoredLe(before, data[..], p, i, v)
    {
      var b := ToByte(And(Shr(v, 8 * i), 255));
      ghost var was := data[..];
      StoreLeStep(before, was, p, i, v, p + i, b, was[p + i := b]);
      data[p + i] := b;
      assert data[..] == was[p + i := b];
    }
  }

  ghost predicate StoredBe(before: seq<Byte>, after: seq<Byte>, p: nat, from: nat, n: nat, v: nat) {
    |after| == |before|
    && forall q: nat | q < 8 * |before| ::
         PayloadBit(after, Motorola, q)
         == if 8 * p <= q < 8 * (p + from) && q < 8 * (p + n) then BitAt(v, 8 * (p + n) - 1 - q) else PayloadBit(before, Motorola, q)
  }

  lemma StoreBeStep(before: seq<Byte>, after: seq<Byte>, p: nat, m: nat, n: nat, v: nat, k: nat, b: Byte, next: seq<Byte>)
    requires p + n <= |before| && m < n && StoredBe(before, after, p, m, n, v) && k == p + m && next == after[k := b]
    requires b == ToByte(And(Shr(v, 8 * (n - 1 - m)), 255))
    ensures StoredBe(before, next, p, m + 1, n, v)
  {
    forall q: nat | q < 8 * |before|
      ensures PayloadBit(next, Motorola, q)
           == if 8 * p <= q < 8 * (p + (m + 1)) && q < 8 * (p + n) then BitAt(v, 8 * (p + n) - 1 - q)
              else PayloadBit(before, Motorola, q)
    {
      BitAfterUpdate(after, Motorola, k, b, q);
      if 8 * k <= q < 8 * k + 8 {
        OctetBit(v, 8 * (n - 1 - m), 8 * k + 7 - q);
      }
    }
  }

  method StoreBe(data: array<Byte>, p: nat, n: nat, v: nat)
    requires p + n <= data.Length
    modifies data
    ensures StoredBe(old(data[..]), data[..], p, n, n, v)
  {
    ghost var before := data[..];
    for i := 0 to n
      invariant StoredBe(before, data[..], p, i, n, v)
    {
      var b := ToByte(And(Shr(v, 8 * (n - 1 - i)), 255));
      ghost var was := data[..];
      StoreBeStep(before, was, p, i, n, v, p + i, b, was[p + i := b]);
      data[p + i] := b;
      assert data[..] == was[p + i := b];
    }
  }

  // ---- Decoding ----

  function SpannedBytes(off: nat, length: nat): nat {
    (off + length + 7) / 8
  }

  /// The signal starts `off` bits into byte `first` and touches `nb` bytes, nine at most.
  ghost predicate Spans(l: Layout, size: nat, first: nat, off: nat, nb: nat) {
    && l.Start() == 8 * first + off && off < 8 && nb == SpannedBytes(off, l.length) && l.Fits(size)
  }

  lemma SpansPayload(l: Layout, size: nat, first: nat, off: nat, nb: nat)
    requires Spans(l, size, first, off, nb)
    ensures 1 <= nb <= 9 && first + nb <= size && off + l.length <= 8 * nb < off + l.length + 8
  {
  }

  lemma IntelBits(s: seq<Byte>, l: Layout, first: nat, off: nat, nb: nat, acc: nat, raw: nat, ninth: nat)
    requires Spans(l, |s|, first, off, nb) && l.order.Intel? && first + nb <= |s| && nb <= 9
    requires LoadedLe(s, first, if nb <= 8 then nb else 8, acc)
    requires ninth == if nb == 9 then s[first + 8] else 0
    requires raw == if nb == 9 then Or(Shr(acc, off), Shl64(ninth, 64 - off)) else Shr(acc, off)
    ensures IsRaw(s, l, And(raw, BitMask(l.length)))
  {
    forall i: nat
      ensures BitAt(And(raw, BitMask(l.length)), i) == if i < l.length then PayloadBit(s, l.order, l.Position(i)) else 0
    {
      AndBit(raw, BitMask(l.length), i);
      MaskBit(l.length, i);
      if i < l.length {
        IntelBitAt(s, l, first, off, nb, acc, raw, ninth, i);
      }
    }
  }

  lemma IntelBitAt(s: seq<Byte>, l: Layout, first: nat, off: nat, nb: nat, acc: nat, raw: nat, ninth: nat, i: nat)
    requires Spans(l, |s|, first, off, nb) && l.order.Intel? && first + nb <= |s| && nb <= 9 && i < l.length
    requires LoadedLe(s, first, if nb <= 8 then nb else 8, acc)
    requires ninth == if nb == 9 then s[first + 8] else 0
    requires raw == if nb == 9 then Or(Shr(acc, off), Shl64(ninth, 64 - off)) else Shr(acc, off)
    ensures BitAt(raw, i) == PayloadBit(s, l.order, l.Position(i))
  {
    var j := i + off;
    ShrBit(acc, off, i);
    if nb == 9 {
      OrBit(Shr(acc, off), Shl64(ninth, 64 - off), i);
      Shl64Bit(ninth, 64 - off, i);
      if j >= 64 {
        LittleBit(s, first, 8, j - 64, 8 * first + j);
      }
    }
    assert l.Position(i) == 8 * first + j;
  }

  method ExtractIntel(data: array<Byte>, q0: nat, ghost l: Layout, length: nat) returns (r: nat)
    requires l.Fits(data.Length) && l.order.Intel? && q0 == l.Start() && length == l.length
    ensures r == Raw(data[..], l)
  {
    var first, off := q0 / 8, q0 % 8;
    var nb := SpannedBytes(off, length);
    SpansPayload(l, data.Length, first, off, nb);
    var head := if nb <= 8 then nb else 8;
    var acc := LoadLe(data, first, head);
    var raw := Shr(acc, off);
    ghost var ninth := if nb == 9 then data[first + 8] else 0;
    if nb == 9 {
      raw := Or(raw, Shl64(data[first + 8], 64 - off));
    }
    IntelBits(data[..], l, first, off, nb, acc, raw, ninth);
    r := And(raw, BitMask(length));
    OnlyRaw(data[..], l, r);
  }

  lemma MotorolaBits(s: seq<Byte>, l: Layout, raw: nat)
    requires l.Fits(|s|) && forall i: nat | i < l.length :: BitAt(raw, i) == PayloadBit(s, l.order, l.Position(i))
    ensures IsRaw(s, l, And(raw, BitMask(l.length)))
  {
    forall i: nat
      ensures BitAt(And(raw, BitMask(l.length)), i) == if i < l.length then PayloadBit(s, l.order, l.Position(i)) else 0
    {
      AndBit(raw, BitMask(l.length), i);
      MaskBit(l.length, i);
    }
  }

  lemma MotorolaNarrow(s: seq<Byte>, l: Layout, first: nat, off: nat, nb: nat, acc: nat, shift: nat, i: nat)
    requires Spans(l, |s|, first, off, nb) && l.order.Motorola? && first + nb <= |s| && nb <= 8 && i < l.length
    requires LoadedBe(s, first, nb, acc) && shift + off + l.length == 8 * nb
    ensures BitAt(Shr(acc, shift), i) == PayloadBit(s, l.order, l.Position(i))
  {
    ShrBit(acc, shift, i);
    assert l.Position(i) == 8 * (first + nb) - 1 - (i + shift);
  }

  lemma MotorolaWide(s: seq<Byte>, l: Layout, first: nat, off: nat, acc: nat, tail: nat, last: Byte, raw: nat, i: nat)
    requires Spans(l, |s|, first, off, 9) && l.order.Motorola? && first + 9 <= |s| && i < l.length
    requires LoadedBe(s, first, 8, acc) && tail + 64 == off + l.length && 1 <= tail <= 7
    requires last == s[first + 8] && raw == Or(Shl64(acc, tail), Shr(last, 8 - tail))
    ensures BitAt(raw, i) == PayloadBit(s, l.order, l.Position(i))
  {
    OrBit(Shl64(acc, tail), Shr(last, 8 - tail), i);
    Shl64Bit(acc, tail, i);
    ShrBit(last, 8 - tail, i);
    if i < tail {
      BitOfByte(s, Motorola, 8 * (first + 8) + tail - 1 - i, first + 8, i + 8 - tail);
      assert l.Position(i) == 8 * (first + 8) + tail - 1 - i;
    } else {
      ByteBit(last, i + 8 - tail);
      assert l.Position(i) == 8 * (first + 8) - 1 - (i - tail);
    }
  }

  method ExtractMotorola(data: array<Byte>, q0: nat, ghost l: Layout, length: nat) returns (r: nat)
    requires l.Fits(data.Length) && l.order.Motorola? && q0 == l.Start() && length == l.length
    ensures r == Raw(data[..], l)
  {
    var first, off := q0 / 8, q0 % 8;
    var nb := SpannedBytes(off, length);
    SpansPayload(l, data.Length, first, off, nb);
    var raw;
    if nb <= 8 {
      var acc := LoadBe(data, first, nb);
      var shift := nb * 8 - off - length;
      raw := Shr(acc, shift);
      forall i: nat | i < length
        ensures BitAt(raw, i) == PayloadBit(data[..], l.order, l.Position(i))
      {
        MotorolaNarrow(data[..], l, first, off, nb, acc, shift, i);
      }
    } else {
      var tail := off + length - 64;
      var acc := LoadBe(data, first, 8);
      var last := data[first + 8];
      raw := Or(Shl64(acc, tail), Shr(last, 8 - tail));
      forall i: nat | i < length
        ensures BitAt(raw, i) == PayloadBit(data[..], l.order, l.Position(i))
      {
        MotorolaWide(data[..], l, first, off, acc, tail, last, raw, i);
      }
    }
    MotorolaBits(data[..], l, raw);
    r := And(raw, BitMask(length));
    OnlyRaw(data[..], l, r);
  }

  /// `decode_raw`.
  method DecodeRaw(l: Layout, data: array<Byte>) returns (r: nat)
    requires l.Fits(data.Length)
    ensures r == Raw(data[..], l)
  {
    if l.order.Intel? {
      r := ExtractIntel(data, l.Start(), l, l.length);
    } else {
      r := ExtractMotorola(data, l.Start(), l, l.length);
    }
  }

  // ---- Encoding ----

  /// `(acc & ~window) | ((v << shift) & window)`, bit by bit.
  lemma MergedBit(acc: nat, window: nat, moved: nat, merged: nat, i: nat)
    requires i < 64 && merged == Or(And(acc, Not(window, 64)), And(moved, window))
    ensures BitAt(merged, i) == if BitAt(window, i) == 1 then BitAt(moved, i) else BitAt(acc, i)
  {
    OrBit(And(acc, Not(window, 64)), And(moved, window), i);
    AndBit(acc, Not(window, 64), i);
    NotBit(window, 64, i);
    AndBit(moved, window, i);
  }

  /// The same for one byte whose new bits are already cut to the mask.
  lemma MergedByteBit(was: Byte, mask: nat, bits: nat, b: Byte, j: nat)
    requires j < 8 && b == ToByte(Or(And(was, Not(mask, 8)), bits)) && (BitAt(mask, j) == 0 ==> BitAt(bits, j) == 0)
    ensures BitAt(b, j) == if BitAt(mask, j) == 1 then BitAt(bits, j) else BitAt(was, j)
  {
    ToByteBit(Or(And(was, Not(mask, 8)), bits), j);
    OrBit(And(was, Not(mask, 8)), bits, j);
    AndBit(was, Not(mask, 8), j);
    NotBit(mask, 8, j);
  }

  lemma ValueBit(value: nat, length: nat, v: nat, k: nat)
    requires length <= 64 && v == And(value, BitMask(length))
    ensures BitAt(v, k) == if k < length then BitAt(value, k) else 0
  {
    AndBit(value, BitMask(length), k);
    MaskBit(length, k);
  }

  /// The first eight bytes of an Intel signal.
  lemma IntelHeadBit(s: seq<Byte>, l: Layout, first: nat, off: nat, n: nat, acc: nat, value: nat, v: nat, window: nat,
                     merged: nat, i: nat)
    requires l.Fits(|s|) && l.order.Intel? && l.Start() == 8 * first + off && off < 8 && first + n <= |s| && n <= 8
    requires LoadedLe(s, first, n, acc) && v == And(value, BitMask(l.length)) && i < 8 * n
    requires window == Shl64(BitMask(l.length), off)
    requires merged == Or(And(acc, Not(window, 64)), And(Shl64(v, off), window))
    ensures BitAt(merged, i) == PlacedBit(s, l, value, 8 * first + i)
  {
    MergedBit(acc, window, Shl64(v, off), merged, i);
    Shl64Bit(BitMask(l.length), off, i);
    Shl64Bit(v, off, i);
    if off <= i {
      MaskBit(l.length, i - off);
      ValueBit(value, l.length, v, i - off);
    }
  }

  lemma TailBits(was: Byte, v: nat, drop: nat, tail: nat, mask: nat, b: Byte, j: nat)
    requires j < 8 && mask == Pow2(tail) - 1 && b == ToByte(Or(And(was, Not(mask, 8)), And(Shr(v, drop), mask)))
    ensures BitAt(b, j) == if j < tail then BitAt(v, j + drop) else BitAt(was, j)
  {
    var bits := And(Shr(v, drop), mask);
    OnesBit(tail, j);
    AndBit(Shr(v, drop), mask, j);
    MergedByteBit(was, mask, bits, b, j);
    ShrBit(v, drop, j);
  }

  /// The ninth byte of an Intel signal.
  lemma IntelTailBit(s: seq<Byte>, l: Layout, first: nat, off: nat, value: nat, v: nat, tail: nat, mask: nat, b: Byte, j: nat)
    requires l.Fits(|s|) && l.order.Intel? && l.Start() == 8 * first + off && off < 8 && first + 9 <= |s| && j < 8
    requires v == And(value, BitMask(l.length)) && tail + 64 == off + l.length && 1 <= tail <= 7
    requires mask == Pow2(tail) - 1
    requires b == ToByte(Or(And(s[first + 8], Not(mask, 8)), And(Shr(v, l.length - tail), mask)))
    ensures BitAt(b, j) == PlacedBit(s, l, value, 8 * (first + 8) + j)
  {
    var drop, q := l.length - tail, 8 * (first + 8) + j;
    TailBits(s[first + 8], v, drop, tail, mask, b, j);
    ValueBit(value, l.length, v, j + drop);
    LittleBit(s, first, 8, j, q);
    assert q == l.Start() + (j + drop);
  }

  /// `after` agrees with the new payload before byte `end` and with the old one from there on.
  ghost predicate PlacedUpTo(before: seq<Byte>, after: seq<Byte>, l: Layout, value: nat, end: nat) {
    |after| == |before|
    && forall q: nat | q < 8 * |before| ::
         PayloadBit(after, l.order, q) == if q < 8 * end then PlacedBit(before, l, value, q) else PayloadBit(before, l.order, q)
  }

  lemma PlacedThrough(before: seq<Byte>, after: seq<Byte>, l: Layout, value: nat, end: nat)
    requires PlacedUpTo(before, after, l, value, end) && l.End() <= 8 * end
    ensures IsPlaced(before, after, l, value)
  {
  }

  lemma PlacedNext(before: seq<Byte>, after: seq<Byte>, l: Layout, value: nat, k: nat, b: Byte)
    requires k < |before| && PlacedUpTo(before, after, l, value, k)
    requires forall j: nat | j < 8 :: BitAt(b, j) == PlacedBit(before, l, value, 8 * k + if l.order.Intel? then j else 7 - j)
    ensures PlacedUpTo(before, after[k := b], l, value, k + 1)
  {
    forall q: nat | q < 8 * |before|
      ensures PayloadBit(after[k := b], l.order, q)
           == if q < 8 * (k + 1) then PlacedBit(before, l, value, q) else PayloadBit(before, l.order, q)
    {
      BitAfterUpdate(after, l.order, k, b, q);
    }
  }

  lemma IntelHead(before: seq<Byte>, after: seq<Byte>, l: Layout, first: nat, n: nat, value: nat, merged: nat)
    requires StoredLe(before, after, first, n, merged) && l.order.Intel? && l.Start() >= 8 * first && first + n <= |before|
    requires forall i: nat | i < 8 * n :: BitAt(merged, i) == PlacedBit(before, l, value, 8 * first + i)
    ensures PlacedUpTo(before, after, l, value, first + n)
  {
    forall q: nat | q < 8 * |before|
      ensures PayloadBit(after, Intel, q)
           == if q < 8 * (first + n) then PlacedBit(before, l, value, q) else PayloadBit(before, Intel, q)
    {
      if 8 * first <= q < 8 * (first + n) {
        assert BitAt(merged, q - 8 * first) == PlacedBit(before, l, value, 8 * first + (q - 8 * first));
      }
    }
  }

  lemma SameByte(before: seq<Byte>, after: seq<Byte>, l: Layout, value: nat, k: nat)
    requires PlacedUpTo(before, after, l, value, k) && k < |before|
    ensures after[k] == before[k]
  {
    forall j: nat
      ensures BitAt(after[k], j) == BitAt(before[k], j)
    {
      if j < 8 {
        var q := 8 * k + if l.order.Intel? then j else 7 - j;
        BitOfByte(before, l.order, q, k, j);
        BitOfByte(after, l.order, q, k, j);
      } else {
        ByteBit(after[k], j);
        ByteBit(before[k], j);
      }
    }
    SameBits(after[k], before[k]);
  }

  /// The word that is stored back holds the first eight bytes of the new payload.
  lemma IntelMerged(before: seq<Byte>, after: seq<Byte>, l: Layout, first: nat, off: nat, n: nat, acc: nat, value: nat, v: nat,
                    window: nat, merged: nat)
    requires l.Fits(|before|) && l.order.Intel? && l.Start() == 8 * first + off && off < 8 && first + n <= |before| && n <= 8
    requires LoadedLe(before, first, n, acc) && v == And(value, BitMask(l.length)) && window == Shl64(BitMask(l.length), off)
    requires merged == Or(And(acc, Not(window, 64)), And(Shl64(v, off), window)) && StoredLe(before, after, first, n, merged)
    ensures PlacedUpTo(before, after, l, value, first + n)
  {
    forall i: nat | i < 8 * n
      ensures BitAt(merged, i) == PlacedBit(before, l, value, 8 * first + i)
    {
      IntelHeadBit(before, l, first, off, n, acc, value, v, window, merged, i);
    }
    IntelHead(before, after, l, first, n, value, merged);
  }

  /// The ninth byte completes the payload.
  lemma IntelTail(before: seq<Byte>, after: seq<Byte>, l: Layout, first: nat, off: nat, value: nat, v: nat, tail: nat, mask: nat,
                  b: Byte)
    requires Spans(l, |before|, first, off, 9) && l.order.Intel? && tail + 64 == off + l.length
    requires v == And(value, BitMask(l.length)) && mask == Pow2(tail) - 1
    requires PlacedUpTo(before, after, l, value, first + 8)
    requires b == ToByte(Or(And(after[first + 8], Not(mask, 8)), And(Shr(v, l.length - tail), mask)))
    ensures PlacedUpTo(before, after[first + 8 := b], l, value, first + 9)
  {
    var k := first + 8;
    SameByte(before, after, l, value, k);
    forall j: nat | j < 8
      ensures BitAt(b, j) == PlacedBit(before, l, value, 8 * k + if l.order.Intel? then j else 7 - j)
    {
      IntelTailBit(before, l, first, off, value, v, tail, mask, b, j);
    }
    PlacedNext(before, after, l, value, k, b);
  }

  /// `insert_intel`.
  method InsertIntel(data: array<Byte>, q0: nat, ghost l: Layout, length: nat, value: nat)
    requires l.Fits(data.Length) && l.order.Intel? && q0 == l.Start() && length == l.length
    modifies data
    ensures IsPlaced(old(data[..]), data[..], l, value)
  {
    ghost var before := data[..];
    var first, off := q0 / 8, q0 % 8;
    var nb := SpannedBytes(off, length);
    SpansPayload(l, data.Length, first, off, nb);
    var head := if nb <= 8 then nb else 8;
    var v := And(value, BitMask(length));
    var window := Shl64(BitMask(length), off);
    var acc := LoadLe(data, first, head);
    var merged := Or(And(acc, Not(window, 64)), And(Shl64(v, off), window));
    StoreLe(data, first, head, merged);
    IntelMerged(before, data[..], l, first, off, head, acc, value, v, window, merged);
    if nb == 9 {
      var tail := off + length - 64;
      OnesBit(tail, 0);
      var mask := Pow2(tail) - 1;
      var bits := And(Shr(v, length - tail), mask);
      var b := ToByte(Or(And(data[first + 8], Not(mask, 8)), bits));
      ghost var was := data[..];
      IntelTail(before, was, l, first, off, value, v, tail, mask, b);
      data[first + 8] := b;
      assert data[..] == was[first + 8 := b];
    }
    PlacedThrough(before, data[..], l, value, first + nb);
  }

  // ---- Motorola ----

  lemma MotorolaNarrowBit(s: seq<Byte>, l: Layout, first: nat, off: nat, nb: nat, acc: nat, shift: nat, value: nat, v: nat,
                          window: nat, merged: nat, i: nat)
    requires l.Fits(|s|) && l.order.Motorola? && l.Start() == 8 * first + off && off < 8 && first + nb <= |s| && nb <= 8
    requires LoadedBe(s, first, nb, acc) && shift + off + l.length == 8 * nb && i < 8 * nb
    requires v == And(value, BitMask(l.length)) && window == Shl64(BitMask(l.length), shift)
    requires merged == Or(And(acc, Not(window, 64)), And(Shl64(v, shift), window))
    ensures BitAt(merged, i) == PlacedBit(s, l, value, 8 * (first + nb) - 1 - i)
  {
    MergedBit(acc, window, Shl64(v, shift), merged, i);
    Shl64Bit(BitMask(l.length), shift, i);
    Shl64Bit(v, shift, i);
    if shift <= i {
      MaskBit(l.length, i - shift);
      ValueBit(value, l.length, v, i - shift);
    }
  }

  lemma MotorolaWideBit(s: seq<Byte>, l: Layout, first: nat, off: nat, acc: nat, tail: nat, value: nat, v: nat,
                        window: nat, merged: nat, i: nat)
    requires l.Fits(|s|) && l.order.Motorola? && l.Start() == 8 * first + off && off < 8 && first + 9 <= |s|
    requires LoadedBe(s, first, 8, acc) && tail + 64 == off + l.length && 1 <= tail <= 7 && i < 64
    requires v == And(value, BitMask(l.length)) && window == BitMask(l.length - tail)
    requires merged == Or(And(acc, Not(window, 64)), And(Shr(v, tail), window))
    ensures BitAt(merged, i) == PlacedBit(s, l, value, 8 * (first + 8) - 1 - i)
  {
    MergedBit(acc, window, Shr(v, tail), merged, i);
    MaskBit(l.length - tail, i);
    ShrBit(v, tail, i);
    ValueBit(value, l.length, v, i + tail);
  }

  lemma MotorolaTailBit(s: seq<Byte>, l: Layout, first: nat, off: nat, value: nat, v: nat, tail: nat, mask: nat, b: Byte, j: nat)
    requires l.Fits(|s|) && l.order.Motorola? && l.Start() == 8 * first + off && off < 8 && first + 9 <= |s| && j < 8
    requires v == And(value, BitMask(l.length)) && tail + 64 == off + l.length && 1 <= tail <= 7
    requires mask == ToByte(Shl(255, 8 - tail))
    requires b == ToByte(Or(And(s[first + 8], Not(mask, 8)), And(Shl64(v, 8 - tail), mask)))
    ensures BitAt(b, j) == PlacedBit(s, l, value, 8 * (first + 8) + 7 - j)
  {
    var bits, q := And(Shl64(v, 8 - tail), mask), 8 * (first + 8) + 7 - j;
    ToByteBit(Shl(255, 8 - tail), j);
    ShlBit(255, 8 - tail, j);
    AndBit(Shl64(v, 8 - tail), mask, j);
    Shl64Bit(v, 8 - tail, j);
    if 8 - tail <= j {
      var ones := OctetMask(j - (8 - tail));
      ValueBit(value, l.length, v, j - (8 - tail));
    }
    MergedByteBit(s[first + 8], mask, bits, b, j);
    BitOfByte(s, Motorola, q, first + 8, j);
  }

  lemma MotorolaHead(before: seq<Byte>, after: seq<Byte>, l: Layout, first: nat, n: nat, value: nat, merged: nat)
    requires StoredBe(before, after, first, n, n, merged) && l.order.Motorola? && l.Start() >= 8 * first
    requires first + n <= |before|
    requires forall i: nat | i < 8 * n :: BitAt(merged, i) == PlacedBit(before, l, value, 8 * (first + n) - 1 - i)
    ensures PlacedUpTo(before, after, l, value, first + n)
  {
    forall q: nat | q < 8 * |before|
      ensures PayloadBit(after, Motorola, q)
           == if q < 8 * (first + n) then PlacedBit(before, l, value, q) else PayloadBit(before, Motorola, q)
    {
      if 8 * first <= q < 8 * (first + n) {
        var i := 8 * (first + n) - 1 - q;
        assert BitAt(merged, i) == PlacedBit(before, l, value, 8 * (first + n) - 1 - i);
      }
    }
  }

  /// `insert_motorola`.
  method InsertMotorola(data: array<Byte>, q0: nat, ghost l: Layout, length: nat, value: nat)
    requires l.Fits(data.Length) && l.order.Motorola? && q0 == l.Start() && length == l.length
    modifies data
    ensures IsPlaced(old(data[..]), data[..], l, value)
  {
    ghost var before := data[..];
    var first, off := q0 / 8, q0 % 8;
    var nb := SpannedBytes(off, length);
    SpansPayload(l, data.Length, first, off, nb);
    var v := And(value, BitMask(length));
    if nb <= 8 {
      var shift := nb * 8 - off - length;
      var window := Shl64(BitMask(length), shift);
      var acc := LoadBe(data, first, nb);
      var merged := Or(And(acc, Not(window, 64)), And(Shl64(v, shift), window));
      StoreBe(data, first, nb, merged);
      forall i: nat | i < 8 * nb
        ensures BitAt(merged, i) == PlacedBit(before, l, value, 8 * (first + nb) - 1 - i)
      {
        MotorolaNarrowBit(before, l, first, off, nb, acc, shift, value, v, window, merged, i);
      }
      MotorolaHead(before, data[..], l, first, nb, value, merged);
      PlacedThrough(before, data[..], l, value, first + nb);
    } else {
      InsertWide(data, first, off, l, length, value, v);
    }
  }

  /// The nine-byte case: the first eight bytes, then the top bits of the ninth.
  method InsertWide(data: array<Byte>, first: nat, off: nat, ghost l: Layout, length: nat, ghost value: nat, v: nat)
    requires Spans(l, data.Length, first, off, 9) && l.order.Motorola? && length == l.length
    requires v == And(value, BitMask(length))
    modifies data
    ensures IsPlaced(old(data[..]), data[..], l, value)
  {
    var tail := off + length - 64;
    InsertHead(data, first, off, l, length, value, v, tail);
    InsertTail(data, first, off, l, length, value, v, tail, old(data[..]));
    PlacedThrough(old(data[..]), data[..], l, value, first + 9);
  }

  method InsertHead(data: array<Byte>, first: nat, off: nat, ghost l: Layout, length: nat, ghost value: nat, v: nat, tail: nat)
    requires Spans(l, data.Length, first, off, 9) && l.order.Motorola? && length == l.length
    requires v == And(value, BitMask(length)) && tail + 64 == off + length
    modifies data
    ensures PlacedUpTo(old(data[..]), data[..], l, value, first + 8)
  {
    ghost var before := data[..];
    var window := BitMask(length - tail);
    var acc := LoadBe(data, first, 8);
    var merged := Or(And(acc, Not(window, 64)), And(Shr(v, tail), window));
    StoreBe(data, first, 8, merged);
    forall i: nat | i < 64
      ensures BitAt(merged, i) == PlacedBit(before, l, value, 8 * (first + 8) - 1 - i)
    {
      MotorolaWideBit(before, l, first, off, acc, tail, value, v, window, merged, i);
    }
    MotorolaHead(before, data[..], l, first, 8, value, merged);
  }

  /// The ninth byte completes the payload.
  lemma MotorolaTail(before: seq<Byte>, after: seq<Byte>, l: Layout, first: nat, off: nat, value: nat, v: nat, tail: nat, mask: nat,
                     b: Byte)
    requires Spans(l, |before|, first, off, 9) && l.order.Motorola? && tail + 64 == off + l.length
    requires v == And(value, BitMask(l.length)) && mask == ToByte(Shl(255, 8 - tail))
    requires PlacedUpTo(before, after, l, value, first + 8)
    requires b == ToByte(Or(And(after[first + 8], Not(mask, 8)), And(Shl64(v, 8 - tail), mask)))
    ensures PlacedUpTo(before, after[first + 8 := b], l, value, first + 9)
  {
    var k := first + 8;
    SameByte(before, after, l, value, k);
    forall j: nat | j < 8
      ensures BitAt(b, j) == PlacedBit(before, l, value, 8 * k + if l.order.Intel? then j else 7 - j)
    {
      MotorolaTailBit(before, l, first, off, value, v, tail, mask, b, j);
    }
    PlacedNext(before, after, l, value, k, b);
  }

  method InsertTail(data: array<Byte>, first: nat, off: nat, ghost l: Layout, length: nat, ghost value: nat, v: nat, tail: nat,
                    ghost before: seq<Byte>)
    requires Spans(l, data.Length, first, off, 9) && l.order.Motorola? && length == l.length
    requires v == And(value, BitMask(length)) && tail + 64 == off + length
    requires |before| == data.Length && PlacedUpTo(before, data[..], l, value, first + 8)
    modifies data
    ensures PlacedUpTo(before, data[..], l, value, first + 9)
  {
    var mask := ToByte(Shl(255, 8 - tail));
    var bits := And(Shl64(v, 8 - tail), mask);
    var b := ToByte(Or(And(data[first + 8], Not(mask, 8)), bits));
    ghost var was := data[..];
    MotorolaTail(before, was, l, first, off, value, v, tail, mask, b);
    data[first + 8] := b;
    assert data[..] == was[first + 8 := b];
  }

  /// `encode_raw`.
  method EncodeRaw(l: Layout, raw: nat, data: array<Byte>)
    requires l.Fits(data.Length)
    modifies data
    ensures data[..] == Placed(old(data[..]), l, raw)
  {
    if l.order.Intel? {
      InsertIntel(data, l.Start(), l, l.length, raw);
    } else {
      InsertMotorola(data, l.Start(), l, l.length, raw);
    }
    OnlyPlaced(old(data[..]), data[..], l, raw);
  }

  // ---- One bit at a time ----

  /// `decode_raw_reference`.
  method DecodeRawReference(l: Layout, data: array<Byte>) returns (raw: nat)
    requires l.Fits(data.Length)
    ensures raw == Raw(data[..], l)
  {
    raw := 0;
    forall i: nat
      ensures BitAt(raw, i) == 0
    {
      BitOfZero(i);
    }
    for k := 0 to l.length
      invariant if l.order.Intel? then Ascending(data[..], l, k, raw) else Descending(data[..], l, k, raw)
    {
      var q := l.Start() + k;
      var bit := BitAt(data[q / 8], if l.order.Intel? then q % 8 else 7 - q % 8) as nat;
      if l.order.Intel? {
        AscendingStep(data[..], l, k, raw, bit, Or(raw, Shl64(bit, k)));
        raw := Or(raw, Shl64(bit, k));
      } else {
        DescendingStep(data[..], l, k, raw, bit, Or(Shl64(raw, 1), bit));
        raw := Or(Shl64(raw, 1), bit);
      }
    }
    OnlyRaw(data[..], l, raw);
  }

  /// The low `k` bits of an Intel value.
  ghost predicate Ascending(s: seq<Byte>, l: Layout, k: nat, raw: nat)
    requires l.Fits(|s|) && k <= l.length
  {
    forall i: nat :: BitAt(raw, i) == if i < k then PayloadBit(s, l.order, l.Start() + i) else 0
  }

  /// The high `k` bits of a Motorola value.
  ghost predicate Descending(s: seq<Byte>, l: Layout, k: nat, raw: nat)
    requires l.Fits(|s|) && k <= l.length
  {
    forall i: nat :: BitAt(raw, i) == if i < k then PayloadBit(s, l.order, l.Start() + (k - 1 - i)) else 0
  }

  lemma SmallBit(bit: nat, i: nat)
    requires bit < 2
    ensures BitAt(bit, i) as nat == if i == 0 then bit else 0
  {
    if i > 0 {
      BitOfHalf(bit, i);
      BitOfZero(i - 1);
    }
  }

  lemma AscendingStep(s: seq<Byte>, l: Layout, k: nat, raw: nat, bit: nat, next: nat)
    requires l.Fits(|s|) && k < l.length && Ascending(s, l, k, raw) && next == Or(raw, Shl64(bit, k))
    requires bit == PayloadBit(s, l.order, l.Start() + k) as nat
    ensures Ascending(s, l, k + 1, next)
  {
    forall i: nat
      ensures BitAt(next, i) == if i < k + 1 then PayloadBit(s, l.order, l.Start() + i) else 0
    {
      OrBit(raw, Shl64(bit, k), i);
      Shl64Bit(bit, k, i);
      if i >= k {
        SmallBit(bit, i - k);
      }
    }
  }

  lemma DescendingStep(s: seq<Byte>, l: Layout, k: nat, raw: nat, bit: nat, next: nat)
    requires l.Fits(|s|) && k < l.length && Descending(s, l, k, raw) && next == Or(Shl64(raw, 1), bit)
    requires bit == PayloadBit(s, l.order, l.Start() + k) as nat
    ensures Descending(s, l, k + 1, next)
  {
    forall i: nat
      ensures BitAt(next, i) == if i < k + 1 then PayloadBit(s, l.order, l.Start() + (k - i)) else 0
    {
      OrBit(Shl64(raw, 1), bit, i);
      Shl64Bit(raw, 1, i);
      SmallBit(bit, i);
      if i > 0 {
        assert BitAt(raw, i - 1) == if i - 1 < k then PayloadBit(s, l.order, l.Start() + (k - 1 - (i - 1))) else 0;
      }
    }
  }

  /// The bits of the first `k` positions are written.
  ghost predicate Written(before: seq<Byte>, after: seq<Byte>, l: Layout, raw: nat, k: nat) {
    |after| == |before|
    && forall q: nat | q < 8 * |before| ::
         PayloadBit(after, l.order, q)
         == if q < l.Start() + k then PlacedBit(before, l, raw, q) else PayloadBit(before, l.order, q)
  }

  lemma WrittenStep(before: seq<Byte>, after: seq<Byte>, l: Layout, raw: nat, k: nat, q0: nat, i: nat, j: nat, bit: nat, b: Byte)
    requires l.Fits(|before|) && k < l.length && Written(before, after, l, raw, k)
    requires q0 == l.Start() + k && i == q0 / 8 && j == if l.order.Intel? then q0 % 8 else 7 - q0 % 8
    requires bit == BitAt(raw, l.Index(q0)) as nat
    requires b == ToByte(Or(And(after[i], Not(Shl(1, j), 8)), if bit != 0 then Shl(1, j) else 0))
    ensures Written(before, after[i := b], l, raw, k + 1)
  {
    forall q: nat | q < 8 * |before|
      ensures PayloadBit(after[i := b], l.order, q)
           == if q < l.Start() + (k + 1) then PlacedBit(before, l, raw, q) else PayloadBit(before, l.order, q)
    {
      BitAfterUpdate(after, l.order, i, b, q);
      if 8 * i <= q < 8 * i + 8 {
        var x := if l.order.Intel? then q - 8 * i else 8 * i + 7 - q;
        SetBit(after[i], j, bit, b, x);
        BitOfByte(after, l.order, q, i, x);
      }
    }
  }

  lemma SetBit(was: Byte, j: nat, bit: nat, b: Byte, x: nat)
    requires j < 8 && x < 8 && bit < 2
    requires b == ToByte(Or(And(was, Not(Shl(1, j), 8)), if bit != 0 then Shl(1, j) else 0))
    ensures BitAt(b, x) as nat == if x == j then bit else BitAt(was, x) as nat
  {
    var mask := Shl(1, j);
    ShlBit(1, j, x);
    if x >= j {
      SmallBit(1, x - j);
    }
    BitOfZero(x);
    MergedByteBit(was, mask, if bit != 0 then mask else 0, b, x);
  }

  /// `encode_raw_reference`.
  method EncodeRawReference(l: Layout, raw: nat, data: array<Byte>)
    requires l.Fits(data.Length)
    modifies data
    ensures data[..] == Placed(old(data[..]), l, raw)
  {
    ghost var before := data[..];
    var v := And(raw, BitMask(l.length));
    for k := 0 to l.length
      invariant Written(before, data[..], l, raw, k)
    {
      var q := l.Start() + k;
      var i, j := q / 8, if l.order.Intel? then q % 8 else 7 - q % 8;
      var shift := if l.order.Intel? then k else l.length - 1 - k;
      var bit := BitAt(v, shift) as nat;
      var mask := Shl(1, j);
      var b := ToByte(Or(And(data[i], Not(mask, 8)), if bit != 0 then mask else 0));
      ValueBit(raw, l.length, v, shift);
      ghost var was := data[..];
      WrittenStep(before, was, l, raw, k, q, i, j, bit, b);
      data[i] := b;
      assert data[..] == was[i := b];
    }
    OnlyPlaced(before, data[..], l, raw);
  }
}
