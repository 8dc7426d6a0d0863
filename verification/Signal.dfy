/// The signal codec of core/src/Signal.cpp: where the bits of a signal lie in a payload, and the
/// word-at-a-time and bit-at-a-time coders, both proved to put and find them there.
module Signal {
  import opened Bits
  import opened Words

  datatype ByteOrder = Motorola | Intel

  datatype Layout = Layout(startBit: nat, length: nat, order: ByteOrder) {
    /// Where the signal begins when bits are numbered so that it runs upwards in either byte order.
    function Start(): nat {
      if order.Intel? then startBit else 8 * (startBit / 8) + (7 - startBit % 8)
    }

    function End(): nat {
      Start() + length
    }

    predicate Fits(bytes: nat) {
      1 <= length <= 64 && End() <= 8 * bytes
    }

    predicate Covers(q: nat) {
      Start() <= q < End()
    }

    /// Where bit `k` of the signal's value is: Intel starts at the least significant bit, Motorola
    /// at the most significant one.
    function Position(k: nat): nat
      requires k < length
    {
      if order.Intel? then Start() + k else Start() + (length - 1 - k)
    }

    /// Which bit of the value is at `q`.
    function Index(q: nat): (k: nat)
      requires Covers(q)
      ensures k < length && Position(k) == q
    {
      if order.Intel? then q - Start() else End() - 1 - q
    }
  }

  /// Canonical position `q` of a payload: Motorola reads each byte from its most significant bit.
  function PayloadBit(data: seq<Byte>, order: ByteOrder, q: nat): Bit
    requires q < 8 * |data|
  {
    BitAt(data[q / 8], if order.Intel? then q % 8 else 7 - q % 8)
  }

  // ---- What decoding and encoding mean ----

  /// The value of a signal, each bit from its position.
  function Raw(data: seq<Byte>, l: Layout): nat
    requires l.Fits(|data|)
  {
    LsbValue(seq(l.length, (k: int) requires 0 <= k < l.length => PayloadBit(data, l.order, l.Position(k))))
  }

  /// Bit `q` of the payload once `raw` is written.
  function PlacedBit(data: seq<Byte>, l: Layout, raw: nat, q: nat): Bit
    requires q < 8 * |data|
  {
    if l.Covers(q) then BitAt(raw, l.Index(q)) else PayloadBit(data, l.order, q)
  }

  /// The payload once `raw` is written: bits of `raw` where the signal is, the old bits elsewhere.
  function Placed(data: seq<Byte>, l: Layout, raw: nat): (r: seq<Byte>)
    ensures |r| == |data|
  {
    seq(|data|, (i: int) requires 0 <= i < |data| => PlacedByte(data, l, raw, i))
  }

  function PlacedByte(data: seq<Byte>, l: Layout, raw: nat, i: nat): Byte
    requires i < |data|
  {
    ToByte(LsbValue(NewBits(data, l, raw, i)))
  }

  /// The bits of byte `i`, least significant first.
  function NewBits(data: seq<Byte>, l: Layout, raw: nat, i: nat): (r: seq<Bit>)
    requires i < |data|
    ensures |r| == 8
  {
    seq(8, (j: int) requires 0 <= j < 8 => PlacedBit(data, l, raw, 8 * i + if l.order.Intel? then j else 7 - j))
  }

  ghost predicate IsRaw(data: seq<Byte>, l: Layout, r: nat)
    requires l.Fits(|data|)
  {
    forall i: nat :: BitAt(r, i) == if i < l.length then PayloadBit(data, l.order, l.Position(i)) else 0
  }

  lemma RawBits(data: seq<Byte>, l: Layout)
    requires l.Fits(|data|)
    ensures IsRaw(data, l, Raw(data, l))
  {
    var s := seq(l.length, (k: int) requires 0 <= k < l.length => PayloadBit(data, l.order, l.Position(k)));
    forall i: nat
      ensures BitAt(Raw(data, l), i) == if i < l.length then PayloadBit(data, l.order, l.Position(i)) else 0
    {
      LsbValueBit(s, i);
    }
  }

  lemma OnlyRaw(data: seq<Byte>, l: Layout, r: nat)
    requires l.Fits(|data|) && IsRaw(data, l, r)
    ensures r == Raw(data, l)
  {
    RawBits(data, l);
    SameBits(r, Raw(data, l));
  }

  lemma BitOfByte(data: seq<Byte>, order: ByteOrder, q: nat, i: nat, j: nat)
    requires i < |data| && j < 8 && q == 8 * i + if order.Intel? then j else 7 - j
    ensures PayloadBit(data, order, q) == BitAt(data[i], j)
  {
    assert q / 8 == i && q % 8 == if order.Intel? then j else 7 - j;
  }

  ghost predicate IsPlaced(before: seq<Byte>, after: seq<Byte>, l: Layout, raw: nat) {
    |after| == |before|
    && forall q: nat | q < 8 * |before| :: PayloadBit(after, l.order, q) == PlacedBit(before, l, raw, q)
  }

  lemma PlacedByteBit(data: seq<Byte>, l: Layout, raw: nat, i: nat, j: nat, q: nat)
    requires i < |data| && j < 8 && q == 8 * i + if l.order.Intel? then j else 7 - j
    ensures BitAt(Placed(data, l, raw)[i], j) == PlacedBit(data, l, raw, q)
  {
    var s := NewBits(data, l, raw, i);
    NewBit(data, l, raw, i, j, q);
    LsbValueBit(s, j);
    ToByteBit(LsbValue(s), j);
  }

  lemma NewBit(data: seq<Byte>, l: Layout, raw: nat, i: nat, j: nat, q: nat)
    requires i < |data| && j < 8 && q == 8 * i + if l.order.Intel? then j else 7 - j
    ensures NewBits(data, l, raw, i)[j] == PlacedBit(data, l, raw, q)
  {
  }

  lemma PlacedBits(data: seq<Byte>, l: Layout, raw: nat)
    ensures IsPlaced(data, Placed(data, l, raw), l, raw)
  {
    var after := Placed(data, l, raw);
    forall q: nat | q < 8 * |data|
      ensures PayloadBit(after, l.order, q) == PlacedBit(data, l, raw, q)
    {
      var i, j := q / 8, if l.order.Intel? then q % 8 else 7 - q % 8;
      PlacedByteBit(data, l, raw, i, j, q);
      BitOfByte(after, l.order, q, i, j);
    }
  }

  /// A payload with the same bits is the same payload.
  lemma SamePayload(a: seq<Byte>, b: seq<Byte>, order: ByteOrder)
    requires |a| == |b| && forall q: nat | q < 8 * |a| :: PayloadBit(a, order, q) == PayloadBit(b, order, q)
    ensures a == b
  {
    forall i | 0 <= i < |a|
      ensures a[i] == b[i]
    {
      forall j: nat
        ensures BitAt(a[i], j) == BitAt(b[i], j)
      {
        if j < 8 {
          var q := 8 * i + if order.Intel? then j else 7 - j;
          BitOfByte(a, order, q, i, j);
          BitOfByte(b, order, q, i, j);
        } else {
          ByteBit(a[i], j);
          ByteBit(b[i], j);
        }
      }
      SameBits(a[i], b[i]);
    }
  }

  lemma OnlyPlaced(before: seq<Byte>, after: seq<Byte>, l: Layout, raw: nat)
    requires IsPlaced(before, after, l, raw)
    ensures after == Placed(before, l, raw)
  {
    PlacedBits(before, l, raw);
    SamePayload(after, Placed(before, l, raw), l.order);
  }

  // ---- What the codec is for ----

  /// Decoding what was encoded returns the value cut to the width of the signal.
  lemma RoundTrip(data: seq<Byte>, l: Layout, raw: nat)
    requires l.Fits(|data|)
    ensures Raw(Placed(data, l, raw), l) == And(raw, BitMask(l.length))
  {
    var after, r := Placed(data, l, raw), And(raw, BitMask(l.length));
    forall i: nat
      ensures BitAt(r, i) == if i < l.length then PayloadBit(after, l.order, l.Position(i)) else 0
    {
      AndBit(raw, BitMask(l.length), i);
      MaskBit(l.length, i);
      if i < l.length {
        PlacedAtPosition(data, l, raw, i, l.Position(i));
      }
    }
    OnlyRaw(after, l, r);
  }

  lemma PlacedAtPosition(data: seq<Byte>, l: Layout, raw: nat, i: nat, q: nat)
    requires l.Fits(|data|) && i < l.length && q == l.Position(i)
    ensures PayloadBit(Placed(data, l, raw), l.order, q) == BitAt(raw, i)
  {
    PlacedBits(data, l, raw);
    assert l.Covers(q) && l.Index(q) == i;
  }

  /// Encoding what was decoded changes nothing.
  lemma ReadBack(data: seq<Byte>, l: Layout)
    requires l.Fits(|data|)
    ensures Placed(data, l, Raw(data, l)) == data
  {
    RawBits(data, l);
    OnlyPlaced(data, data, l, Raw(data, l));
  }

  /// The last value written is the one that stays.
  lemma LastWrite(data: seq<Byte>, l: Layout, x: nat, y: nat)
    ensures Placed(Placed(data, l, x), l, y) == Placed(data, l, y)
  {
    PlacedBits(data, l, x);
    PlacedBits(Placed(data, l, x), l, y);
    OnlyPlaced(data, Placed(Placed(data, l, x), l, y), l, y);
  }

  /// The physical bit `j` of byte `i` belongs to the signal.
  predicate Occupies(l: Layout, i: nat, j: nat)
    requires j < 8
  {
    l.Covers(8 * i + if l.order.Intel? then j else 7 - j)
  }

  predicate Disjoint(a: Layout, b: Layout, bytes: nat) {
    forall i: nat, j: nat | i < bytes && j < 8 :: !(Occupies(a, i, j) && Occupies(b, i, j))
  }

  /// A write leaves every physical bit outside the signal alone.
  lemma OutsideUnchanged(data: seq<Byte>, l: Layout, raw: nat, i: nat, j: nat)
    requires i < |data| && j < 8 && !Occupies(l, i, j)
    ensures BitAt(Placed(data, l, raw)[i], j) == BitAt(data[i], j)
  {
    var q := 8 * i + if l.order.Intel? then j else 7 - j;
    PlacedByteBit(data, l, raw, i, j, q);
    BitOfByte(data, l.order, q, i, j);
  }

  lemma PositionOccupied(l: Layout, q: nat, i: nat, j: nat)
    requires i == q / 8 && j == (if l.order.Intel? then q % 8 else 7 - q % 8)
    ensures Occupies(l, i, j) <==> l.Covers(q)
  {
    assert q == 8 * i + if l.order.Intel? then j else 7 - j;
  }

  /// Writing one signal does not change the value of a disjoint one ...
  lemma OthersKeepTheirValue(data: seq<Byte>, a: Layout, b: Layout, x: nat)
    requires a.Fits(|data|) && b.Fits(|data|) && Disjoint(a, b, |data|)
    ensures Raw(Placed(data, a, x), b) == Raw(data, b)
  {
    var after := Placed(data, a, x);
    RawBits(after, b);
    forall k: nat | k < b.length
      ensures PayloadBit(after, b.order, b.Position(k)) == PayloadBit(data, b.order, b.Position(k))
    {
      var q := b.Position(k);
      var i, j := q / 8, if b.order.Intel? then q % 8 else 7 - q % 8;
      PositionOccupied(b, q, i, j);
      OutsideUnchanged(data, a, x, i, j);
    }
    OnlyRaw(data, b, Raw(after, b));
  }

  /// ... so two disjoint signals, of whatever byte orders, can be written in either order.
  lemma WritesCommute(data: seq<Byte>, a: Layout, b: Layout, x: nat, y: nat)
    requires Disjoint(a, b, |data|)
    ensures Placed(Placed(data, a, x), b, y) == Placed(Placed(data, b, y), a, x)
  {
    var xy, yx := Placed(Placed(data, a, x), b, y), Placed(Placed(data, b, y), a, x);
    forall q: nat | q < 8 * |data|
      ensures PayloadBit(xy, Intel, q) == PayloadBit(yx, Intel, q)
    {
      EitherOrder(data, a, b, x, y, q / 8, q % 8);
    }
    SamePayload(xy, yx, Intel);
  }

  lemma EitherOrder(data: seq<Byte>, a: Layout, b: Layout, x: nat, y: nat, i: nat, j: nat)
    requires i < |data| && j < 8 && !(Occupies(a, i, j) && Occupies(b, i, j))
    ensures BitAt(Placed(Placed(data, a, x), b, y)[i], j) == BitAt(Placed(Placed(data, b, y), a, x)[i], j)
    decreases Occupies(b, i, j)
  {
    if Occupies(b, i, j) {
      EitherOrder(data, b, a, y, x, i, j);
    } else {
      OutsideUnchanged(Placed(data, a, x), b, y, i, j);
      SameBitWritten(data, Placed(data, b, y), a, b, x, y, i, j);
    }
  }

  /// What a write puts at a bit depends on the payload only through that bit.
  lemma SameBitWritten(data: seq<Byte>, other: seq<Byte>, a: Layout, b: Layout, x: nat, y: nat, i: nat, j: nat)
    requires i < |data| && j < 8 && other == Placed(data, b, y) && !Occupies(b, i, j)
    ensures BitAt(Placed(data, a, x)[i], j) == BitAt(Placed(other, a, x)[i], j)
  {
    var q := 8 * i + if a.order.Intel? then j else 7 - j;
    PlacedByteBit(data, a, x, i, j, q);
    PlacedByteBit(other, a, x, i, j, q);
    OutsideUnchanged(data, b, y, i, j);
    BitOfByte(data, a.order, q, i, j);
    BitOfByte(other, a.order, q, i, j);
  }
}
