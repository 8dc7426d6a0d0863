/// The overlap check of core/src/Database.cpp, on bitmaps of the payload.
module Overlap {
  import opened Bits
  import opened Words
  import opened Signal

  const PAYLOAD_BYTES: nat := 64

  /// The bitmap shows the bits of `l` at canonical positions below `end`.
  ghost predicate Marked(l: Layout, end: nat, marks: seq<Byte>) {
    |marks| == PAYLOAD_BYTES
    && forall i: nat, j: nat | i < PAYLOAD_BYTES && j < 8 ::
         BitAt(marks[i], j) == if Occupies(l, i, j) && Canonical(l, i, j) < end then 1 else 0
  }

  /// The canonical position of physical bit `j` of byte `i`.
  function Canonical(l: Layout, i: nat, j: nat): nat
    requires j < 8
  {
    8 * i + if l.order.Intel? then j else 7 - j
  }

  lemma SetBitBit(was: Byte, j: nat, b: Byte, x: nat)
    requires j < 8 && x < 8 && b == ToByte(Or(was, Shl(1, j)))
    ensures BitAt(b, x) == if x == j then 1 else BitAt(was, x)
  {
    ToByteBit(Or(was, Shl(1, j)), x);
    OrBit(was, Shl(1, j), x);
    ShlBit(1, j, x);
    if x > j {
      BitOfHalf(1, x - j);
      BitOfZero(x - j - 1);
    }
  }

  lemma MarkedStep(l: Layout, q: nat, marks: seq<Byte>, i: nat, j: nat, b: Byte)
    requires l.Covers(q) && Marked(l, q, marks) && i == q / 8 < PAYLOAD_BYTES
    requires j == (if l.order.Intel? then q % 8 else 7 - q % 8) && b == ToByte(Or(marks[i], Shl(1, j)))
    ensures Marked(l, q + 1, marks[i := b])
  {
    forall y: nat, x: nat | y < PAYLOAD_BYTES && x < 8
      ensures BitAt(marks[i := b][y], x) == if Occupies(l, y, x) && Canonical(l, y, x) < q + 1 then 1 else 0
    {
      assert Canonical(l, y, x) == q <==> y == i && x == j;
      if y == i {
        SetBitBit(marks[i], j, b, x);
      }
    }
  }

  /// `mark_bits`: positions past the bitmap are dropped.
  method MarkBits(l: Layout) returns (bits: array<Byte>)
    ensures fresh(bits) && Marked(l, l.End(), bits[..])
  {
    bits := new Byte[PAYLOAD_BYTES](_ => 0);
    forall j: nat
      ensures BitAt(0, j) == 0
    {
      BitOfZero(j);
    }
    for k := 0 to l.length
      invariant Marked(l, l.Start() + k, bits[..])
    {
      var q := l.Start() + k;
      if q / 8 >= bits.Length {
        return;
      }
      var byte, bit := q / 8, if l.order.Intel? then q % 8 else 7 - q % 8;
      var b := ToByte(Or(bits[byte], Shl(1, bit)));
      ghost var was := bits[..];
      MarkedStep(l, q, was, byte, bit, b);
      bits[byte] := b;
      assert bits[..] == was[byte := b];
    }
  }

  lemma SharedBit(a: Byte, b: Byte) returns (j: nat)
    requires And(a, b) != 0
    ensures j < 8 && BitAt(a, j) == 1 && BitAt(b, j) == 1
  {
    j := SetBit(And(a, b));
    AndBit(a, b, j);
    if j >= 8 {
      ByteBit(a, j);
    }
  }

  lemma {:induction false} SetBit(a: nat) returns (j: nat)
    requires a != 0
    ensures BitAt(a, j) == 1
  {
    if a % 2 == 1 {
      j := 0;
    } else {
      j := SetBit(a / 2);
      j := j + 1;
      BitOfHalf(a, j);
    }
  }

  /// `overlaps`: true exactly when some physical bit of the payload belongs to both signals.
  method Overlaps(a: Layout, b: Layout) returns (r: bool)
    ensures r <==> !Disjoint(a, b, PAYLOAD_BYTES)
  {
    var x := MarkBits(a);
    var y := MarkBits(b);
    for i := 0 to PAYLOAD_BYTES
      invariant Disjoint(a, b, i)
    {
      if And(x[i], y[i]) != 0 {
        ghost var j := SharedBit(x[i], y[i]);
        return true;
      }
      forall j: nat | j < 8
        ensures !(Occupies(a, i, j) && Occupies(b, i, j))
      {
        AndBit(x[i], y[i], j);
        BitOfZero(j);
      }
    }
    r := false;
  }

  /// What the check promises: signals it reports clear of each other can be written in either
  /// order, and each keeps its value.
  lemma ClearOfEachOther(data: seq<Byte>, a: Layout, b: Layout, x: nat, y: nat)
    requires |data| <= PAYLOAD_BYTES && a.Fits(|data|) && b.Fits(|data|) && Disjoint(a, b, PAYLOAD_BYTES)
    ensures Placed(Placed(data, a, x), b, y) == Placed(Placed(data, b, y), a, x)
    ensures Raw(Placed(Placed(data, a, x), b, y), a) == And(x, BitMask(a.length))
    ensures Raw(Placed(Placed(data, a, x), b, y), b) == And(y, BitMask(b.length))
  {
    WritesCommute(data, a, b, x, y);
    RoundTrip(data, a, x);
    OthersKeepTheirValue(Placed(data, a, x), b, a, y);
    RoundTrip(Placed(data, a, x), b, y);
  }
}
