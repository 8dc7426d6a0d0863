/// Where the bits of a signal are on the wire: byte and bit of each, counted off from the start bit, without the
/// numbering that the coders work with.
module SignalPlaces {
  import opened Bits
  import opened Words
  import opened Signal

  /// Bit `bit` of byte `byte`, the least significant bit being bit 0.
  datatype Place = Place(byte: nat, bit: nat)

  /// The place of the start bit.
  function First(startBit: nat): Place {
    Place(startBit / 8, startBit % 8)
  }

  /// Intel goes up in a byte and on to bit 0 of the next; Motorola goes down and on to bit 7 of the next.
  function Next(order: ByteOrder, p: Place): Place {
    match order
    case Intel => if p.bit == 7 then Place(p.byte + 1, 0) else Place(p.byte, p.bit + 1)
    case Motorola => if p.bit == 0 then Place(p.byte + 1, 7) else Place(p.byte, p.bit - 1)
  }

  /// The place `n` bits behind the start bit.
  function PlaceOf(l: Layout, n: nat): (p: Place)
    ensures l.startBit / 8 <= p.byte
  {
    if n == 0 then First(l.startBit) else Next(l.order, PlaceOf(l, n - 1))
  }

  /// Which bit of the value that is: Intel starts with the least significant one, Motorola with the most.
  function Weight(l: Layout, n: nat): nat
    requires n < l.length
  {
    if l.order.Intel? then n else l.length - 1 - n
  }

  lemma {:induction false} PlaceNumbered(l: Layout, n: nat)
    ensures var p, q := PlaceOf(l, n), l.Start() + n;
            p.byte == q / 8 && p.bit == (if l.order.Intel? then q % 8 else 7 - q % 8) && p.bit < 8
  {
    if n > 0 {
      PlaceNumbered(l, n - 1);
    }
  }

  lemma PlaceBit(data: seq<Byte>, l: Layout, n: nat)
    requires l.Start() + n < 8 * |data|
    ensures var p := PlaceOf(l, n); p.byte < |data| && PayloadBit(data, l.order, l.Start() + n) == BitAt(data[p.byte], p.bit)
  {
    PlaceNumbered(l, n);
  }

  /// A signal fits exactly if it has 1 to 64 bits and all of them lie in the payload.
  lemma FitsExactly(l: Layout, bytes: nat)
    ensures l.Fits(bytes) <==> 1 <= l.length <= 64 && forall n | 0 <= n < l.length :: PlaceOf(l, n).byte < bytes
  {
    forall n | 0 <= n < l.length
      ensures PlaceOf(l, n).byte == (l.Start() + n) / 8
    {
      PlaceNumbered(l, n);
    }
    if l.length >= 1 {
      assert PlaceOf(l, l.length - 1).byte == (l.End() - 1) / 8;
    }
  }

  /// The value that is decoded has the bits at the signal's places, and no others.
  lemma DecodedBits(data: seq<Byte>, l: Layout)
    requires l.Fits(|data|)
    ensures forall n | 0 <= n < l.length ::
              PlaceOf(l, n).byte < |data|
              && BitAt(Raw(data, l), Weight(l, n)) == BitAt(data[PlaceOf(l, n).byte], PlaceOf(l, n).bit)
    ensures forall i: nat | i >= l.length :: BitAt(Raw(data, l), i) == 0
  {
    RawBits(data, l);
    forall n | 0 <= n < l.length
      ensures PlaceOf(l, n).byte < |data|
      ensures BitAt(Raw(data, l), Weight(l, n)) == BitAt(data[PlaceOf(l, n).byte], PlaceOf(l, n).bit)
    {
      PlaceBit(data, l, n);
      assert l.Position(Weight(l, n)) == l.Start() + n;
    }
  }

  /// No other value has them: the bits decide it.
  lemma DecodedExactly(data: seq<Byte>, l: Layout, r: nat)
    requires l.Fits(|data|)
    requires forall n | 0 <= n < l.length ::
               PlaceOf(l, n).byte < |data| && BitAt(r, Weight(l, n)) == BitAt(data[PlaceOf(l, n).byte], PlaceOf(l, n).bit)
    requires forall i: nat | i >= l.length :: BitAt(r, i) == 0
    ensures r == Raw(data, l)
  {
    DecodedBits(data, l);
    forall i: nat
      ensures BitAt(r, i) == BitAt(Raw(data, l), i)
    {
      if i < l.length {
        var n := if l.order.Intel? then i else l.length - 1 - i;
        assert Weight(l, n) == i;
      }
    }
    SameBits(r, Raw(data, l));
  }

  lemma AtPlace(data: seq<Byte>, l: Layout, raw: nat, n: nat, i: nat, q: nat)
    requires l.Fits(|data|) && n < l.length && i == Weight(l, n) && q == l.Start() + n
    ensures PayloadBit(Placed(data, l, raw), l.order, q) == BitAt(raw, i)
  {
    PlacedAtPosition(data, l, raw, i, q);
  }

  lemma EncodedPlace(data: seq<Byte>, l: Layout, raw: nat, n: nat, p: Place)
    requires l.Fits(|data|) && n < l.length && p == PlaceOf(l, n)
    ensures p.byte < |data| && BitAt(Placed(data, l, raw)[p.byte], p.bit) == BitAt(raw, Weight(l, n))
  {
    PlaceBit(Placed(data, l, raw), l, n);
    AtPlace(data, l, raw, n, Weight(l, n), l.Start() + n);
  }

  /// Encoding puts the bits of the value at the signal's places ...
  lemma EncodedBits(data: seq<Byte>, l: Layout, raw: nat)
    requires l.Fits(|data|)
    ensures |Placed(data, l, raw)| == |data|
    ensures forall n | 0 <= n < l.length ::
              PlaceOf(l, n).byte < |data|
              && BitAt(Placed(data, l, raw)[PlaceOf(l, n).byte], PlaceOf(l, n).bit) == BitAt(raw, Weight(l, n))
  {
    forall n | 0 <= n < l.length
      ensures PlaceOf(l, n).byte < |data|
      ensures BitAt(Placed(data, l, raw)[PlaceOf(l, n).byte], PlaceOf(l, n).bit) == BitAt(raw, Weight(l, n))
    {
      EncodedPlace(data, l, raw, n, PlaceOf(l, n));
    }
  }

  /// ... and changes no other bit of the payload.
  lemma OtherBitsStay(data: seq<Byte>, l: Layout, raw: nat, i: nat, j: nat)
    requires i < |data| && j < 8 && forall n | 0 <= n < l.length :: PlaceOf(l, n) != Place(i, j)
    ensures BitAt(Placed(data, l, raw)[i], j) == BitAt(data[i], j)
  {
    OccupiesPlaces(l, i, j);
    OutsideUnchanged(data, l, raw, i, j);
  }

  /// A bit belongs to a signal exactly if it is one of its places.
  lemma OccupiesPlaces(l: Layout, i: nat, j: nat)
    requires j < 8
    ensures Occupies(l, i, j) <==> exists n :: 0 <= n < l.length && PlaceOf(l, n) == Place(i, j)
  {
    var q := 8 * i + if l.order.Intel? then j else 7 - j;
    if Occupies(l, i, j) {
      PlaceNumbered(l, q - l.Start());
      assert PlaceOf(l, q - l.Start()) == Place(i, j);
    }
    if n :| 0 <= n < l.length && PlaceOf(l, n) == Place(i, j) {
      PlaceNumbered(l, n);
      assert q == l.Start() + n;
    }
  }
}
