/// CAN identifiers and frames, as core/include/canforge/core/Frame.hpp defines them.
module Frame {
  import opened Bits
  import opened Words

  const STANDARD_IDS: nat := 2048
  const EXTENDED_IDS: nat := 536870912
  const EXTENSIONS: nat := 262144
  const EFF_FLAG: nat := 2147483648

  datatype AnyId = Standard(value: nat) | Extended(value: nat) {
    predicate InRange() {
      value < if Standard? then STANDARD_IDS else EXTENDED_IDS
    }

    /// Bit 31 marks an extended identifier.
    function Packed(): nat {
      if Extended? then value + EFF_FLAG else value
    }

    /// The eleven base bits.
    function Base(): nat {
      if Extended? then value / EXTENSIONS else value
    }

    /// The eighteen extension bits.
    function Extension(): nat {
      if Extended? then value % EXTENSIONS else 0
    }

    /// `arbitration_key`: base, then IDE, then extension; lower wins.
    function ArbitrationKey(): nat {
      2 * EXTENSIONS * Base() + (if Extended? then EXTENSIONS else 0) + Extension()
    }
  }

  type CanId = i: AnyId | i.InRange() witness Standard(0)

  datatype Flags = Flags(rtr: bool, error: bool, fd: bool, brs: bool, esi: bool)

  datatype Frame = Frame(id: CanId, dlc: nat, flags: Flags, data: seq<Byte>, timestamp: nat) {
    /// Valid payload bytes: none in a remote frame.
    function Size(): nat {
      if flags.rtr then 0 else DlcToLength(dlc, flags.fd)
    }
  }

  /// ISO 11898-1:2015 table 5; a classic frame carries eight bytes for every code above eight.
  function DlcToLength(dlc: nat, fd: bool): nat {
    if dlc > 15 then 0
    else if dlc <= 8 then dlc
    else if !fd then 8
    else if dlc <= 12 then 4 * (dlc - 6)
    else if dlc == 13 then 32
    else if dlc == 14 then 48
    else 64
  }

  /// A SocketCAN-style acceptance filter.
  datatype Filter = Filter(id: nat, mask: nat, invert: bool, matchFormat: bool) {
    predicate Accepts(candidate: CanId) {
      var effective := if matchFormat then mask else And(mask, EXTENDED_IDS - 1);
      (And(candidate.Packed(), effective) == And(id, effective)) != invert
    }
  }

  /// `accepted_by`: any one filter is enough, and no filters accept everything.
  predicate AcceptedBy(filters: seq<Filter>, id: CanId) {
    filters == [] || exists k | 0 <= k < |filters| :: filters[k].Accepts(id)
  }

  // ---- Filters, bit by bit ----

  /// Bit `b` of an identifier: its value in bits 0 to 28, and bit 31 set if it is an extended one.
  function IdBit(id: CanId, b: nat): Bit {
    if b == 31 then (if id.Extended? then 1 else 0) else if b <= 28 then BitAt(id.value, b) else 0
  }

  /// The bits a filter looks at: those of its mask, but only the 29 of a value unless it matches the format.
  predicate LooksAt(f: Filter, b: nat) {
    BitAt(f.mask, b) == 1 && (b <= 28 || f.matchFormat)
  }

  /// The identifier agrees with the filter wherever the filter looks.
  ghost predicate Agrees(f: Filter, id: CanId) {
    forall b: nat | LooksAt(f, b) :: BitAt(f.id, b) == IdBit(id, b)
  }

  lemma WordPowers()
    ensures Pow2(29) == EXTENDED_IDS && Pow2(31) == EFF_FLAG
  {
    SixteenBits();
    assert Pow2(20) == 1048576;
    assert Pow2(24) == 16777216;
    assert Pow2(28) == 268435456;
  }

  lemma PackedBit(id: CanId, b: nat)
    ensures BitAt(id.Packed(), b) == IdBit(id, b)
  {
    WordPowers();
    if id.Extended? {
      FlaggedBit(id.value, 31, b);
    }
    if b > 28 {
      BitBeyond(id.value, 29, b);
    }
  }

  lemma OneBit(b: nat)
    ensures BitAt(1, b) == if b == 0 then 1 else 0
  {
    if b > 0 {
      BitOfHalf(1, b);
      BitOfZero(b - 1);
    }
  }

  /// A number with bit `n` added on top.
  lemma {:induction false} FlaggedBit(v: nat, n: nat, b: nat)
    requires v < Pow2(n)
    ensures BitAt(v + Pow2(n), b) == if b == n then 1 else BitAt(v, b)
  {
    if n == 0 {
      OneBit(b);
      BitOfZero(b);
    } else if b > 0 {
      FlaggedBit(v / 2, n - 1, b - 1);
      BitOfHalf(v, b);
      BitOfHalf(v + Pow2(n), b);
    }
  }

  lemma EffectiveBit(f: Filter, b: nat)
    ensures BitAt(if f.matchFormat then f.mask else And(f.mask, EXTENDED_IDS - 1), b) == if LooksAt(f, b) then 1 else 0
  {
    WordPowers();
    OnesBit(29, b);
    AndBit(f.mask, EXTENDED_IDS - 1, b);
  }

  lemma SameUnderMask(a: nat, c: nat, mask: nat)
    ensures And(a, mask) == And(c, mask) <==> forall b: nat | BitAt(mask, b) == 1 :: BitAt(a, b) == BitAt(c, b)
  {
    forall b: nat
      ensures BitAt(And(a, mask), b) == (if BitAt(a, b) == 1 && BitAt(mask, b) == 1 then 1 else 0)
      ensures BitAt(And(c, mask), b) == (if BitAt(c, b) == 1 && BitAt(mask, b) == 1 then 1 else 0)
    {
      AndBit(a, mask, b);
      AndBit(c, mask, b);
    }
    if forall b: nat | BitAt(mask, b) == 1 :: BitAt(a, b) == BitAt(c, b) {
      SameBits(And(a, mask), And(c, mask));
    }
  }

  /// A filter that is not inverted accepts exactly the identifiers that agree with it, and an inverted one
  /// exactly the others.
  lemma AcceptsByBits(f: Filter, id: CanId)
    ensures f.Accepts(id) <==> (if f.invert then !Agrees(f, id) else Agrees(f, id))
  {
    var effective := if f.matchFormat then f.mask else And(f.mask, EXTENDED_IDS - 1);
    SameUnderMask(id.Packed(), f.id, effective);
    forall b: nat
      ensures BitAt(effective, b) == 1 <==> LooksAt(f, b)
      ensures BitAt(id.Packed(), b) == IdBit(id, b)
    {
      EffectiveBit(f, b);
      PackedBit(id, b);
    }
  }

  /// The filter `exact` makes for an identifier accepts that one alone.
  lemma ExactFilter(wanted: CanId, id: CanId)
    ensures Filter(wanted.Packed(), EXTENDED_IDS - 1 + EFF_FLAG, false, true).Accepts(id) <==> id == wanted
  {
    var f := Filter(wanted.Packed(), EXTENDED_IDS - 1 + EFF_FLAG, false, true);
    WordPowers();
    AcceptsByBits(f, id);
    if Agrees(f, id) {
      forall b: nat
        ensures BitAt(id.Packed(), b) == BitAt(wanted.Packed(), b)
      {
        FlaggedBit(EXTENDED_IDS - 1, 31, b);
        OnesBit(29, b);
        PackedBit(id, b);
        PackedBit(wanted, b);
      }
      SameBits(id.Packed(), wanted.Packed());
    }
    forall b: nat | LooksAt(f, b) && id == wanted
      ensures BitAt(f.id, b) == IdBit(id, b)
    {
      PackedBit(id, b);
    }
  }

  /// Some filter lets the identifier through, or there is none.
  ghost predicate Admitted(filters: seq<Filter>, id: CanId) {
    filters == [] || exists k :: 0 <= k < |filters| && (filters[k].invert <==> !Agrees(filters[k], id))
  }

  lemma AcceptedByBits(filters: seq<Filter>, id: CanId)
    ensures AcceptedBy(filters, id) <==> Admitted(filters, id)
  {
    forall k | 0 <= k < |filters|
      ensures filters[k].Accepts(id) <==> (filters[k].invert <==> !Agrees(filters[k], id))
    {
      AcceptsByBits(filters[k], id);
    }
  }

  /// The scan of `accepted_by`.
  method CheckFilters(filters: seq<Filter>, id: CanId) returns (r: bool)
    ensures r == AcceptedBy(filters, id)
    ensures r <==> Admitted(filters, id)
  {
    AcceptedByBits(filters, id);
    if filters == [] {
      return true;
    }
    for k := 0 to |filters|
      invariant forall j | 0 <= j < k :: !filters[j].Accepts(id)
    {
      if filters[k].Accepts(id) {
        return true;
      }
    }
    return false;
  }

  /// The key tells identifiers apart.
  lemma KeyInjective(a: CanId, b: CanId)
    requires a.ArbitrationKey() == b.ArbitrationKey()
    ensures a == b
  {
    KeyParts(a);
    KeyParts(b);
  }

  lemma KeyParts(a: CanId)
    ensures a.Extension() < EXTENSIONS && a.Base() < STANDARD_IDS
    ensures a.ArbitrationKey() / (2 * EXTENSIONS) == a.Base()
    ensures a.ArbitrationKey() % (2 * EXTENSIONS) == (if a.Extended? then EXTENSIONS else 0) + a.Extension()
    ensures a.Extended? ==> a.value == EXTENSIONS * a.Base() + a.Extension()
  {
  }

  /// Keys are in the order of arbitration: the lower base wins; with the same base a standard identifier wins over an
  /// extended one, and among extended ones the lower extension.
  lemma KeyOrder(a: CanId, b: CanId)
    ensures a.ArbitrationKey() < b.ArbitrationKey()
       <==> var (p, q) := (if a.Extended? then a.value / 262144 else a.value, if b.Extended? then b.value / 262144 else b.value);
            p < q || (p == q && b.Extended? && (a.Standard? || a.value % 262144 < b.value % 262144))
  {
    KeyParts(a);
    KeyParts(b);
  }
}
