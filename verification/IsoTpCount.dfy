/// How many frames an ISO-TP transfer takes.
module IsoTpCount {
  import opened Bits
  import opened IsoTp
  import opened IsoTpFrames
  import opened IsoTpLink

  /// The Consecutive Frames the transfer needs.
  function Consecutives(t: Transfer): nat {
    (if |t.message| > t.FirstRoom() then |t.message| - t.FirstRoom() + t.Room() - 1 else 0) / t.Room()
  }

  lemma {:induction false} CapacityFormula(t: Transfer, j: nat)
    requires j >= 1
    ensures t.Room() == 6 ==> Capacity(t, j) == t.FirstRoom() + 6 * (j - 1)
    ensures t.Room() == 7 ==> Capacity(t, j) == t.FirstRoom() + 7 * (j - 1)
  {
    if j > 1 {
      CapacityFormula(t, j - 1);
    }
  }

  lemma {:induction false} OffsetIsCapacity(t: Transfer, j: nat)
    requires t.Segmented()
    ensures j >= 1 ==> t.Offset(j) == Min(Capacity(t, j), |t.message|)
  {
    if j >= 2 {
      OffsetIsCapacity(t, j - 1);
    }
  }

  /// Frame `j` exists exactly up to that count.
  lemma FrameCount(t: Transfer, j: nat)
    requires t.Segmented()
    ensures t.Has(j) <==> j <= Consecutives(t)
    ensures Consecutives(t) >= 1
  {
    var rest, room := |t.message| - t.FirstRoom(), t.Room();
    assert t.FirstRoom() < |t.message|;
    RoundedUp(rest, room, if j >= 1 then j - 1 else 0);
    RoundedUp(rest, room, 0);
    if j >= 1 {
      OffsetIsCapacity(t, j);
      CapacityFormula(t, j);
    }
  }

  lemma RoundedUp(rest: nat, room: nat, k: nat)
    requires 6 <= room <= 7
    ensures room == 6 ==> (6 * k < rest <==> k + 1 <= (rest + room - 1) / room)
    ensures room == 7 ==> (7 * k < rest <==> k + 1 <= (rest + room - 1) / room)
  {
    if room == 6 {
      assert (rest + room - 1) / room == (rest + 5) / 6;
    } else {
      assert (rest + room - 1) / room == (rest + 6) / 7;
    }
  }

  /// Only the length of the message matters.
  lemma {:induction false} OffsetsByLength(t: Transfer, u: Transfer, j: nat)
    requires t.Segmented() && u.Segmented() && t.out == u.out && |t.message| == |u.message|
    ensures t.Offset(j) == u.Offset(j)
  {
    if j > 1 {
      OffsetsByLength(t, u, j - 1);
    }
  }
}
