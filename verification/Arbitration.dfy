/// Bit-serial arbitration on a wired-AND bus, and the proof that comparing arbitration keys decides
/// it: what transport/src/VirtualBus.cpp computes with one number is what the bits would do.
module Arbitration {
  import opened Bits
  import opened Frame

  const FIELD_BITS: nat := 30

  /// The arbitration field as it is sent, most significant bit first: base, IDE, and the extension
  /// of an extended identifier.
  ghost function Field(id: CanId): seq<Bit> {
    MsbBits(id.Base(), 11) + [if id.Extended? then 1 else 0] + if id.Extended? then MsbBits(id.Extension(), 18) else []
  }

  /// Whether node `i` is still sending its field at bit `n`, and the bit is recessive (1) there.
  ghost predicate Recessive(ids: seq<CanId>, n: nat, i: nat)
    requires i < |ids|
  {
    n < |Field(ids[i])| && Field(ids[i])[n] == 1
  }

  ghost predicate Dominant(ids: seq<CanId>, n: nat, i: nat)
    requires i < |ids|
  {
    n < |Field(ids[i])| && Field(ids[i])[n] == 0
  }

  /// Node `i` has not dropped out before bit `n`: whenever it sent a recessive bit, so did every
  /// node that was still in.
  ghost predicate Active(ids: seq<CanId>, n: nat, i: nat)
    requires i < |ids|
    decreases n, 0
  {
    n == 0 || (Active(ids, n - 1, i) && (Recessive(ids, n - 1, i) ==> !DominantLevel(ids, n - 1)))
  }

  /// The wire is dominant at bit `n` when any node that is still in sends a dominant bit.
  ghost predicate DominantLevel(ids: seq<CanId>, n: nat)
    decreases n, 1
  {
    exists j: nat | j < |ids| :: Active(ids, n, j) && Dominant(ids, n, j)
  }

  /// Node `i` agrees with node `w` on the first `n` bits of their keys.
  ghost predicate Agrees(ids: seq<CanId>, n: nat, w: nat, i: nat)
    requires i < |ids| && w < |ids| && n <= FIELD_BITS
  {
    KeyBits(ids[i])[..n] == KeyBits(ids[w])[..n]
  }

  ghost function KeyBits(id: CanId): (r: seq<Bit>)
    ensures |r| == FIELD_BITS
  {
    MsbBits(id.ArbitrationKey(), FIELD_BITS)
  }

  // ---- The field and the key ----

  lemma {:induction false} ShlIsTimes(a: nat, n: nat)
    ensures Shl(a, n) == a * Pow2(n)
  {
    if n != 0 {
      ShlIsTimes(a, n - 1);
    }
  }

  lemma {:induction false} MsbConcat(v: nat, hi: nat, lo: nat, m: nat, n: nat, all: nat)
    requires lo < Pow2(n) && v == Shl(hi, n) + lo && all == m + n
    ensures MsbBits(v, all) == MsbBits(hi, m) + MsbBits(lo, n)
  {
    if n == 0 {
      assert MsbBits(lo, n) == [];
    } else {
      MsbConcat(v / 2, hi, lo / 2, m, n - 1, all - 1);
    }
  }

  lemma Powers()
    ensures Pow2(1) == 2 && Pow2(18) == EXTENSIONS && Pow2(30) == 4096 * EXTENSIONS
  {
    SixteenBits();
    assert Pow2(18) == 4 * Pow2(16);
    ShlIsTimes(Pow2(18), 12);
    ShlShl(1, 18, 12);
    assert Pow2(4) == 16;
    assert Pow2(12) == 4096;
  }

  /// The key's bits are the base, the IDE bit and the extension.
  lemma KeyInParts(id: CanId, ide: nat)
    requires ide == if id.Extended? then 1 else 0
    ensures KeyBits(id) == MsbBits(id.Base(), 11) + MsbBits(ide, 1) + MsbBits(id.Extension(), 18)
    ensures id.ArbitrationKey() < Pow2(FIELD_BITS)
  {
    KeyParts(id);
    var head := 2 * id.Base() + ide;
    Powers();
    ShlIsTimes(head, 18);
    ShlIsTimes(id.Base(), 1);
    MsbConcat(id.ArbitrationKey(), head, id.Extension(), 12, 18, 30);
    MsbConcat(head, id.Base(), ide, 11, 1, 12);
  }

  /// The field is the key's bits; a standard identifier stops after IDE.
  lemma FieldOfKey(id: CanId)
    ensures |Field(id)| == if id.Extended? then 30 else 12
    ensures Field(id) == KeyBits(id)[..|Field(id)|]
    ensures KeyBits(id)[11] == if id.Extended? then 1 else 0
  {
    var ide := if id.Extended? then 1 else 0;
    KeyInParts(id, ide);
    assert MsbBits(ide, 1) == [ide as Bit];
  }

  lemma SameKeyBits(a: CanId, b: CanId)
    requires KeyBits(a) == KeyBits(b)
    ensures a == b
  {
    KeyInParts(a, if a.Extended? then 1 else 0);
    KeyInParts(b, if b.Extended? then 1 else 0);
    MsbValueOfBits(a.ArbitrationKey(), FIELD_BITS);
    MsbValueOfBits(b.ArbitrationKey(), FIELD_BITS);
    KeyInjective(a, b);
  }

  /// Two standard identifiers with the same first twelve key bits have the same key.
  lemma StandardIsShort(a: CanId, b: CanId)
    requires a.Standard? && b.Standard? && KeyBits(a)[..12] == KeyBits(b)[..12]
    ensures a == b
  {
    KeyInParts(a, 0);
    KeyInParts(b, 0);
    assert KeyBits(a) == KeyBits(a)[..12] + MsbBits(0, 18);
    assert KeyBits(b) == KeyBits(b)[..12] + MsbBits(0, 18);
    SameKeyBits(a, b);
  }

  /// The number with the first dominant bit is the smaller one.
  lemma {:induction false} FirstDifference(a: seq<Bit>, b: seq<Bit>, n: nat)
    requires |a| == |b| && n < |a| && a[..n] == b[..n] && a[n] == 1 && b[n] == 0
    ensures MsbValue(a) > MsbValue(b)
  {
    var last := |a| - 1;
    if n == last {
      assert a[..last] == b[..last];
    } else {
      assert a[..last][..n] == a[..n] && b[..last][..n] == b[..n];
      FirstDifference(a[..last], b[..last], n);
    }
  }

  // ---- The winner ----

  ghost predicate Lowest(ids: seq<CanId>, w: nat) {
    w < |ids| && forall i | 0 <= i < |ids| :: ids[w].ArbitrationKey() <= ids[i].ArbitrationKey()
  }

  /// At a bit where the winner is recessive, so is every node that agrees with it so far.
  lemma NobodyBelow(ids: seq<CanId>, w: nat, i: nat, n: nat)
    requires Lowest(ids, w) && i < |ids| && n < FIELD_BITS && Agrees(ids, n, w, i) && KeyBits(ids[w])[n] == 1
    ensures KeyBits(ids[i])[n] == 1
  {
    if KeyBits(ids[i])[n] == 0 {
      FirstDifference(KeyBits(ids[w]), KeyBits(ids[i]), n);
      KeyInParts(ids[w], if ids[w].Extended? then 1 else 0);
      KeyInParts(ids[i], if ids[i].Extended? then 1 else 0);
      MsbValueOfBits(ids[w].ArbitrationKey(), FIELD_BITS);
      MsbValueOfBits(ids[i].ArbitrationKey(), FIELD_BITS);
    }
  }

  /// Nodes that agree so far are all still sending, or all done with the same identifier.
  lemma SendTogether(ids: seq<CanId>, w: nat, i: nat, n: nat)
    requires w < |ids| && i < |ids| && n < FIELD_BITS && Agrees(ids, n, w, i)
    ensures n < |Field(ids[w])| ==> n < |Field(ids[i])| && Field(ids[i])[n] == KeyBits(ids[i])[n]
    ensures n >= |Field(ids[w])| ==> ids[i] == ids[w]
  {
    FieldOfKey(ids[w]);
    FieldOfKey(ids[i]);
    if n >= 12 {
      assert KeyBits(ids[i])[..n][11] == KeyBits(ids[w])[..n][11];
      if ids[w].Standard? {
        assert KeyBits(ids[i])[..n][..12] == KeyBits(ids[i])[..12] && KeyBits(ids[w])[..n][..12] == KeyBits(ids[w])[..12];
        StandardIsShort(ids[i], ids[w]);
      }
    }
  }

  lemma AgreesStep(ids: seq<CanId>, n: nat, w: nat, i: nat)
    requires w < |ids| && i < |ids| && n < FIELD_BITS
    ensures Agrees(ids, n + 1, w, i) <==> Agrees(ids, n, w, i) && KeyBits(ids[i])[n] == KeyBits(ids[w])[n]
  {
    var a, b := KeyBits(ids[i]), KeyBits(ids[w]);
    assert a[..n + 1] == a[..n] + [a[n]] && b[..n + 1] == b[..n] + [b[n]];
  }

  /// The nodes that are still in after `n` bits are those that have sent the same bits as the one
  /// with the lowest key.
  lemma {:induction false} ActiveAgrees(ids: seq<CanId>, n: nat, w: nat, i: nat)
    requires Lowest(ids, w) && i < |ids| && n <= FIELD_BITS
    ensures Active(ids, n, i) <==> Agrees(ids, n, w, i)
    decreases n
  {
    if n > 0 {
      var m := n - 1;
      forall j: nat | j < |ids|
        ensures Active(ids, m, j) <==> Agrees(ids, m, w, j)
      {
        ActiveAgrees(ids, m, w, j);
      }
      AgreesStep(ids, m, w, i);
      LevelIsWinners(ids, m, w);
      if Agrees(ids, m, w, i) {
        SendTogether(ids, w, i, m);
        if KeyBits(ids[w])[m] == 1 {
          NobodyBelow(ids, w, i, m);
        }
      }
    }
  }

  /// The wire carries the winner's bit.
  lemma LevelIsWinners(ids: seq<CanId>, m: nat, w: nat)
    requires Lowest(ids, w) && m < FIELD_BITS
    requires forall j: nat | j < |ids| :: Active(ids, m, j) <==> Agrees(ids, m, w, j)
    ensures m < |Field(ids[w])| ==> (DominantLevel(ids, m) <==> KeyBits(ids[w])[m] == 0)
    ensures m >= |Field(ids[w])| ==> !DominantLevel(ids, m)
  {
    SendTogether(ids, w, w, m);
    assert Active(ids, m, w);
    forall j: nat | j < |ids| && Active(ids, m, j)
      ensures m < |Field(ids[w])| && KeyBits(ids[w])[m] == 1 ==> !Dominant(ids, m, j)
      ensures m >= |Field(ids[w])| ==> !Dominant(ids, m, j)
    {
      SendTogether(ids, w, j, m);
      if m < |Field(ids[w])| && KeyBits(ids[w])[m] == 1 {
        NobodyBelow(ids, w, j, m);
      }
    }
    if m < |Field(ids[w])| && KeyBits(ids[w])[m] == 0 {
      assert Dominant(ids, m, w);
    }
  }

  /// The nodes left when the fields are over are exactly those that sent the lowest identifier.
  lemma LowestKeySurvives(ids: seq<CanId>, w: nat, i: nat)
    requires Lowest(ids, w) && i < |ids|
    ensures Active(ids, FIELD_BITS, i) <==> ids[i] == ids[w]
  {
    ActiveAgrees(ids, FIELD_BITS, w, i);
    assert KeyBits(ids[i])[..FIELD_BITS] == KeyBits(ids[i]) && KeyBits(ids[w])[..FIELD_BITS] == KeyBits(ids[w]);
    if KeyBits(ids[i]) == KeyBits(ids[w]) {
      SameKeyBits(ids[i], ids[w]);
    }
  }
}
