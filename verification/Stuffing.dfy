/// CAN bit stuffing, and the worst case that transport/src/IBus.cpp computes for it.
module Stuffing {
  import opened Bits
  import Frame
  import Timing

  /// The bit sender: after five equal bits it inserts their complement, which counts as the first of the
  /// next run. `run` bits equal to `last` have just been sent.
  function Stuff(bits: seq<Bit>, run: nat, last: Bit): seq<Bit> {
    if bits == [] then []
    else
      var b := bits[0];
      var r := if run > 0 && b == last then run + 1 else 1;
      if r == 5 then [b, 1 - b] + Stuff(bits[1..], 1, 1 - b) else [b] + Stuff(bits[1..], r, b)
  }

  /// The receiver: the bit after five equal bits is left out.
  function Unstuff(wire: seq<Bit>, run: nat, last: Bit): seq<Bit>
    decreases |wire|
  {
    if wire == [] then []
    else
      var b := wire[0];
      var r := if run > 0 && b == last then run + 1 else 1;
      if r == 5 && |wire| >= 2 then [b] + Unstuff(wire[2..], 1, wire[1])
      else [b] + Unstuff(wire[1..], r, b)
  }

  /// What is sent for a whole stuffed region.
  function OnWire(bits: seq<Bit>): seq<Bit> {
    Stuff(bits, 0, 0)
  }

  /// How many bits were inserted.
  function Inserted(bits: seq<Bit>): int {
    |OnWire(bits)| - |bits|
  }

  lemma {:induction false} RoundTrip(bits: seq<Bit>, run: nat, last: Bit)
    requires run <= 4
    ensures Unstuff(Stuff(bits, run, last), run, last) == bits
  {
    if bits != [] {
      var b := bits[0];
      var r := if run > 0 && b == last then run + 1 else 1;
      var rest := if r == 5 then Stuff(bits[1..], 1, 1 - b) else Stuff(bits[1..], r, b);
      if r == 5 {
        RoundTrip(bits[1..], 1, 1 - b);
        assert ([b, 1 - b] + rest)[2..] == rest;
      } else {
        RoundTrip(bits[1..], r, b);
        assert ([b] + rest)[1..] == rest;
      }
    }
  }

  /// No six equal bits in a row.
  ghost predicate ShortRuns(wire: seq<Bit>, run: nat, last: Bit) {
    run <= 5
    && (wire == [] || ShortRuns(wire[1..], if run > 0 && wire[0] == last then run + 1 else 1, wire[0]))
  }

  lemma {:induction false} NoSixEqual(bits: seq<Bit>, run: nat, last: Bit)
    requires run <= 4
    ensures ShortRuns(Stuff(bits, run, last), run, last)
  {
    if bits != [] {
      var b := bits[0];
      var r := if run > 0 && b == last then run + 1 else 1;
      if r == 5 {
        var rest := Stuff(bits[1..], 1, 1 - b);
        NoSixEqual(bits[1..], 1, 1 - b);
        assert ([b, 1 - b] + rest)[1..] == [1 - b] + rest && ([1 - b] + rest)[1..] == rest;
      } else {
        NoSixEqual(bits[1..], r, b);
        assert ([b] + Stuff(bits[1..], r, b))[1..] == Stuff(bits[1..], r, b);
      }
    }
  }

  // ---- The bound ----

  /// From a run of `run` equal bits, `n` more bits cannot force more than this many insertions.
  lemma {:induction false} InsertedFrom(bits: seq<Bit>, run: nat, last: Bit)
    requires run <= 4 && (run == 0 ==> bits != [])
    ensures |Stuff(bits, run, last)| - |bits| <= (|bits| + run - 1) / 4
  {
    if bits != [] {
      var b := bits[0];
      var r := if run > 0 && b == last then run + 1 else 1;
      if r == 5 {
        InsertedFrom(bits[1..], 1, 1 - b);
      } else {
        InsertedFrom(bits[1..], r, b);
      }
    }
  }

  /// `worst_case_stuff_bits` bounds the insertions in every bit string.
  lemma AtMostTheWorstCase(bits: seq<Bit>)
    ensures Inserted(bits) <= Timing.WorstCaseStuffBits(|bits|)
  {
    if bits != [] {
      InsertedFrom(bits, 0, 0);
    }
  }

  // ---- The bound is reached ----

  /// Groups of four equal bits, alternating.
  function Alternating(n: nat, b: Bit): (r: seq<Bit>)
    ensures |r| == n
  {
    if n < 4 then seq(n, _ => b) else [b, b, b, b] + Alternating(n - 4, 1 - b)
  }

  function Worst(n: nat): (r: seq<Bit>)
    requires n >= 1
    ensures |r| == n
  {
    [0] + Alternating(n - 1, 0)
  }

  lemma {:induction false} AlternatingForces(n: nat, b: Bit)
    ensures |Stuff(Alternating(n, b), 1, b)| == n + n / 4
  {
    if n < 4 {
      FewBits(Alternating(n, b), b, 1);
    } else {
      var rest := Alternating(n - 4, 1 - b);
      AlternatingForces(n - 4, 1 - b);
      FourBits(rest, b);
    }
  }

  lemma {:induction false} FewBits(bits: seq<Bit>, b: Bit, run: nat)
    requires 1 <= run && run + |bits| <= 4 && forall i | 0 <= i < |bits| :: bits[i] == b
    ensures |Stuff(bits, run, b)| == |bits|
  {
    if bits != [] {
      FewBits(bits[1..], b, run + 1);
    }
  }

  lemma FourBits(rest: seq<Bit>, b: Bit)
    ensures |Stuff([b, b, b, b] + rest, 1, b)| == 5 + |Stuff(rest, 1, 1 - b)|
  {
    var four := [b, b, b, b] + rest;
    assert four[1..] == [b, b, b] + rest;
    assert ([b, b, b] + rest)[1..] == [b, b] + rest;
    assert ([b, b] + rest)[1..] == [b] + rest;
    assert ([b] + rest)[1..] == rest;
    assert Stuff([b] + rest, 4, b) == [b, 1 - b] + Stuff(rest, 1, 1 - b);
    assert Stuff([b, b] + rest, 3, b) == [b] + Stuff([b] + rest, 4, b);
    assert Stuff([b, b, b] + rest, 2, b) == [b] + Stuff([b, b] + rest, 3, b);
    assert Stuff(four, 1, b) == [b] + Stuff([b, b, b] + rest, 2, b);
  }

  /// For every length some bit string needs the full worst case.
  lemma WorstCaseIsReached(n: nat)
    requires n >= 1
    ensures Inserted(Worst(n)) == Timing.WorstCaseStuffBits(n)
  {
    AlternatingForces(n - 1, 0);
    assert Worst(n)[1..] == Alternating(n - 1, 0);
  }

  // ---- Classic frames ----

  function DataBits(data: seq<Byte>): (r: seq<Bit>)
    ensures |r| == 8 * |data|
  {
    if data == [] then [] else MsbBits(data[0], 8) + DataBits(data[1..])
  }

  /// The stuffed region of a classic frame: SOF, identifier with RTR, IDE and reserved bits, DLC, data and
  /// the CRC sequence.
  function Region(f: Frame.Frame, crc: seq<Bit>): seq<Bit>
    requires |f.data| >= f.Size()
  {
    var rtr: Bit := if f.flags.rtr then 1 else 0;
    var arbitration :=
      if f.id.Extended? then [0] + MsbBits(f.id.Base(), 11) + [1, 1] + MsbBits(f.id.Extension(), 18) + [rtr, 0, 0]
      else [0] + MsbBits(f.id.Base(), 11) + [rtr, 0, 0];
    arbitration + MsbBits(f.dlc, 4) + DataBits(f.data[..f.Size()]) + crc
  }

  /// Whatever its CRC turns out to be, no classic frame takes more bits on the wire than its timing says.
  lemma TimingBoundsEveryFrame(f: Frame.Frame, crc: seq<Bit>, timing: Timing.BusTiming)
    requires |f.data| >= f.Size() && |crc| == 15
    ensures |OnWire(Region(f, crc))| + Timing.TRAILER <= Timing.ClassicTiming(f, timing).arbitrationBits
  {
    AtMostTheWorstCase(Region(f, crc));
  }
}
