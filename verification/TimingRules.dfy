/// How long frames take, in bits and nanoseconds.
module TimingRules {
  import opened Bits
  import opened Frame
  import opened Timing
  import Stuffing

  /// The whole nanoseconds that `bits` take at `rate` bits a second.
  lemma DurationIsFloor(bits: nat, rate: nat)
    requires rate > 0
    ensures Duration(bits, rate) * rate <= bits * 1000000000 < (Duration(bits, rate) + 1) * rate
  {
    var x := bits * 1000000000;
    assert x == rate * (x / rate) + x % rate;
  }

  /// Behind the CRC: its delimiter, the acknowledgement and its delimiter, seven bits of end and three of gap.
  lemma TrailerIsThirteen()
    ensures TRAILER == 13
  {
  }

  /// A classic frame with `n` bytes: 34 bits, or 54 with an extended identifier, and the bytes, from its first bit to its
  /// CRC; a stuff bit for every four of them after the first; and thirteen bits behind.
  lemma ClassicInNumbers(f: Frame, timing: BusTiming)
    requires |f.data| >= f.Size()
    ensures var (t, region) := (ClassicTiming(f, timing), (if f.id.Extended? then 54 else 34) + 8 * f.Size());
            && t.arbitrationBits == region + (region - 1) / 4 + 13 && t.dataBits == 0 && t.stuffBits == (region - 1) / 4
            && forall crc: seq<Bit> | |crc| == 15 :: |Stuffing.Region(f, crc)| == region
    ensures timing.nominalBitrate > 0 ==>
              var (t, bits) := (ClassicTiming(f, timing), ClassicTiming(f, timing).arbitrationBits);
              t.nanoseconds * timing.nominalBitrate <= bits * 1000000000 < (t.nanoseconds + 1) * timing.nominalBitrate
  {
    if timing.nominalBitrate > 0 {
      DurationIsFloor(ClassicTiming(f, timing).arbitrationBits, timing.nominalBitrate);
    }
  }

  /// An FD frame: 17 or 37 bits of arbitration and thirteen behind at the nominal rate; five bits, the bytes, and a CRC of
  /// 17 bits, or 21 above sixteen bytes, with its count and the stuff bits, at the data rate if that is switched.
  lemma FdInNumbers(f: Frame, timing: BusTiming)
    ensures var (t, n) := (FdTiming(f, timing), f.Size());
            var (core, crc) := (if f.id.Extended? then 37 else 17, if n <= 16 then 21 else 25);
            var rate := if f.flags.brs && timing.dataBitrate > 0 then timing.dataBitrate else timing.nominalBitrate;
            && t.arbitrationBits == core + 13
            && t.stuffBits == crc / 4 + (core + 4 + 8 * n) / 4
            && t.dataBits == 5 + 8 * n + crc + t.stuffBits
            && t.nanoseconds == Duration(core + 13, timing.nominalBitrate) + Duration(t.dataBits, rate)
  {
  }

  /// The bytes of a frame for each data length code.
  lemma LengthsInNumbers()
    ensures forall dlc: nat | dlc <= 8 :: DlcToLength(dlc, true) == dlc && DlcToLength(dlc, false) == dlc
    ensures DlcToLength(9, true) == 12 && DlcToLength(10, true) == 16 && DlcToLength(11, true) == 20 && DlcToLength(12, true) == 24
    ensures DlcToLength(13, true) == 32 && DlcToLength(14, true) == 48 && DlcToLength(15, true) == 64
    ensures forall dlc: nat | 9 <= dlc <= 15 :: DlcToLength(dlc, false) == 8
    ensures forall dlc: nat, fd: bool | dlc > 15 :: DlcToLength(dlc, fd) == 0
  {
  }
}
