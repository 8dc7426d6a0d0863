/// How long frames occupy the bus, as transport/src/IBus.cpp computes it.
module Timing {
  import opened Frame

  datatype BusTiming = BusTiming(nominalBitrate: nat, dataBitrate: nat)

  datatype FrameTiming = FrameTiming(arbitrationBits: nat, dataBits: nat, stuffBits: nat, nanoseconds: nat) {
    function TotalBits(): nat {
      arbitrationBits + dataBits
    }
  }

  function WorstCaseStuffBits(bits: nat): nat {
    if bits == 0 then 0 else (bits - 1) / 4
  }

  function Duration(bits: nat, bitrate: nat): nat {
    if bitrate == 0 then 0 else bits * 1000000000 / bitrate
  }

  /// What follows the stuffed part: the delimiter of the CRC, the acknowledgement and its delimiter, the end of
  /// the frame and the gap behind it.
  const TRAILER: nat := 1 + 1 + 1 + 7 + 3

  /// `classic_timing`.
  function ClassicTiming(frame: Frame, timing: BusTiming): FrameTiming {
    var stuffable := (if frame.id.Extended? then 54 else 34) + 8 * frame.Size();
    var stuff := WorstCaseStuffBits(stuffable);
    var bits := stuffable + TRAILER + stuff;
    FrameTiming(bits, 0, stuff, Duration(bits, timing.nominalBitrate))
  }

  /// `fd_timing`.
  function FdTiming(frame: Frame, timing: BusTiming): FrameTiming {
    var payload := 8 * frame.Size();
    var core := if frame.id.Extended? then 37 else 17;
    var crc := (if frame.Size() > 16 then 21 else 17) + 4;
    var stuff := crc / 4 + WorstCaseStuffBits(core + 1 + 4 + payload);
    var data := 1 + 4 + payload + crc + stuff;
    var rate := if frame.flags.brs && timing.dataBitrate != 0 then timing.dataBitrate else timing.nominalBitrate;
    FrameTiming(core + TRAILER, data, stuff, Duration(core + TRAILER, timing.nominalBitrate) + Duration(data, rate))
  }

  function TimingOf(frame: Frame, timing: BusTiming): FrameTiming {
    if frame.flags.fd then FdTiming(frame, timing) else ClassicTiming(frame, timing)
  }
}
