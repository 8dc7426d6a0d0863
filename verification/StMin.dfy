/// STmin as a byte and as a time: the two conversions against each other.
module StMin {
  import opened Bits
  import opened IsoTp

  /// `ns_to_st_min`.
  function NsToStMin(ns: nat): Byte {
    if ns == 0 then 0
    else if ns < 1000000 then
      var hundreds := (ns + 99999) / 100000;
      0xF0 + if hundreds < 1 then 1 else if hundreds > 9 then 9 else hundreds
    else
      var ms := (ns + 999999) / 1000000;
      if ms > 127 then 127 else ms
  }

  /// Every value that is not reserved comes back from the time it stands for.
  lemma ByteComesBack(raw: Byte)
    ensures NsToStMin(StMinToNs(raw)) == raw <==> raw <= 0x7F || 0xF1 <= raw <= 0xF9
  {
  }

  /// The time asked for is the time that is kept, or a little more, exactly if it is at most 900 microseconds, or between
  /// one and 127 milliseconds: between 900 microseconds and a millisecond the byte stands for less than was asked for.
  lemma RoundsUpExactly(ns: nat)
    ensures StMinToNs(NsToStMin(ns)) >= ns <==> ns <= 900000 || 1000000 <= ns <= 127000000
  {
  }

  /// And it is the least there is.
  lemma LeastOfItsKind(ns: nat, raw: Byte)
    requires (ns <= 900000 || 1000000 <= ns <= 127000000) && StMinToNs(raw) >= ns
    ensures StMinToNs(NsToStMin(ns)) <= StMinToNs(raw)
  {
  }
}
