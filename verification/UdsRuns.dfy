/// What every sequence of requests keeps in the UDS server, and what a download leaves in flash.
module UdsRuns {
  import opened Bits
  import opened Uds
  import opened UdsSteps

  datatype Request = Request(bytes: seq<Byte>, at: nat)

  function Next(s: State, q: Request): State {
    Handle(s, q.bytes, q.at).0
  }

  function Run(s: State, qs: seq<Request>): State
    decreases |qs|
  {
    if qs == [] then s else Run(Next(s, qs[0]), qs[1..])
  }

  // ---- Every request sequence ----

  /// The first conjunct is the point: an unlocked server is not in the default session.
  predicate Sane(s: State) {
    && (s.unlocked ==> !s.session.DefaultSession?)
    && 1 <= s.expected <= 255
    && s.cfg.flashSize < WORD && s.cfg.flashBase < WORD && |s.flash| == s.cfg.flashSize
    && s.address < WORD && s.size < WORD && s.written < WORD
  }

  lemma SaneSession(s: State, q: seq<Byte>)
    requires Sane(s) && q != []
    ensures Sane(OnSession(s, q).0) && Sane(OnReset(s, q).0) && Sane(OnExit(s, q).0)
    ensures OnSession(s, q).0.cfg == OnReset(s, q).0.cfg == OnExit(s, q).0.cfg == s.cfg
  {
  }

  lemma SaneSecurity(s: State, q: seq<Byte>, now: nat)
    requires Sane(s) && q != []
    ensures Sane(OnSecurity(s, q, now).0) && OnSecurity(s, q, now).0.cfg == s.cfg
  {
  }

  lemma SaneRoutine(s: State, q: seq<Byte>)
    requires Sane(s) && q != []
    ensures Sane(OnRoutine(s, q).0) && OnRoutine(s, q).0.cfg == s.cfg
  {
  }

  lemma SaneDownload(s: State, q: seq<Byte>)
    requires Sane(s) && q != [] && q[0] == REQUEST_DOWNLOAD
    ensures Sane(OnDownload(s, q).0) && OnDownload(s, q).0.cfg == s.cfg
  {
  }

  lemma SaneTransfer(s: State, q: seq<Byte>)
    requires Sane(s) && q != [] && q[0] == TRANSFER_DATA
    ensures Sane(OnTransfer(s, q).0) && OnTransfer(s, q).0.cfg == s.cfg
  {
  }

  /// The services that touch none of what a download is about.
  predicate Aside(q: seq<Byte>) {
    q == [] || q[0] !in {SESSION_CONTROL, ECU_RESET, SECURITY_ACCESS, ROUTINE_CONTROL, REQUEST_DOWNLOAD, TRANSFER_DATA, TRANSFER_EXIT}
  }

  lemma AsideKeeps(s: State, q: Request)
    requires Aside(q.bytes)
    ensures var t := Next(s, q);
            t == s.(identifiers := t.identifiers, dtcs := t.dtcs, testerPresent := t.testerPresent)
  {
  }

  lemma SaneKept(s: State, q: Request)
    requires Sane(s)
    ensures Sane(Next(s, q)) && Next(s, q).cfg == s.cfg
  {
    if Aside(q.bytes) {
      AsideKeeps(s, q);
    } else if q.bytes[0] == REQUEST_DOWNLOAD {
      SaneDownload(s, q.bytes);
    } else if q.bytes[0] == TRANSFER_DATA {
      SaneTransfer(s, q.bytes);
    } else if q.bytes[0] == ROUTINE_CONTROL {
      SaneRoutine(s, q.bytes);
    } else if q.bytes[0] == SECURITY_ACCESS {
      SaneSecurity(s, q.bytes, q.at);
    } else {
      SaneSession(s, q.bytes);
    }
  }

  lemma {:induction false} UnlockedNeedsASession(cfg: Config, qs: seq<Request>)
    requires cfg.flashSize < WORD && cfg.flashBase < WORD
    ensures Run(Start(cfg), qs).unlocked ==> !Run(Start(cfg), qs).session.DefaultSession?
    ensures 1 <= Run(Start(cfg), qs).expected <= 255
  {
    SaneRun(Start(cfg), qs);
  }

  lemma {:induction false} SaneRun(s: State, qs: seq<Request>)
    requires Sane(s)
    ensures Sane(Run(s, qs)) && Run(s, qs).cfg == s.cfg
    decreases |qs|
  {
    if qs != [] {
      SaneKept(s, qs[0]);
      SaneRun(Next(s, qs[0]), qs[1..]);
    }
  }

  /// An erase the server carries out.
  predicate Erases(s: State, q: seq<Byte>) {
    |q| >= 4 && q[0] == ROUTINE_CONTROL && ReadBe(q[2..4]) == ERASE && s.unlocked
  }

  /// Flash changes only by an erase of an unlocked server, which clears all of it, or by the block that is
  /// expected, which changes just the bytes it covers.
  lemma FlashChanges(s: State, q: Request)
    requires Sane(s)
    ensures var after := Next(s, q).flash;
            if Erases(s, q.bytes) then after == Erased(|s.flash|)
            else if Writes(s, q.bytes) then
              |after| == |s.flash|
              && forall i | 0 <= i < |after| ::
                   after[i] == if WriteAt(s) <= i < WriteAt(s) + |q.bytes| - 2 then q.bytes[2 + i - WriteAt(s)] else s.flash[i]
            else after == s.flash
  {
    if Writes(s, q.bytes) {
      WriteDone(s, q, q.bytes[2..]);
    } else if !Erases(s, q.bytes) {
      FlashStays(s, q);
    }
  }

  lemma FlashStays(s: State, q: Request)
    requires !Writes(s, q.bytes) && !Erases(s, q.bytes)
    ensures Next(s, q).flash == s.flash
  {
  }

  /// Only an announcement in an unlocked programming session opens a download.
  lemma DownloadNeedsSecurity(s: State, q: Request)
    requires !s.active && Next(s, q).active
    ensures Accepts(s, q.bytes) && s.unlocked && s.session.Programming?
  {
  }

  /// Going back to the default session in the middle of a download.
  predicate Locks(s: State, q: seq<Byte>) {
    s.active && |q| >= 2 && q[0] == SESSION_CONTROL && SubFunction(q) == 1
  }

  predicate NoneLocks(s: State, qs: seq<Request>)
    decreases |qs|
  {
    qs == [] || (!Locks(s, qs[0].bytes) && NoneLocks(Next(s, qs[0]), qs[1..]))
  }

  /// That locks the server and leaves the download open, and nothing else does.
  lemma LockedWhileActive(s: State, q: Request)
    requires s.active ==> s.unlocked
    ensures Next(s, q).active && !Next(s, q).unlocked <==> Locks(s, q.bytes)
  {
    if Aside(q.bytes) {
      AsideKeeps(s, q);
    }
  }

  lemma {:induction false} UnlockedAlong(s: State, qs: seq<Request>)
    requires (s.active ==> s.unlocked) && NoneLocks(s, qs)
    ensures Run(s, qs).active ==> Run(s, qs).unlocked
    decreases |qs|
  {
    if qs != [] {
      LockedWhileActive(s, qs[0]);
      UnlockedAlong(Next(s, qs[0]), qs[1..]);
    }
  }

  /// In every run from power-up that does not do so, only an unlocked server writes flash.
  lemma WritesAreUnlocked(cfg: Config, qs: seq<Request>, q: Request)
    requires NoneLocks(Start(cfg), qs) && Writes(Run(Start(cfg), qs), q.bytes)
    ensures Run(Start(cfg), qs).unlocked
  {
    UnlockedAlong(Start(cfg), qs);
  }

  /// Repeating the block just written is harmless, unless the counter has just wrapped: after block 0xFF
  /// the server takes 0, not 0xFF, for the previous block.
  lemma RepeatedBlock(s: State, q: Request, again: Request)
    requires Sane(s) && Writes(s, q.bytes) && again.bytes == q.bytes
    ensures q.bytes[1] != 0xFF <==> Handle(Next(s, q), again.bytes, again.at) == (Next(s, q), Positive([q.bytes[1]]))
  {
  }

  // ---- One download ----

  predicate Resets(q: seq<Byte>) {
    |q| >= 2 && q[0] == ECU_RESET && 1 <= SubFunction(q) <= 5
  }

  /// An announcement that begins another download, or is refused but leaves other numbers behind.
  predicate Disturbs(s: State, q: seq<Byte>) {
    Announces(s, q) && (Accepts(s, q) || AnnouncedAddress(q) != s.address || AnnouncedSize(q) != s.size)
  }

  /// A request that leaves the download under way alone.
  predicate LeavesDownload(s: State, q: seq<Byte>) {
    !Erases(s, q) && !Resets(q) && !Disturbs(s, q)
  }

  predicate AllLeaveDownload(s: State, qs: seq<Request>)
    decreases |qs|
  {
    qs == [] || (LeavesDownload(s, qs[0].bytes) && AllLeaveDownload(Next(s, qs[0]), qs[1..]))
  }

  /// The data a request gets written.
  function Chunk(s: State, q: Request): seq<Byte> {
    if Writes(s, q.bytes) then q.bytes[2..] else []
  }

  /// The data of the blocks that are written along the run, in order.
  function Chunks(s: State, qs: seq<Request>): seq<Byte>
    decreases |qs|
  {
    if qs == [] then [] else Chunk(s, qs[0]) + Chunks(Next(s, qs[0]), qs[1..])
  }

  /// `flash` with `data` from offset `at`.
  function Patched(flash: seq<Byte>, at: nat, data: seq<Byte>): seq<Byte> {
    if data == [] || at + |data| > |flash| then flash else flash[..at] + data + flash[at + |data|..]
  }

  /// Where an accepted download begins.
  ghost predicate Announced(s: State, at: nat) {
    Sane(s) && s.active && s.written == 0 && s.expected == 1 && s.address == s.cfg.flashBase + at
  }

  /// The state after `data` of the download begun in `s0`.
  ghost predicate Holding(s0: State, s: State, at: nat, data: seq<Byte>) {
    && Sane(s) && s.cfg == s0.cfg && |s.flash| == |s0.flash| && s.address == s0.cfg.flashBase + at && s.size == s0.size
    && s.written == |data| && (data != [] ==> at + |data| <= |s0.flash|) && s.flash == Patched(s0.flash, at, data)
  }

  lemma WriteHolds(s0: State, s: State, at: nat, data: seq<Byte>, q: Request)
    requires Holding(s0, s, at, data) && Writes(s, q.bytes)
    ensures Holding(s0, Next(s, q), at, data + q.bytes[2..])
  {
    SaneKept(s, q);
    var more := q.bytes[2..];
    WriteDone(s, q, more);
    WrittenBehind(s, at, |data|, more);
    var to := at + |data|;
    PatchedMore(s0.flash, at, data, more, to, to + |more|);
  }

  lemma WriteDone(s: State, q: Request, more: seq<Byte>)
    requires Writes(s, q.bytes) && more == q.bytes[2..]
    ensures var t, w := Next(s, q), Write(s, more);
            t.flash == w.flash && t.written == w.written && t.address == s.address && t.size == s.size
  {
  }

  /// Inside flash the word arithmetic of the write address does not wrap.
  lemma WrittenBehind(s: State, at: nat, n: nat, more: seq<Byte>)
    requires Sane(s) && s.address == s.cfg.flashBase + at && s.written == n && (n > 0 ==> at + n <= |s.flash|)
    requires WriteAt(s) + |more| <= |s.flash|
    ensures WriteAt(s) == at + n && at + n + |more| <= |s.flash|
    ensures Write(s, more).flash == s.flash[..at + n] + more + s.flash[at + n + |more|..]
    ensures Write(s, more).written == n + |more|
  {
  }

  lemma PatchedMore(flash: seq<Byte>, at: nat, data: seq<Byte>, more: seq<Byte>, to: nat, end: nat)
    requires to == at + |data| && end == to + |more| && end <= |flash|
    ensures Patched(flash, at, data)[..to] + more + Patched(flash, at, data)[end..] == Patched(flash, at, data + more)
  {
  }

  /// Nothing that leaves the download alone and writes no block touches what a download is about.
  lemma OtherDone(s: State, q: Request)
    requires LeavesDownload(s, q.bytes) && !Writes(s, q.bytes)
    ensures var t := Next(s, q);
            t.flash == s.flash && t.written == s.written && t.address == s.address && t.size == s.size
  {
    if Aside(q.bytes) {
      AsideKeeps(s, q);
    } else if Announces(s, q.bytes) {
      assert Next(s, q) == OnDownload(s, q.bytes).0;
    }
  }

  lemma OtherHolds(s0: State, s: State, at: nat, data: seq<Byte>, q: Request)
    requires Holding(s0, s, at, data) && LeavesDownload(s, q.bytes) && !Writes(s, q.bytes)
    ensures Holding(s0, Next(s, q), at, data)
  {
    SaneKept(s, q);
    OtherDone(s, q);
  }

  lemma StepHolds(s0: State, s: State, at: nat, data: seq<Byte>, q: Request)
    requires Holding(s0, s, at, data) && LeavesDownload(s, q.bytes)
    ensures Holding(s0, Next(s, q), at, data + Chunk(s, q))
  {
    if Writes(s, q.bytes) {
      WriteHolds(s0, s, at, data, q);
    } else {
      OtherHolds(s0, s, at, data, q);
      assert data + Chunk(s, q) == data;
    }
  }

  /// The three recursions along a run, unfolded once.
  lemma RunUnfolds(s: State, t: State, qs: seq<Request>)
    requires qs != [] && t == Next(s, qs[0]) && AllLeaveDownload(s, qs)
    ensures LeavesDownload(s, qs[0].bytes) && AllLeaveDownload(t, qs[1..])
    ensures Run(s, qs) == Run(t, qs[1..]) && Chunks(s, qs) == Chunk(s, qs[0]) + Chunks(t, qs[1..])
  {
  }

  lemma {:induction false} RunHolds(s0: State, s: State, at: nat, data: seq<Byte>, qs: seq<Request>)
    requires Holding(s0, s, at, data) && AllLeaveDownload(s, qs)
    ensures Holding(s0, Run(s, qs), at, data + Chunks(s, qs))
    decreases |qs|
  {
    if qs == [] {
      assert data + Chunks(s, qs) == data;
    } else {
      var t, more := Next(s, qs[0]), Chunk(s, qs[0]);
      var rest := Chunks(t, qs[1..]);
      RunUnfolds(s, t, qs);
      StepHolds(s0, s, at, data, qs[0]);
      RunHolds(s0, t, at, data + more, qs[1..]);
      Regroup(data, more, rest);
    }
  }

  lemma Regroup(a: seq<Byte>, b: seq<Byte>, c: seq<Byte>)
    ensures a + b + c == a + (b + c)
  {
  }

  /// From the state an announcement sets up: whatever is requested next, as long as no erase, reset or
  /// announcement disturbs it, flash is what it was with the accepted blocks from the announced address; and
  /// the exit is accepted exactly when they add up to the announced size.
  lemma DownloadWritesItsBlocks(s: State, at: nat, qs: seq<Request>)
    requires Announced(s, at) && AllLeaveDownload(s, qs)
    ensures var r, data := Run(s, qs), Chunks(s, qs);
            && r.flash == Patched(s.flash, at, data) && r.written == |data| && (data != [] ==> at + |data| <= |s.flash|)
            && (Handle(r, EXIT_REQUEST, 0).1.Positive? <==> r.active && |data| == s.size)
  {
    RunHolds(s, s, at, [], qs);
    assert [] + Chunks(s, qs) == Chunks(s, qs);
  }

  /// What an accepted announcement sets up.
  lemma AcceptedAnnouncement(s: State, q: Request, t: State)
    requires Sane(s) && Accepts(s, q.bytes) && t == Next(s, q)
    ensures Announced(t, AnnouncedAddress(q.bytes) - s.cfg.flashBase)
    ensures t.flash == s.flash && t.cfg == s.cfg && t.size == AnnouncedSize(q.bytes)
  {
    SaneKept(s, q);
    assert t == OnDownload(s, q.bytes).0;
  }

  /// The range check is made in 32-bit arithmetic: what it accepts fits flash exactly when the end of the
  /// announced region does not wrap.
  lemma AcceptedFits(s: State, q: Request)
    requires Sane(s) && Accepts(s, q.bytes)
    ensures var end := AnnouncedAddress(q.bytes) - s.cfg.flashBase + AnnouncedSize(q.bytes);
            end <= |s.flash| <==> end < WORD
  {
  }

  /// An accepted announcement that does not fit flash can be made exactly when flash does not begin at the
  /// last address of all.
  lemma AcceptedNeedNotFit(s: State)
    requires Sane(s) && s.session.Programming? && s.unlocked
    ensures (exists q :: Accepts(s, q) && AnnouncedAddress(q) - s.cfg.flashBase + AnnouncedSize(q) > |s.flash|)
       <==> s.cfg.flashBase < WORD - 1
  {
    var base := s.cfg.flashBase;
    if base < WORD - 1 {
      var q := DownloadRequest(base + 1, WORD - 1);
      DownloadRead(base + 1, WORD - 1, q);
      assert Announces(s, q);
      assert Accepts(s, q) && AnnouncedAddress(q) - base + AnnouncedSize(q) > |s.flash|;
    } else {
      forall q | Accepts(s, q)
        ensures AnnouncedAddress(q) - base + AnnouncedSize(q) <= |s.flash|
      {
        AcceptedFits(s, Request(q, 0));
      }
    }
  }

  /// A whole download, from the request that announces it. Its exit is never accepted when the announced
  /// region does not fit flash.
  lemma DownloadFromRequest(s: State, q: Request, qs: seq<Request>)
    requires Sane(s) && Accepts(s, q.bytes) && AllLeaveDownload(Next(s, q), qs)
    ensures var at, size := AnnouncedAddress(q.bytes) - s.cfg.flashBase, AnnouncedSize(q.bytes);
            var r, data := Run(Next(s, q), qs), Chunks(Next(s, q), qs);
            && r.flash == Patched(s.flash, at, data) && r.written == |data| && (data != [] ==> at + |data| <= |s.flash|)
            && (Handle(r, EXIT_REQUEST, 0).1.Positive? <==> r.active && |data| == size)
            && (Handle(r, EXIT_REQUEST, 0).1.Positive? ==> at + size <= |s.flash|)
  {
    var t := Next(s, q);
    AcceptedAnnouncement(s, q, t);
    DownloadWritesItsBlocks(t, AnnouncedAddress(q.bytes) - s.cfg.flashBase, qs);
    AcceptedFits(s, q);
  }

  /// An announcement that is refused in the middle of a download still replaces the download's address and
  /// size. Flash stays, but the exit is now accepted exactly when the refused size happens to be what has been
  /// written; the download is as it was exactly when the refused numbers are its own.
  lemma RefusedAnnouncement(s: State, at: nat, qs: seq<Request>, q: Request)
    requires Announced(s, at) && AllLeaveDownload(s, qs) && Run(s, qs).active
    requires Announces(Run(s, qs), q.bytes) && !Accepts(Run(s, qs), q.bytes)
    ensures var r, data := Run(s, qs), Chunks(s, qs);
            var t := Next(r, q);
            && Handle(r, q.bytes, q.at).1 == Negative(RequestOutOfRange) && t.flash == Patched(s.flash, at, data)
            && (Handle(t, EXIT_REQUEST, 0).1.Positive? <==> AnnouncedSize(q.bytes) == |data|)
            && (t == r <==> AnnouncedAddress(q.bytes) == s.address && AnnouncedSize(q.bytes) == s.size)
  {
    var r := Run(s, qs);
    RunHolds(s, s, at, [], qs);
    assert [] + Chunks(s, qs) == Chunks(s, qs);
    RefusedStep(r, q);
  }

  lemma RefusedStep(r: State, q: Request)
    requires r.active && Announces(r, q.bytes) && !Accepts(r, q.bytes)
    ensures Handle(r, q.bytes, q.at)
         == (r.(address := AnnouncedAddress(q.bytes), size := AnnouncedSize(q.bytes)), Negative(RequestOutOfRange))
    ensures Handle(Next(r, q), EXIT_REQUEST, 0).1.Positive? <==> AnnouncedSize(q.bytes) == r.written
  {
    assert Handle(r, q.bytes, q.at) == OnDownload(r, q.bytes);
  }
}
