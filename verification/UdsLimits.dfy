/// How far a UDS download can be led astray: reading past flash, checksums of the wrong bytes, and writing
/// while locked; when that happens, from power-up, and when it cannot.
module UdsLimits {
  import opened Bits
  import opened Uds
  import opened UdsSteps
  import opened UdsRuns

  // ---- Runs from power-up ----

  lemma {:induction false} RunSnoc(s: State, qs: seq<Request>, q: Request)
    ensures Run(s, qs + [q]) == Next(Run(s, qs), q)
    decreases |qs|
  {
    if qs == [] {
      assert (qs + [q])[1..] == [];
    } else {
      assert (qs + [q])[1..] == qs[1..] + [q];
      RunSnoc(Next(s, qs[0]), qs[1..], q);
    }
  }

  lemma {:induction false} RunConcat(s: State, a: seq<Request>, b: seq<Request>)
    ensures Run(s, a + b) == Run(Run(s, a), b)
    decreases |a|
  {
    if a == [] {
      assert a + b == b;
    } else {
      assert (a + b)[1..] == a[1..] + b;
      RunConcat(Next(s, a[0]), a[1..], b);
    }
  }

  /// No request is longer than `limit` bytes, which is what a transport may ask for.
  predicate Short(qs: seq<Request>, limit: nat) {
    forall k | 0 <= k < |qs| :: |qs[k].bytes| <= limit
  }

  /// The longest request of a download, blocks aside: an announcement.
  const ANNOUNCEMENT: nat := 11

  /// Powered up, in the programming session, and unlocked.
  function ReadyState(cfg: Config): State {
    Start(cfg).(session := Programming, securityLevel := 1, lastSeed := cfg.seedAt(0) % WORD, unlocked := true)
  }

  lemma UnlockRun(cfg: Config) returns (qs: seq<Request>)
    ensures Run(Start(cfg), qs) == ReadyState(cfg) && Short(qs, ANNOUNCEMENT)
  {
    var s0 := Start(cfg);
    var none: seq<Request> := [];
    ProgrammingStep(s0, 0);
    RunSnoc(s0, none, Request(PROGRAMMING_REQUEST, 0));
    var s1 := s0.(session := Programming);
    SeedStep(s1, 0, cfg.seedAt(0) % WORD);
    RunSnoc(s0, none + [Request(PROGRAMMING_REQUEST, 0)], Request(SEED_REQUEST, 0));
    var s2 := s1.(securityLevel := 1, lastSeed := cfg.seedAt(0) % WORD);
    KeyStep(s2, 0);
    qs := none + [Request(PROGRAMMING_REQUEST, 0)] + [Request(SEED_REQUEST, 0)];
    RunSnoc(s0, qs, Request(KeyRequest(cfg.Key(s2.lastSeed)), 0));
    qs := qs + [Request(KeyRequest(cfg.Key(s2.lastSeed)), 0)];
  }

  /// A download of `size` bytes to the base of flash has been announced and accepted.
  function OpenState(cfg: Config, size: nat): State {
    ReadyState(cfg).(address := cfg.flashBase, size := size, active := true)
  }

  lemma OpenRun(cfg: Config, size: nat) returns (qs: seq<Request>)
    requires cfg.Valid() && size <= cfg.flashSize
    ensures Run(Start(cfg), qs) == OpenState(cfg, size) && Short(qs, ANNOUNCEMENT)
  {
    qs := UnlockRun(cfg);
    var q := DownloadRequest(cfg.flashBase, size);
    DownloadStep(ReadyState(cfg), cfg.flashBase, size, q, 0);
    RunSnoc(Start(cfg), qs, Request(q, 0));
    qs := qs + [Request(q, 0)];
  }

  /// An announcement one below the base of flash, which is out of range unless all of memory is flash.
  lemma LowStep(s: State, size: nat, q: Request, t: State)
    requires s.session.Programming? && s.unlocked && s.cfg.Valid() && s.cfg.flashSize < WORD - 1
    requires q == Request(DownloadRequest((s.cfg.flashBase - 1) % WORD, 0), 0) && t == Next(s, q)
    ensures Handle(s, q.bytes, 0).1 == Negative(RequestOutOfRange) && t == s.(address := (s.cfg.flashBase - 1) % WORD, size := 0)
  {
    DownloadStep(s, (s.cfg.flashBase - 1) % WORD, 0, q.bytes, 0);
  }

  // ---- Short blocks ----

  /// `n` more bytes can be written in blocks.
  predicate Takes(s: State, n: nat) {
    s.active && 1 <= s.expected <= 255 && |s.flash| < WORD && WriteAt(s) + n <= |s.flash| && s.written + n < WORD
  }

  lemma BlockTaken(s: State, data: seq<Byte>, q: Request, t: State, left: nat)
    requires Takes(s, |data| + left) && q == Request(TransferRequest(s.expected, data), 0) && t == Next(s, q)
    ensures LeavesDownload(s, q.bytes) && Chunk(s, q) == data && Takes(t, left)
    ensures t.cfg == s.cfg && t.address == s.address && t.written == s.written + |data| && |t.flash| == |s.flash|
  {
    BlockStep(s, data, q.bytes, 0, t);
    assert q.bytes[2..] == data;
    FurtherOn(s.address - s.cfg.flashBase + s.written, |data|);
  }

  lemma FurtherOn(x: int, n: nat)
    requires x % WORD + n < WORD
    ensures (x + n) % WORD == x % WORD + n
  {
  }

  /// Blocks that keep to the limit and write `data`.
  lemma {:induction false} ShortBlocks(s: State, data: seq<Byte>, limit: nat) returns (qs: seq<Request>)
    requires limit > 2 && Takes(s, |data|)
    ensures Short(qs, limit) && AllLeaveDownload(s, qs) && Chunks(s, qs) == data
    ensures Run(s, qs).written == s.written + |data| && |Run(s, qs).flash| == |s.flash|
    decreases |data|
  {
    if data == [] {
      qs := [];
    } else {
      var n := if |data| < limit - 2 then |data| else limit - 2;
      var q := Request(TransferRequest(s.expected, data[..n]), 0);
      BlockTaken(s, data[..n], q, Next(s, q), |data| - n);
      var rest := ShortBlocks(Next(s, q), data[n..], limit);
      qs := [q] + rest;
      assert qs[1..] == rest && data[..n] + data[n..] == data;
    }
  }

  // ---- Reading past flash ----

  /// An announcement that is refused and moves the download under way.
  predicate Moves(s: State, q: seq<Byte>) {
    s.active && Announces(s, q) && !Accepts(s, q) && AnnouncedAddress(q) != s.address
  }

  predicate NoneMoves(s: State, qs: seq<Request>)
    decreases |qs|
  {
    qs == [] || (!Moves(s, qs[0].bytes) && NoneMoves(Next(s, qs[0]), qs[1..]))
  }

  /// What has been written lies inside flash.
  ghost predicate InFlash(s: State) {
    && Sane(s) && s.written <= |s.flash|
    && (s.active ==> s.address >= s.cfg.flashBase && (s.written > 0 ==> s.address - s.cfg.flashBase + s.written <= |s.flash|))
  }

  lemma TransferInFlash(s: State, q: Request)
    requires InFlash(s) && q.bytes != [] && q.bytes[0] == TRANSFER_DATA
    ensures InFlash(Next(s, q))
  {
    SaneKept(s, q);
    if Writes(s, q.bytes) {
      assert WriteAt(s) == s.address - s.cfg.flashBase + s.written;
      WriteDone(s, q, q.bytes[2..]);
      assert Next(s, q).active;
    } else {
      assert Next(s, q) == s;
    }
  }

  lemma DownloadInFlash(s: State, q: Request)
    requires InFlash(s) && q.bytes != [] && q.bytes[0] == REQUEST_DOWNLOAD && !Moves(s, q.bytes)
    ensures InFlash(Next(s, q))
  {
    SaneKept(s, q);
    assert Next(s, q) == OnDownload(s, q.bytes).0;
  }

  lemma InFlashKept(s: State, q: Request)
    requires InFlash(s) && !Moves(s, q.bytes)
    ensures InFlash(Next(s, q))
  {
    SaneKept(s, q);
    if Aside(q.bytes) {
      AsideKeeps(s, q);
    } else if q.bytes[0] == TRANSFER_DATA {
      TransferInFlash(s, q);
    } else if q.bytes[0] == REQUEST_DOWNLOAD {
      DownloadInFlash(s, q);
    }
  }

  lemma {:induction false} InFlashAlong(s: State, qs: seq<Request>)
    requires InFlash(s) && NoneMoves(s, qs)
    ensures InFlash(Run(s, qs))
    decreases |qs|
  {
    if qs != [] {
      InFlashKept(s, qs[0]);
      InFlashAlong(Next(s, qs[0]), qs[1..]);
    }
  }

  /// The one answer that reads past flash.
  lemma UndefinedMeans(s: State, q: Request)
    ensures Handle(s, q.bytes, q.at).1.Undefined?
       <==> |q.bytes| >= 4 && q.bytes[0] == ROUTINE_CONTROL && ReadBe(q.bytes[2..4]) == CHECKSUM && s.written > |s.flash|
  {
  }

  /// A run from power-up in which no refused announcement moves a download never reads past flash.
  lemma NeverPastFlash(cfg: Config, qs: seq<Request>, q: Request)
    requires cfg.Valid() && NoneMoves(Start(cfg), qs)
    ensures !Handle(Run(Start(cfg), qs), q.bytes, q.at).1.Undefined?
  {
    InFlashAlong(Start(cfg), qs);
    UndefinedMeans(Run(Start(cfg), qs), q);
  }

  lemma {:induction false} NothingWritten(s: State, qs: seq<Request>)
    requires Sane(s) && s.flash == [] && s.written == 0
    ensures Run(s, qs).flash == [] && Run(s, qs).written == 0
    decreases |qs|
  {
    if qs != [] {
      EmptyStays(s, qs[0]);
      SaneKept(s, qs[0]);
      NothingWritten(Next(s, qs[0]), qs[1..]);
    }
  }

  lemma EmptyStays(s: State, q: Request)
    requires s.flash == [] && s.written == 0
    ensures Next(s, q).flash == [] && Next(s, q).written == 0
  {
    if Aside(q.bytes) {
      AsideKeeps(s, q);
    } else if q.bytes[0] == TRANSFER_DATA {
      EmptyTransfer(s, q);
    } else if q.bytes[0] == ROUTINE_CONTROL {
      assert Next(s, q) == OnRoutine(s, q.bytes).0;
    }
  }

  lemma EmptyTransfer(s: State, q: Request)
    requires s.flash == [] && s.written == 0 && q.bytes != [] && q.bytes[0] == TRANSFER_DATA
    ensures Next(s, q).flash == [] && Next(s, q).written == 0
  {
    if Writes(s, q.bytes) {
      WriteDone(s, q, q.bytes[2..]);
    } else {
      assert Next(s, q) == OnTransfer(s, q.bytes).0;
    }
  }

  /// A byte has been written and the download moved to one below the base.
  ghost predicate Moved(cfg: Config, s: State) {
    && s.cfg == cfg && |s.flash| == cfg.flashSize && s.active && s.expected == 2 && s.written == 1
    && s.address == (cfg.flashBase - 1) % WORD
  }

  lemma MoveRun(cfg: Config) returns (qs: seq<Request>)
    requires cfg.Valid() && 1 <= cfg.flashSize < WORD - 1
    ensures Moved(cfg, Run(Start(cfg), qs)) && Short(qs, ANNOUNCEMENT)
  {
    qs := OpenRun(cfg, 1);
    var s := OpenState(cfg, 1);
    var q1 := Request(TransferRequest(1, [0]), 0);
    var s1 := Next(s, q1);
    BlockStep(s, [0], q1.bytes, 0, s1);
    RunSnoc(Start(cfg), qs, q1);
    qs := qs + [q1];
    var q2 := Request(DownloadRequest((cfg.flashBase - 1) % WORD, 0), 0);
    LowStep(s1, 0, q2, Next(s1, q2));
    RunSnoc(Start(cfg), qs, q2);
    qs := qs + [q2];
  }

  /// One byte at the base, an announcement one below it that is refused, and blocks for all of flash: more has
  /// then been written than flash holds. No request need be longer than `limit`.
  lemma PastFlash(cfg: Config, limit: nat) returns (qs: seq<Request>, q: Request)
    requires cfg.Valid() && 1 <= cfg.flashSize < WORD - 1 && limit >= ANNOUNCEMENT
    ensures Short(qs + [q], limit) && Handle(Run(Start(cfg), qs), q.bytes, q.at).1.Undefined?
  {
    var before := MoveRun(cfg);
    var s := Run(Start(cfg), before);
    BackAtTheStart(cfg, s);
    var blocks := ShortBlocks(s, Erased(cfg.flashSize), limit);
    RunConcat(Start(cfg), before, blocks);
    qs, q := before + blocks, Request(CHECKSUM_REQUEST, 0);
    RoutineNumber(CHECKSUM_REQUEST);
    UndefinedMeans(Run(s, blocks), q);
  }

  lemma BackAtTheStart(cfg: Config, s: State)
    requires cfg.Valid() && s.cfg == cfg && s.address == (cfg.flashBase - 1) % WORD && s.written == 1
    ensures WriteAt(s) == 0
  {
  }

  /// So the checksum routine can be made to read past flash, by requests that keep to any limit that lets
  /// announcements through, for every flash but an empty one and one of the greatest length.
  lemma PastFlashExactly(cfg: Config, limit: nat)
    requires cfg.Valid() && limit >= ANNOUNCEMENT
    ensures (exists qs, q: Request :: Short(qs + [q], limit) && Handle(Run(Start(cfg), qs), q.bytes, q.at).1.Undefined?)
       <==> 1 <= cfg.flashSize < WORD - 1
  {
    if 1 <= cfg.flashSize < WORD - 1 {
      var qs, q := PastFlash(cfg, limit);
    } else {
      forall qs, q: Request
        ensures !Handle(Run(Start(cfg), qs), q.bytes, q.at).1.Undefined?
      {
        SaneRun(Start(cfg), qs);
        UndefinedMeans(Run(Start(cfg), qs), q);
        if cfg.flashSize == 0 {
          NothingWritten(Start(cfg), qs);
        }
      }
    }
  }

  // ---- Refused announcements ----

  /// From power-up: a download that is complete but for its exit, and a refused announcement after which the
  /// exit is refused too.
  lemma RefusedAnnouncementMatters(cfg: Config) returns (qs: seq<Request>, q: Request)
    requires cfg.Valid() && 1 <= cfg.flashSize < WORD - 1
    ensures var s := Run(Start(cfg), qs);
            && Handle(s, EXIT_REQUEST, 0).1.Positive?
            && Handle(s, q.bytes, q.at).1 == Negative(RequestOutOfRange)
            && Handle(Next(s, q), EXIT_REQUEST, 0).1 == Negative(GeneralProgrammingFailure)
  {
    qs := OpenRun(cfg, 1);
    var s := OpenState(cfg, 1);
    var q1 := Request(TransferRequest(1, [0]), 0);
    var s1 := Next(s, q1);
    BlockStep(s, [0], q1.bytes, 0, s1);
    RunSnoc(Start(cfg), qs, q1);
    qs := qs + [q1];
    q := Request(DownloadRequest((cfg.flashBase - 1) % WORD, 0), 0);
    LowStep(s1, 0, q, Next(s1, q));
  }

  // ---- Writing while locked ----

  /// From power-up: after going back to the default session in the middle of a download the server is locked,
  /// and still writes flash.
  lemma LockedServerWrites(cfg: Config) returns (qs: seq<Request>, q: Request)
    requires cfg.Valid() && cfg.flashSize >= 1
    ensures var s := Run(Start(cfg), qs);
            !s.unlocked && s.session.DefaultSession? && Writes(s, q.bytes) && Next(s, q).flash != s.flash
  {
    qs := OpenRun(cfg, 1);
    var s := OpenState(cfg, 1);
    var lock := Request(DEFAULT_REQUEST, 0);
    var s1 := Next(s, lock);
    assert s1 == s.(session := DefaultSession, unlocked := false);
    RunSnoc(Start(cfg), qs, lock);
    qs := qs + [lock];
    q := Request(TransferRequest(1, [0]), 0);
    BlockStep(s1, [0], q.bytes, 0, Next(s1, q));
    assert Next(s1, q).flash[0] == 0;
  }

  // ---- The checksum ----

  /// The checksum routine answers `sum`.
  ghost predicate Reports(s: State, sum: nat) {
    Handle(s, CHECKSUM_REQUEST, 0) == (s, Positive([1, 0xFF, 0x01] + PushBe4(sum)))
  }

  lemma ReportsExactly(s: State, sum: nat)
    requires s.written <= |s.flash| && sum < WORD
    ensures Reports(s, sum) <==> sum == Sum(s.flash[..s.written]) % WORD
  {
    var right := Sum(s.flash[..s.written]) % WORD;
    ChecksumAnswer(s, 0);
    if Reports(s, sum) {
      var head: seq<Byte> := [1, 0xFF, 0x01];
      assert (head + PushBe4(sum))[3..] == PushBe4(sum) && (head + PushBe4(right))[3..] == PushBe4(right);
      WordTravels(sum);
      WordTravels(right);
    }
  }

  /// Erased but for its last byte, which is one less.
  function Telltale(n: nat): seq<Byte>
    requires n > 0
  {
    Erased(n - 1) + [0xFE]
  }

  lemma TelltaleSum(n: nat)
    requires n > 0
    ensures Sum(Erased(n)) == Sum(Telltale(n)) + 1
  {
    assert Erased(n)[..n - 1] == Erased(n - 1) == Telltale(n)[..n - 1];
  }

  lemma WordsApart(v: nat, w: nat)
    requires w == v + 1
    ensures v % WORD != w % WORD
  {
  }

  /// The bytes the checksum is taken over, after `data` has gone to offset `at` of an erased flash.
  lemma SummedBytes(flash: seq<Byte>, at: nat, data: seq<Byte>)
    requires flash == Erased(|flash|) && at + |data| <= |flash|
    ensures at == 0 ==> Patched(flash, at, data)[..|data|] == data
    ensures at > 0 && data != [] && data == Telltale(|data|) ==> Patched(flash, at, data)[..|data|] == Erased(|data|)
  {
  }

  lemma ChecksumOf(s: State, at: nat, qs: seq<Request>, sum: nat)
    requires Announced(s, at) && AllLeaveDownload(s, qs) && sum < WORD && at + |Chunks(s, qs)| <= |s.flash|
    ensures Reports(Run(s, qs), sum) <==> sum == Sum(Patched(s.flash, at, Chunks(s, qs))[..|Chunks(s, qs)|]) % WORD
  {
    DownloadWritesItsBlocks(s, at, qs);
    ReportsExactly(Run(s, qs), sum);
  }

  /// The routine sums from the start of flash, wherever the download went: after a download of `n` bytes to
  /// offset `at` of an erased flash the sum it reports is that of the bytes downloaded, whatever they are,
  /// exactly when the download went to the start or was empty.
  lemma ChecksumIsRight(s: State, at: nat, n: nat)
    requires Announced(s, at) && s.flash == Erased(|s.flash|) && at + n <= |s.flash|
    ensures (forall qs | AllLeaveDownload(s, qs) && |Chunks(s, qs)| == n :: Reports(Run(s, qs), Sum(Chunks(s, qs)) % WORD))
       <==> at == 0 || n == 0
  {
    if at == 0 || n == 0 {
      forall qs | AllLeaveDownload(s, qs) && |Chunks(s, qs)| == n
        ensures Reports(Run(s, qs), Sum(Chunks(s, qs)) % WORD)
      {
        var data := Chunks(s, qs);
        SummedBytes(s.flash, at, data);
        ChecksumOf(s, at, qs, Sum(data) % WORD);
        assert n == 0 ==> Patched(s.flash, at, data)[..0] == data;
      }
    } else {
      var qs := WrongChecksum(s, at, n, ANNOUNCEMENT);
    }
  }

  /// An instance: bytes of 0xFF and a last one of 0xFE, away from the start of flash, in blocks of any length.
  lemma WrongChecksum(s: State, at: nat, n: nat, limit: nat) returns (qs: seq<Request>)
    requires Announced(s, at) && s.flash == Erased(|s.flash|) && at + n <= |s.flash| && at > 0 && n > 0 && limit > 2
    ensures Short(qs, limit) && AllLeaveDownload(s, qs) && Chunks(s, qs) == Telltale(n)
    ensures Reports(Run(s, qs), (Sum(Telltale(n)) + 1) % WORD) && !Reports(Run(s, qs), Sum(Telltale(n)) % WORD)
  {
    var data := Telltale(n);
    qs := ShortBlocks(s, data, limit);
    SummedBytes(s.flash, at, data);
    TelltaleSum(n);
    WordsApart(Sum(data), Sum(data) + 1);
    ChecksumOf(s, at, qs, (Sum(data) + 1) % WORD);
    ChecksumOf(s, at, qs, Sum(data) % WORD);
  }
}
