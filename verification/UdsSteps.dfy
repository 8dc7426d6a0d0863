/// The requests of a download, and what each of them does to the server.
module UdsSteps {
  import opened Bits
  import opened Uds

  lemma {:induction false} ReadBeSnoc(bytes: seq<Byte>, b: Byte)
    ensures ReadBe(bytes + [b]) == (256 * ReadBe(bytes) + b as nat) % WORD
  {
    assert (bytes + [b])[..|bytes|] == bytes;
  }

  lemma ReadOneMore(bytes: seq<Byte>, b: Byte, v: nat, w: nat)
    requires ReadBe(bytes) == v && w == 256 * v + b as nat < WORD
    ensures ReadBe(bytes + [b]) == w
  {
    ReadBeSnoc(bytes, b);
  }

  lemma FourRead(a: Byte, b: Byte, c: Byte, d: Byte)
    ensures ReadBe([a, b, c, d]) == 16777216 * a as nat + 65536 * b as nat + 256 * c as nat + d as nat
  {
    var none: seq<Byte> := [];
    var v1: nat := a;
    var v2 := 256 * v1 + b as nat;
    var v3 := 256 * v2 + c as nat;
    var v4 := 256 * v3 + d as nat;
    ReadOneMore(none, a, 0, v1);
    ReadOneMore(none + [a], b, v1, v2);
    ReadOneMore(none + [a] + [b], c, v2, v3);
    ReadOneMore(none + [a] + [b] + [c], d, v3, v4);
    assert none + [a] + [b] + [c] + [d] == [a, b, c, d];
  }

  /// A word survives being sent and read.
  lemma WordTravels(v: nat)
    requires v < WORD
    ensures ReadBe(PushBe4(v)) == v
  {
    FourRead(v / 16777216 % 256, v / 65536 % 256, v / 256 % 256, v % 256);
    Bytes4(v);
  }

  lemma Bytes4(v: nat)
    requires v < WORD
    ensures 16777216 * (v / 16777216 % 256) + 65536 * (v / 65536 % 256) + 256 * (v / 256 % 256) + v % 256 == v
  {
    var a := v / 256;
    var b := a / 256;
    assert v / 65536 == b && v / 16777216 == b / 256;
  }

  lemma RoutineNumber(q: seq<Byte>)
    requires |q| == 4 && q[2] == 0xFF
    ensures ReadBe(q[2..4]) == 0xFF00 + q[3] as nat
  {
    var none: seq<Byte> := [];
    ReadBeSnoc(none, q[2]);
    ReadBeSnoc(none + [q[2]], q[3]);
    assert q[2..4] == none + [q[2]] + [q[3]];
  }

  // ---- The requests ----

  const PROGRAMMING_REQUEST: seq<Byte> := [SESSION_CONTROL, 0x02]
  const DEFAULT_REQUEST: seq<Byte> := [SESSION_CONTROL, 0x01]
  const SEED_REQUEST: seq<Byte> := [SECURITY_ACCESS, 0x01]
  const ERASE_REQUEST: seq<Byte> := [ROUTINE_CONTROL, 0x01, 0xFF, 0x00]
  const CHECKSUM_REQUEST: seq<Byte> := [ROUTINE_CONTROL, 0x01, 0xFF, 0x01]
  const EXIT_REQUEST: seq<Byte> := [TRANSFER_EXIT]

  function KeyRequest(key: nat): seq<Byte> {
    [SECURITY_ACCESS, 0x02] + PushBe4(key)
  }

  function DownloadRequest(address: nat, size: nat): seq<Byte> {
    [REQUEST_DOWNLOAD, 0x00, 0x44] + PushBe4(address) + PushBe4(size)
  }

  function TransferRequest(block: Byte, data: seq<Byte>): seq<Byte> {
    [TRANSFER_DATA, block] + data
  }

  // ---- What they do ----

  /// What the client gets in the end: a pending response is followed by the deferred one.
  function Final(s: State, r: Response): Response {
    if r == Negative(ResponsePending) then s.deferred else r
  }

  lemma ProgrammingStep(s: State, now: nat)
    ensures Handle(s, PROGRAMMING_REQUEST, now).0 == s.(session := Programming)
    ensures Handle(s, PROGRAMMING_REQUEST, now).1.Positive?
  {
  }

  lemma SeedStep(s: State, now: nat, seed: nat)
    requires !s.session.DefaultSession? && seed == if s.unlocked then 0 else s.cfg.seedAt(now) % WORD
    ensures Handle(s, SEED_REQUEST, now) == (s.(securityLevel := 1, lastSeed := seed), Positive([1] + PushBe4(seed)))
  {
  }

  lemma KeyStep(s: State, now: nat)
    requires !s.session.DefaultSession? && s.securityLevel == 1
    ensures Handle(s, KeyRequest(s.cfg.Key(s.lastSeed)), now) == (s.(unlocked := true), Positive([2]))
  {
    var key := s.cfg.Key(s.lastSeed);
    WordTravels(key);
    assert KeyRequest(key)[2..6] == PushBe4(key);
  }

  /// Ready to be flashed.
  ghost predicate Ready(s: State) {
    s.session.Programming? && s.unlocked && s.cfg.Valid() && |s.flash| == s.cfg.flashSize
  }

  lemma EraseStep(s: State, now: nat)
    requires Ready(s)
    ensures var (t, r) := Handle(s, ERASE_REQUEST, now);
            Final(t, r).Positive? && Ready(t) && t.cfg == s.cfg && t.flash == Erased(s.cfg.flashSize)
  {
    RoutineNumber(ERASE_REQUEST);
  }

  lemma DownloadRead(address: nat, size: nat, q: seq<Byte>)
    requires address < WORD && size < WORD && q == DownloadRequest(address, size)
    ensures |q| == 11 && q[0] == REQUEST_DOWNLOAD && q[1] == 0 && q[2] == 0x44
    ensures AnnouncedAddress(q) == address && AnnouncedSize(q) == size
  {
    assert q[3..7] == PushBe4(address) && q[7..11] == PushBe4(size);
    WordTravels(address);
    WordTravels(size);
  }

  /// An announcement from a ready server: it begins a download, or only leaves its numbers behind.
  lemma DownloadStep(s: State, address: nat, size: nat, q: seq<Byte>, now: nat)
    requires s.session.Programming? && s.unlocked && address < WORD && size < WORD && q == DownloadRequest(address, size)
    ensures Accepts(s, q) <==> InRange(s.cfg, address, size)
    ensures InRange(s.cfg, address, size) ==>
              Handle(s, q, now).1.Positive?
              && Handle(s, q, now).0 == s.(address := address, size := size, active := true, complete := false, written := 0, expected := 1)
    ensures !InRange(s.cfg, address, size) ==>
              Handle(s, q, now) == (s.(address := address, size := size), Negative(RequestOutOfRange))
  {
    DownloadRead(address, size, q);
    assert Announces(s, q);
    assert Handle(s, q, now) == OnDownload(s, q);
  }

  /// One block in the right place.
  lemma BlockStep(s: State, data: seq<Byte>, q: seq<Byte>, now: nat, t: State)
    requires s.active && s.expected < 256 && WriteAt(s) + |data| <= |s.flash|
    requires q == TransferRequest(s.expected, data) && t == Handle(s, q, now).0
    ensures Writes(s, q) && t.flash == s.flash[..WriteAt(s)] + data + s.flash[WriteAt(s) + |data|..]
    ensures t == s.(flash := t.flash, written := (s.written + |data|) % WORD, expected := NextBlock(s.expected), deferred := t.deferred)
    ensures Final(t, Handle(s, q, now).1) == Positive([s.expected])
  {
    assert q[2..] == data;
  }

  lemma ChecksumAnswer(s: State, now: nat)
    requires s.written <= |s.flash|
    ensures Handle(s, CHECKSUM_REQUEST, now) == (s, Positive([1, 0xFF, 0x01] + PushBe4(Sum(s.flash[..s.written]) % WORD)))
  {
    RoutineNumber(CHECKSUM_REQUEST);
    assert [1 as Byte] + PushBe2(CHECKSUM) == [1, 0xFF, 0x01];
  }
}
