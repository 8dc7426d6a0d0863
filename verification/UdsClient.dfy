/// The download sequence of cli/src/canforge.cpp against the server.
module UdsClient {
  import opened Bits
  import opened Uds
  import opened UdsSteps

  const BLOCK: nat := 256

  // ---- What each request does ----

  /// Half-way through: the first `offset` bytes of the image are in flash, the rest is erased, and both
  /// sides are at the same block.
  ghost predicate InStep(s: State, image: seq<Byte>, offset: nat, block: nat) {
    && offset <= |image| <= s.cfg.flashSize < WORD && s.cfg.flashBase < WORD && 1 <= block <= 255
    && s.active && s.address == s.cfg.flashBase && s.size == |image| && s.written == offset && s.expected == block
    && s.flash == image[..offset] + Erased(s.cfg.flashSize - offset)
  }

  lemma TransferStep(s: State, image: seq<Byte>, offset: nat, block: nat, end: nat, now: nat)
    requires InStep(s, image, offset, block) && offset < end <= |image|
    ensures var (t, r) := Handle(s, TransferRequest(block, image[offset..end]), now);
            Final(t, r) == Positive([block]) && t.cfg == s.cfg && InStep(t, image, end, NextBlock(block))
  {
    var data := image[offset..end];
    var q := TransferRequest(block, data);
    assert WriteAt(s) == offset;
    BlockStep(s, data, q, now, Handle(s, q, now).0);
    FlashGrows(image, offset, end, s.cfg.flashSize);
  }

  lemma FlashGrows(image: seq<Byte>, offset: nat, end: nat, size: nat)
    requires offset < end <= |image| <= size
    ensures var flash := image[..offset] + Erased(size - offset);
            flash[..offset] + image[offset..end] + flash[end..] == image[..end] + Erased(size - end)
  {
  }

  lemma ExitStep(s: State, image: seq<Byte>, block: nat, now: nat)
    requires InStep(s, image, |image|, block)
    ensures var (t, r) := Handle(s, EXIT_REQUEST, now);
            Final(t, r).Positive? && t == s.(active := false, complete := true)
  {
  }

  lemma ChecksumStep(s: State, image: seq<Byte>, now: nat)
    requires s.written == |image| <= |s.flash| && s.flash[..|image|] == image
    ensures var (t, r) := Handle(s, CHECKSUM_REQUEST, now);
            t == s && Final(t, r).Positive? && |r.body| == 7 && ReadBe(r.body[3..7]) == Sum(image) % WORD
  {
    ChecksumAnswer(s, now);
    var sum := Sum(image) % WORD;
    var r := Handle(s, CHECKSUM_REQUEST, now).1;
    assert r.body[3..7] == PushBe4(sum);
    WordTravels(sum);
  }

  // ---- The client ----

  /// Send a request and wait for the final answer.
  method Ask(server: UdsServer, q: seq<Byte>, now: nat) returns (r: Response)
    modifies server, server.flash
    ensures server.View() == Handle(old(server.View()), q, now).0
    ensures r == Final(server.View(), Handle(old(server.View()), q, now).1)
  {
    r := server.HandleRequest(q, now);
    if r == Negative(ResponsePending) {
      r := server.deferred;
    }
  }

  /// The image is in flash and the download is over.
  ghost predicate Flashed(s: State, image: seq<Byte>) {
    && |image| <= s.cfg.flashSize && s.complete && !s.active && s.written == |image|
    && s.flash == image + Erased(s.cfg.flashSize - |image|)
  }

  /// When the requests are made: the first, the second, and so on.
  type Times = nat -> nat

  function From(clock: Times, n: nat): Times {
    k => clock(n + k)
  }

  /// The flash sequence of `canforge uds`, from the session change on, against a server in any state: an
  /// image that fits arrives whole, through any number of wraps of the block counter, and the checksums match,
  /// whenever the requests are made.
  method Flash(server: UdsServer, image: seq<Byte>, clock: Times) returns (ok: bool, reported: nat)
    requires |image| < WORD && server.cfg.Valid() && server.flash.Length == server.cfg.flashSize
    modifies server, server.flash
    ensures |image| <= server.cfg.flashSize ==> ok && Flashed(server.View(), image) && reported == Sum(image) % WORD
  {
    ok, reported := false, 0;
    var unlocked := Unlock(server, clock);
    if !unlocked {
      return;
    }
    var begun := EraseAndAnnounce(server, image, From(clock, 3));
    if !begun {
      return;
    }
    var sent, blocks := SendBlocks(server, image, From(clock, 5));
    if !sent {
      return;
    }
    ok, reported := ExitAndVerify(server, image, From(clock, 5 + blocks));
  }

  /// Enter the programming session, ask for a seed and send the key that belongs to it.
  method Unlock(server: UdsServer, clock: Times) returns (ok: bool)
    requires server.cfg.Valid() && server.flash.Length == server.cfg.flashSize
    modifies server, server.flash
    ensures ok && Ready(server.View())
  {
    ok := false;
    ProgrammingStep(server.View(), clock(0));
    var r := Ask(server, PROGRAMMING_REQUEST, clock(0));
    if !r.Positive? {
      return;
    }
    ghost var s := server.View();
    ghost var seed := if s.unlocked then 0 else s.cfg.seedAt(clock(1)) % WORD;
    SeedStep(s, clock(1), seed);
    r := Ask(server, SEED_REQUEST, clock(1));
    if !r.Positive? || |r.body| < 5 {
      return;
    }
    assert r.body[1..5] == PushBe4(seed);
    WordTravels(seed);
    KeyStep(server.View(), clock(2));
    r := Ask(server, KeyRequest(server.cfg.Key(ReadBe(r.body[1..5]))), clock(2));
    ok := r.Positive?;
  }

  method EraseAndAnnounce(server: UdsServer, image: seq<Byte>, clock: Times) returns (ok: bool)
    requires |image| < WORD && server.cfg.flashBase < WORD
    modifies server, server.flash
    ensures Ready(old(server.View())) && |image| <= server.cfg.flashSize ==> ok && InStep(server.View(), image, 0, 1)
  {
    ok := EraseAll(server, clock(0));
    if ok {
      ok := Announce(server, image, clock(1));
    }
  }

  method EraseAll(server: UdsServer, now: nat) returns (ok: bool)
    modifies server, server.flash
    ensures Ready(old(server.View())) ==> ok && Ready(server.View()) && server.View().flash == Erased(server.cfg.flashSize)
  {
    if Ready(server.View()) {
      EraseStep(server.View(), now);
    }
    var r := Ask(server, ERASE_REQUEST, now);
    ok := r.Positive?;
  }

  method Announce(server: UdsServer, image: seq<Byte>, now: nat) returns (ok: bool)
    requires |image| < WORD && server.cfg.flashBase < WORD
    modifies server, server.flash
    ensures Ready(old(server.View())) && old(server.View().flash) == Erased(server.cfg.flashSize) && |image| <= server.cfg.flashSize ==>
              ok && InStep(server.View(), image, 0, 1)
  {
    var q := DownloadRequest(server.cfg.flashBase, |image|);
    if Ready(server.View()) && |image| <= server.cfg.flashSize {
      DownloadStep(server.View(), server.cfg.flashBase, |image|, q, now);
    }
    var r := Ask(server, q, now);
    ok := r.Positive?;
    assert image[..0] + Erased(server.cfg.flashSize) == Erased(server.cfg.flashSize);
  }

  /// The loop over blocks of at most 256 bytes.
  method SendBlocks(server: UdsServer, image: seq<Byte>, clock: Times) returns (ok: bool, blocks: nat)
    modifies server, server.flash
    ensures InStep(old(server.View()), image, 0, 1) ==> ok && exists block :: InStep(server.View(), image, |image|, block)
  {
    var block: nat, offset := 1, 0;
    blocks := 0;
    ghost var inStep := InStep(server.View(), image, 0, 1);
    while offset < |image|
      invariant 0 <= offset <= |image| && block < 256
      invariant inStep ==> InStep(server.View(), image, offset, block)
    {
      var take := if |image| - offset < BLOCK then |image| - offset else BLOCK;
      var end := offset + take;
      if inStep {
        TransferStep(server.View(), image, offset, block, end, clock(blocks));
      }
      var r := Ask(server, TransferRequest(block, image[offset..end]), clock(blocks));
      if !r.Positive? {
        return false, blocks;
      }
      offset, blocks := end, blocks + 1;
      block := (block + 1) % 256;
      if block == 0 {
        block := 1;
      }
    }
    ok := true;
  }

  method ExitAndVerify(server: UdsServer, image: seq<Byte>, clock: Times) returns (ok: bool, reported: nat)
    modifies server, server.flash
    ensures (exists block :: InStep(old(server.View()), image, |image|, block)) ==>
              ok && Flashed(server.View(), image) && reported == Sum(image) % WORD
  {
    ghost var s := server.View();
    ghost var inStep := exists block :: InStep(s, image, |image|, block);
    ok, reported := false, 0;
    var r := Ask(server, EXIT_REQUEST, clock(0));
    if inStep {
      ghost var block :| InStep(s, image, |image|, block);
      ExitStep(s, image, block, clock(0));
    }
    if r.Positive? {
      ok, reported := Verify(server, image, clock(1));
    }
  }

  method Verify(server: UdsServer, image: seq<Byte>, now: nat) returns (ok: bool, reported: nat)
    modifies server, server.flash
    ensures Flashed(old(server.View()), image) ==> ok && Flashed(server.View(), image) && reported == Sum(image) % WORD
  {
    ok, reported := false, 0;
    if Flashed(server.View(), image) {
      assert server.View().flash[..|image|] == image;
      ChecksumStep(server.View(), image, now);
    }
    var r := Ask(server, CHECKSUM_REQUEST, now);
    if !r.Positive? || |r.body| < 7 {
      return;
    }
    reported := ReadBe(r.body[3..7]);
    var expected := AddUp(image);
    ok := reported == expected;
  }

  method AddUp(image: seq<Byte>) returns (sum: nat)
    ensures sum == Sum(image) % WORD
  {
    sum := 0;
    for i := 0 to |image|
      invariant sum == Sum(image[..i]) % WORD
    {
      assert image[..i + 1][..i] == image[..i];
      sum := (sum + image[i] as nat) % WORD;
    }
    assert image[..|image|] == image;
  }
}
