/// The frames of an ISO-TP transfer byte by byte, and what each side makes of the bytes it gets.
module IsoTpBytes {
  import opened Bits
  import opened IsoTp

  // ---- Frames ----

  /// A length that a CAN FD frame can have.
  predicate IsFdLength(n: nat) {
    n <= 8 || n == 12 || n == 16 || n == 20 || n == 24 || n == 32 || n == 48 || n == 64
  }

  /// Frames of CAN FD are as long as they must be.
  lemma FdLengthIsLeast(want: nat)
    requires want <= 64
    ensures want <= FdPaddedLength(want) && IsFdLength(FdPaddedLength(want))
    ensures forall n | want <= n && IsFdLength(n) :: FdPaddedLength(want) <= n
  {
  }

  /// A frame is the address extension, if there is one, the body, and padding bytes: none without padding, up to
  /// eight bytes with it, and in CAN FD up to the next length there is.
  lemma FrameLayout(cfg: Config, body: seq<Byte>)
    requires |body| + cfg.address.HeaderSize() <= 64
    ensures var (f, n) := (MakeFrame(cfg, body), |body| + if cfg.address.extended then 1 else 0);
            && f.id == cfg.address.txId && f.fd == cfg.useCanFd && f.brs == (cfg.useCanFd && cfg.fdBitRateSwitch)
            && n <= |f.data| && (cfg.address.extended ==> f.data[0] == cfg.address.txExtension)
            && f.data[n - |body|..n] == body && (forall k | n <= k < |f.data| :: f.data[k] == cfg.paddingByte)
            && (cfg.useCanFd ==> |f.data| == FdPaddedLength(n))
            && (!cfg.useCanFd ==> |f.data| == if cfg.padFrames && n < 8 then 8 else n)
  {
    var front := if cfg.address.extended then [cfg.address.txExtension] else [];
    assert FdPaddedLength(FdPaddedLength(|front + body|)) == FdPaddedLength(|front + body|);
    assert (front + body)[|front|..] == body;
  }

  /// The header of a First Frame: 0x1 and twelve bits of length up to 4095, and above that 0x10, 0x00 and four bytes,
  /// most significant first.
  lemma FirstFrameBytes(n: nat)
    requires n <= MAX_LENGTH
    ensures var h := FirstHeader(n);
            if n <= 4095 then |h| == 2 && h[0] / 16 == 1 && 256 * (h[0] % 16) + h[1] as nat == n
            else |h| == 6 && h[0] == 0x10 && h[1] == 0
                 && 16777216 * h[2] as nat + 65536 * h[3] as nat + 256 * h[4] as nat + h[5] as nat == n
  {
    if n > 4095 {
      FourDigits(n);
    }
  }

  lemma FourDigits(v: nat)
    requires v <= MAX_LENGTH
    ensures 16777216 * (v / 16777216 % 256) + 65536 * (v / 65536 % 256) + 256 * (v / 256 % 256) + v % 256 == v
  {
    var a := v / 256;
    var b := a / 256;
    assert v / 65536 == b && v / 16777216 == b / 256;
  }

  /// A Flow Control: 0x30, 0x31 or 0x32, the block size and STmin.
  lemma FlowControlBytes(cfg: Config)
    ensures MakeFlowControl(cfg, ContinueToSend) == MakeFrame(cfg, [0x30, cfg.blockSize, cfg.stMinRaw])
    ensures MakeFlowControl(cfg, Wait) == MakeFrame(cfg, [0x31, cfg.blockSize, cfg.stMinRaw])
    ensures MakeFlowControl(cfg, Overflow) == MakeFrame(cfg, [0x32, cfg.blockSize, cfg.stMinRaw])
  {
  }

  // ---- Sending ----

  /// A transfer is refused while another runs or has run, with timeouts or a limit of zero or too little time to answer
  /// in, and for more bytes than 32 bits count; then nothing changes.
  lemma BeginExactly(s: SenderState, message: seq<Byte>, now: nat)
    ensures var (b, r) := Begin(s, message, now);
            var fine := s.cfg.nBs > 0 && s.cfg.nCr > 0 && s.cfg.maxReceiveLength > 0
                        && s.cfg.nBr < 9 * s.cfg.nBs / 10 && s.cfg.nCs < 9 * s.cfg.nCr / 10;
            && (r == InvalidArgument <==> !s.phase.Idle? || !fine)
            && (r == PayloadTooLarge <==> s.phase.Idle? && fine && |message| > 0xFFFF_FFFF)
            && (r != Started ==> b == s)
            && (r == Started ==> b.payload == message && b.nextSend == now && b.cfg == s.cfg && b.result.InProgress?)
  {
  }

  /// Up to seven bytes, or six behind an address extension, go into a Single Frame with their number in front; more
  /// begin with a First Frame, which takes what is left of eight bytes.
  lemma FirstPoll(s: SenderState, message: seq<Byte>, start: nat, now: nat)
    requires s.Valid() && s.phase.Idle? && s.result.InProgress? && s.cfg.Acceptable() && |message| <= MAX_LENGTH
    ensures var header := if s.cfg.address.extended then 1 else 0;
            var (b, started) := Begin(s, message, start);
            && started == Started && b.Valid()
            && if |message| <= 7 - header then
                 && SenderPoll(b, now).1 == [MakeFrame(s.cfg, [|message| as Byte] + message)]
                 && SenderPoll(b, now).0.phase.Finished? && SenderPoll(b, now).0.result.Ok?
               else
                 var take := 8 - header - (if |message| <= 4095 then 2 else 6);
                 && SenderPoll(b, now).1 == [MakeFrame(s.cfg, FirstHeader(|message|) + message[..take])]
                 && SenderPoll(b, now).0.phase.WaitingFlowControl? && SenderPoll(b, now).0.offset == take
                 && SenderPoll(b, now).0.deadline == now + s.cfg.nBs && SenderPoll(b, now).0.sequence == 1
  {
  }

  /// A Consecutive Frame: 0x2 with the sequence number, and the next seven bytes, or six, or what is left; numbers go
  /// from 15 on to 0, and after the last byte the sender is done.
  lemma ConsecutivePoll(s: SenderState, now: nat)
    requires s.Valid() && s.phase.SendingConsecutive? && s.result.InProgress? && now >= s.nextSend && s.offset < |s.payload|
    ensures var room := if s.cfg.address.extended then 6 else 7;
            var take := if |s.payload| - s.offset < room then |s.payload| - s.offset else room;
            var (t, out) := SenderPoll(s, now);
            && out == [MakeFrame(s.cfg, [(32 + s.sequence) as Byte] + s.payload[s.offset..s.offset + take])]
            && t.offset == s.offset + take && t.sequence == (if s.sequence == 15 then 0 else s.sequence + 1)
            && t.nextSend == now + s.stMin && (t.result.Ok? <==> s.offset + take == |s.payload|)
  {
  }

  /// Before its time, nothing is sent; and a Flow Control is waited for until N_Bs has passed.
  lemma WaitingPoll(s: SenderState, now: nat)
    requires s.Valid() && s.result.InProgress?
    ensures s.phase.SendingConsecutive? && now < s.nextSend ==> SenderPoll(s, now) == (s, [])
    ensures s.phase.WaitingFlowControl? ==>
              SenderPoll(s, now).1 == [] && (SenderPoll(s, now).0.result.TimeoutBs? <==> now >= s.deadline)
              && (now < s.deadline ==> SenderPoll(s, now).0 == s)
  {
  }

  /// The body of a frame for this side: from the right identifier, and behind the right address extension.
  ghost predicate Carries(address: Address, frame: CanFrame, body: seq<Byte>) {
    && frame.id == address.rxId && body != []
    && frame.data == (if address.extended then [address.rxExtension] else []) + body
  }

  lemma BodyIs(address: Address, frame: CanFrame, body: seq<Byte>)
    requires Carries(address, frame, body)
    ensures BodyOf(address, frame) == Body(body)
  {
    var front := if address.extended then [address.rxExtension] else [];
    assert (front + body)[|front|..] == body;
  }

  /// What a waiting sender does with a Flow Control `3x`: 0 and it goes on, at the pace and in the blocks asked for; 1 and
  /// it waits again; 2 and it gives up; anything else is no Flow Control.
  lemma FlowControlTaken(s: SenderState, frame: CanFrame, body: seq<Byte>, now: nat)
    requires s.phase.WaitingFlowControl? && s.result.InProgress? && Carries(s.cfg.address, frame, body)
    requires |body| >= 3 && body[0] / 16 == 3
    ensures var (t, status, raw) := (SenderOnFrame(s, frame, now), body[0] % 16, body[2] as int);
            && (status == 0 ==> t.phase.SendingConsecutive? && t.result.InProgress? && t.blockSize == body[1]
                                && t.stMin == (if raw <= 127 then 1000000 * raw
                                               else if 0xF1 <= raw <= 0xF9 then 100000 * (raw - 240) else 127000000)
                                && t.nextSend == now + s.cfg.nCs && t.waitCount == 0 && t.framesInBlock == 0)
            && (status == 2 ==> t.result.BufferOverflow?)
            && (status > 2 ==> t.result.InvalidPdu?)
  {
    BodyIs(s.cfg.address, frame, body);
  }

  /// Anything else ends the transfer: what is no Flow Control, or comes when none is awaited, is unexpected; one that is
  /// too short is invalid.
  lemma OtherFramesEnd(s: SenderState, frame: CanFrame, body: seq<Byte>, now: nat)
    requires s.result.InProgress? && Carries(s.cfg.address, frame, body)
    ensures body[0] / 16 != 3 || !s.phase.WaitingFlowControl? ==> SenderOnFrame(s, frame, now).result.UnexpectedPdu?
    ensures s.phase.WaitingFlowControl? && body[0] / 16 == 3 && |body| < 3 ==> SenderOnFrame(s, frame, now).result.InvalidPdu?
  {
    BodyIs(s.cfg.address, frame, body);
  }

  // ---- Waiting ----

  /// The sender after `k` Wait frames in a row, at the given times.
  function AfterWaits(s: SenderState, frame: CanFrame, times: seq<nat>): SenderState {
    if times == [] then s
    else SenderOnFrame(AfterWaits(s, frame, times[..|times| - 1]), frame, times[|times| - 1])
  }

  lemma WaitTaken(s: SenderState, frame: CanFrame, body: seq<Byte>, now: nat)
    requires s.phase.WaitingFlowControl? && s.result.InProgress? && s.waitCount < 256
    requires Carries(s.cfg.address, frame, body) && |body| >= 3 && body[0] == 0x31
    ensures var (t, k) := (SenderOnFrame(s, frame, now), (s.waitCount + 1) % 256);
            && t.cfg == s.cfg && t.waitCount == k
            && if s.cfg.wftMax != 0 && k > s.cfg.wftMax then t.phase.Finished? && t.result.WaitOverrun?
               else t.phase.WaitingFlowControl? && t.result.InProgress? && t.deadline == now + s.cfg.nBs
  {
    BodyIs(s.cfg.address, frame, body);
  }

  lemma EndedStays(s: SenderState, frame: CanFrame, now: nat)
    requires !s.result.InProgress?
    ensures SenderOnFrame(s, frame, now) == s
  {
  }

  /// After `k` Wait frames, the last at `at`: still waiting, or given up.
  predicate Patient(cfg: Config, t: SenderState, k: nat, at: nat) {
    && t.cfg == cfg
    && if cfg.wftMax == 0 || k <= cfg.wftMax then
         && t.phase.WaitingFlowControl? && t.result.InProgress? && t.waitCount == k % 256
         && (k > 0 ==> t.deadline == at + cfg.nBs)
       else t.phase.Finished? && t.result.WaitOverrun?
  }

  lemma OneMoreWait(t: SenderState, frame: CanFrame, body: seq<Byte>, k: nat, at: nat, now: nat, u: SenderState)
    requires Patient(t.cfg, t, k, at) && t.cfg.wftMax < 255 && Carries(t.cfg.address, frame, body)
    requires |body| >= 3 && body[0] == 0x31 && u == SenderOnFrame(t, frame, now)
    ensures Patient(t.cfg, u, k + 1, now)
  {
    if t.result.InProgress? {
      WaitTaken(t, frame, body, now);
    } else {
      EndedStays(t, frame, now);
    }
  }

  /// As many Wait frames as WFTmax are put up with, each for another N_Bs, and no more; with no WFTmax, any number.
  lemma {:induction false} WaitsCounted(s: SenderState, frame: CanFrame, body: seq<Byte>, times: seq<nat>)
    requires s.phase.WaitingFlowControl? && s.result.InProgress? && s.waitCount == 0 && s.cfg.wftMax < 255
    requires Carries(s.cfg.address, frame, body) && |body| >= 3 && body[0] == 0x31
    ensures Patient(s.cfg, AfterWaits(s, frame, times), |times|, if times == [] then 0 else times[|times| - 1])
    decreases |times|
  {
    if times != [] {
      var front, now := times[..|times| - 1], times[|times| - 1];
      WaitsCounted(s, frame, body, front);
      OneMoreWait(AfterWaits(s, frame, front), frame, body, |front|, if front == [] then 0 else front[|front| - 1], now,
                  AfterWaits(s, frame, times));
    }
  }

  // ---- Receiving ----

  /// The number of bytes a Single Frame says it carries, and where they begin.
  function SingleLength(body: seq<Byte>): (nat, nat)
    requires |body| >= 2
  {
    if body[0] % 16 != 0 then (body[0] % 16, 1) else (body[1], 2)
  }

  /// A Single Frame `0n` is taken by a receiver that waits for a message if it holds all the bytes it says, at least one;
  /// with `00` the number is in the second byte.
  lemma SingleTaken(r: ReceiverState, frame: CanFrame, body: seq<Byte>, now: nat)
    requires r.Valid() && r.phase.Waiting? && Carries(r.cfg.address, frame, body) && |body| >= 2 && body[0] / 16 == 0
    ensures var ((n, at), t) := (SingleLength(body), ReceiverOnFrame(r, frame, now));
            if 1 <= n && at + n <= |body| then t.result.Ok? && t.payload == body[at..at + n] else t.result.InvalidPdu?
  {
    BodyIs(r.cfg.address, frame, body);
  }

  /// A First Frame is taken if its length is more than a Single Frame holds, and answered after N_Br: with an overflow
  /// if the length is above the limit.
  lemma FirstTaken(r: ReceiverState, frame: CanFrame, body: seq<Byte>, n: nat, now: nat)
    requires r.Valid() && r.phase.Waiting? && Carries(r.cfg.address, frame, body) && |body| >= 2 && 1 <= n <= 4095
    requires body[0] as nat == 16 + n / 256 && body[1] as nat == n % 256
    ensures var (t, header) := (ReceiverOnFrame(r, frame, now), if r.cfg.address.extended then 1 else 0);
            if n <= 7 - header then t.result.InvalidPdu?
            else
              && t.phase.SendFlowControl? && t.fcDue == now + r.cfg.nBr && t.expected == n
              && (t.pending.Overflow? <==> n > r.cfg.maxReceiveLength)
              && (!t.pending.Overflow? ==> t.pending.ContinueToSend? && t.sequence == 1)
              && (!t.pending.Overflow? ==> t.payload == body[2..2 + if n < |body| - 2 then n else |body| - 2])
  {
    BodyIs(r.cfg.address, frame, body);
    assert 256 * (body[0] % 16) + body[1] as nat == n;
  }

  /// A Consecutive Frame `2n` is taken if its number is the one awaited: its bytes up to the length of the message are
  /// added, and the message is complete when they are all there. Any other number ends the transfer.
  lemma ConsecutiveTaken(r: ReceiverState, frame: CanFrame, body: seq<Byte>, now: nat)
    requires r.Valid() && r.phase.Receiving? && Carries(r.cfg.address, frame, body) && body[0] / 16 == 2
    ensures var t := ReceiverOnFrame(r, frame, now);
            if body[0] % 16 != r.sequence then t.result.WrongSequence?
            else
              var left := r.expected - |r.payload|;
              var take := if left < |body| - 1 then left else |body| - 1;
              && t.payload == r.payload + body[1..1 + take] && t.sequence == (r.sequence + 1) % 16
              && (left <= |body| - 1 ==> t.phase.Over? && t.result.Ok?)
              && (left > |body| - 1 ==>
                    && t.deadline == now + r.cfg.nCr && (t.phase.SendFlowControl? ==> t.fcDue == now + r.cfg.nBr)
                    && (t.phase.SendFlowControl? <==> r.cfg.blockSize != 0 && (r.framesInBlock + 1) % 256 >= r.cfg.blockSize))
  {
    BodyIs(r.cfg.address, frame, body);
  }

  /// A frame that does not fit what the receiver is doing is unexpected; one of a kind there is not is invalid.
  lemma OtherFramesRefused(r: ReceiverState, frame: CanFrame, body: seq<Byte>, now: nat)
    requires r.Valid() && !r.phase.Over? && Carries(r.cfg.address, frame, body)
    ensures body[0] / 16 <= 1 && !r.phase.Waiting? ==> ReceiverOnFrame(r, frame, now).result.UnexpectedPdu?
    ensures body[0] / 16 == 2 && !r.phase.Receiving? ==> ReceiverOnFrame(r, frame, now).result.UnexpectedPdu?
    ensures body[0] / 16 == 3 ==> ReceiverOnFrame(r, frame, now).result.UnexpectedPdu?
    ensures body[0] / 16 > 3 ==> ReceiverOnFrame(r, frame, now).result.InvalidPdu?
  {
    BodyIs(r.cfg.address, frame, body);
  }

  /// When it is due, the receiver sends its Flow Control, and an overflow ends the transfer; while it receives it waits
  /// for the next frame until N_Cr has passed.
  lemma ReceiverPolled(r: ReceiverState, now: nat)
    ensures r.phase.SendFlowControl? && now < r.fcDue ==> ReceiverPoll(r, now) == (r, [])
    ensures r.phase.SendFlowControl? && now >= r.fcDue ==>
              && ReceiverPoll(r, now).1 == [MakeFlowControl(r.cfg, r.pending)]
              && (if r.pending.Overflow? then ReceiverPoll(r, now).0.result.BufferOverflow?
                  else ReceiverPoll(r, now).0.phase.Receiving? && ReceiverPoll(r, now).0.deadline == now + r.cfg.nCr)
    ensures r.phase.Receiving? ==>
              ReceiverPoll(r, now).1 == [] && ReceiverPoll(r, now).0 == if now >= r.deadline then r.(phase := Over, result := TimeoutCr) else r
  {
  }
}
