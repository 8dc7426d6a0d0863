/// The ISO 15765-2 sender and receiver of isotp/src/IsoTp.cpp: two timed state machines driven by
/// received frames and by polls, as functions on their state and as the objects that keep it.
module IsoTp {
  import opened Bits
  import Frame

  /// A CAN frame as this layer sees it: the identifier, the payload bytes, and the flags of CAN FD.
  datatype CanFrame = CanFrame(id: Frame.CanId, data: seq<Byte>, fd: bool, brs: bool)

  // ---- Configuration ----

  datatype Address = Address(extended: bool, txId: Frame.CanId, rxId: Frame.CanId, txExtension: Byte, rxExtension: Byte) {
    /// Bytes of the payload before the protocol control information.
    function HeaderSize(): nat {
      if extended then 1 else 0
    }
  }

  datatype Config = Config(address: Address, nBs: nat, nCr: nat, nBr: nat, nCs: nat, blockSize: Byte, stMinRaw: Byte,
                           wftMax: nat, maxReceiveLength: nat, padFrames: bool, paddingByte: Byte, useCanFd: bool,
                           fdBitRateSwitch: bool) {
    /// `Config::validate`.
    predicate Acceptable() {
      && nBs != 0 && nCr != 0 && nBr < nBs * 9 / 10 && nCs < nCr * 9 / 10 && maxReceiveLength != 0
    }
  }

  const MILLISECOND: nat := 1000000
  const SINGLE_MAX: nat := 7
  const CLASSIC_MAX_LENGTH: nat := 4095
  const MAX_LENGTH: nat := 4294967295

  /// `st_min_to_ns`: reserved values mean the slowest rate.
  function StMinToNs(raw: Byte): nat {
    if raw <= 0x7F then raw * MILLISECOND
    else if 0xF1 <= raw <= 0xF9 then (raw - 0xF0) * 100000
    else 127 * MILLISECOND
  }

  /// `fd_padded_length`.
  function FdPaddedLength(want: nat): (n: nat)
    ensures want <= 8 ==> n == want
  {
    if want <= 8 then want
    else if want <= 12 then 12
    else if want <= 16 then 16
    else if want <= 20 then 20
    else if want <= 24 then 24
    else if want <= 32 then 32
    else if want <= 48 then 48
    else 64
  }

  datatype Result =
    | InProgress
    | Ok
    | TimeoutBs
    | TimeoutCr
    | WrongSequence
    | UnexpectedPdu
    | BufferOverflow
    | WaitOverrun
    | InvalidPdu

  // ---- Frames ----

  function Padding(b: Byte, n: nat): seq<Byte> {
    seq(n, _ => b)
  }

  /// The frame that carries `body`: the address extension in front, padding behind.
  function MakeFrame(cfg: Config, body: seq<Byte>): CanFrame {
    var data := (if cfg.address.extended then [cfg.address.txExtension] else []) + body;
    var padded := if !cfg.padFrames then |data| else if cfg.useCanFd then FdPaddedLength(|data|) else 8;
    var length := if cfg.useCanFd then FdPaddedLength(padded) else padded;
    CanFrame(cfg.address.txId, data + Padding(cfg.paddingByte, if length < |data| then 0 else length - |data|),
             cfg.useCanFd, cfg.useCanFd && cfg.fdBitRateSwitch)
  }

  datatype FlowStatus = ContinueToSend | Wait | Overflow

  function MakeFlowControl(cfg: Config, status: FlowStatus): CanFrame {
    var code: Byte := match status case ContinueToSend => 0x30 case Wait => 0x31 case Overflow => 0x32;
    MakeFrame(cfg, [code, cfg.blockSize, cfg.stMinRaw])
  }

  datatype Body = Ignored | Body(bytes: seq<Byte>)

  /// What is left of a received frame once the address is checked.
  function BodyOf(address: Address, frame: CanFrame): (b: Body)
    ensures b.Body? ==> b.bytes != []
  {
    if frame.id != address.rxId || |frame.data| <= address.HeaderSize() then Ignored
    else if address.extended && frame.data[0] != address.rxExtension then Ignored
    else Body(frame.data[address.HeaderSize()..])
  }

  function Pci(body: seq<Byte>): nat
    requires body != []
  {
    body[0] / 16
  }

  function Low(body: seq<Byte>): nat
    requires body != []
  {
    body[0] % 16
  }

  function Min(a: nat, b: nat): nat {
    if a < b then a else b
  }

  // ---- The sender ----

  datatype SenderPhase = Idle | SendingSingle | SendingFirst | WaitingFlowControl | SendingConsecutive | Finished

  datatype SenderState = SenderState(cfg: Config, payload: seq<Byte>, phase: SenderPhase, result: Result, offset: nat,
                                     sequence: nat, blockSize: nat, stMin: nat, framesInBlock: nat, waitCount: nat,
                                     deadline: nat, nextSend: nat) {
    ghost predicate Valid() {
      offset <= |payload| && sequence < 16 && (phase.SendingSingle? ==> |payload| <= SINGLE_MAX - cfg.address.HeaderSize())
    }

    function End(r: Result): SenderState {
      this.(phase := Finished, result := r)
    }
  }

  function NewSender(cfg: Config): SenderState {
    SenderState(cfg, [], Idle, InProgress, 0, 0, 0, 0, 0, 0, 0, 0)
  }

  datatype StartResult = Started | InvalidArgument | PayloadTooLarge

  /// `begin`: refused when a transfer runs, the configuration is bad or the message too long.
  function Begin(s: SenderState, message: seq<Byte>, now: nat): (SenderState, StartResult) {
    if !s.phase.Idle? || !s.cfg.Acceptable() then (s, InvalidArgument)
    else if |message| > MAX_LENGTH then (s, PayloadTooLarge)
    else
      var single := |message| <= SINGLE_MAX - s.cfg.address.HeaderSize();
      (s.(payload := message, offset := 0, sequence := 0, waitCount := 0, framesInBlock := 0, result := InProgress,
          phase := if single then SendingSingle else SendingFirst, nextSend := now), Started)
  }

  function FirstHeader(n: nat): seq<Byte> {
    if n <= CLASSIC_MAX_LENGTH then [0x10 + n / 256 % 16, n % 256]
    else [0x10, 0x00, n / 16777216 % 256, n / 65536 % 256, n / 256 % 256, n % 256]
  }

  function SenderPoll(s: SenderState, now: nat): (SenderState, seq<CanFrame>)
    requires s.Valid()
  {
    if !s.result.InProgress? then (s, [])
    else
      var header := s.cfg.address.HeaderSize();
      match s.phase
      case Idle => (s, [])
      case Finished => (s, [])
      case SendingSingle =>
        var n := |s.payload|;
        (s.(offset := n).End(Ok), [MakeFrame(s.cfg, [n as Byte] + s.payload)])
      case SendingFirst =>
        var first := FirstHeader(|s.payload|);
        var take := Min(8 - header - |first|, |s.payload|);
        (s.(offset := take, sequence := 1, phase := WaitingFlowControl, deadline := now + s.cfg.nBs),
         [MakeFrame(s.cfg, first + s.payload[..take])])
      case WaitingFlowControl =>
        (if now >= s.deadline then s.End(TimeoutBs) else s, [])
      case SendingConsecutive =>
        if now < s.nextSend then (s, [])
        else
          var take := Min(8 - header - 1, |s.payload| - s.offset);
          (AfterConsecutive(s, take, now),
           [MakeFrame(s.cfg, [(0x20 + s.sequence) as Byte] + s.payload[s.offset..s.offset + take])])
  }

  /// The sender after a Consecutive Frame with `take` bytes.
  function AfterConsecutive(s: SenderState, take: nat, now: nat): SenderState {
    var sent := s.(offset := s.offset + take, sequence := (s.sequence + 1) % 16,
                   framesInBlock := (s.framesInBlock + 1) % 256, nextSend := now + s.stMin);
    if sent.offset >= |s.payload| then sent.End(Ok)
    else if s.blockSize != 0 && sent.framesInBlock >= s.blockSize then
      sent.(framesInBlock := 0, phase := WaitingFlowControl, deadline := now + s.cfg.nBs)
    else sent
  }

  function SenderOnFrame(s: SenderState, frame: CanFrame, now: nat): SenderState {
    var b := BodyOf(s.cfg.address, frame);
    if !s.result.InProgress? || b.Ignored? then s
    else if Pci(b.bytes) != 3 || !s.phase.WaitingFlowControl? then s.End(UnexpectedPdu)
    else if |b.bytes| < 3 then s.End(InvalidPdu)
    else if Low(b.bytes) == 0 then
      s.(blockSize := b.bytes[1], stMin := StMinToNs(b.bytes[2]), waitCount := 0, framesInBlock := 0,
         phase := SendingConsecutive, nextSend := now + s.cfg.nCs)
    else if Low(b.bytes) == 1 then
      var waited := s.(waitCount := (s.waitCount + 1) % 256);
      if s.cfg.wftMax != 0 && waited.waitCount > s.cfg.wftMax then waited.End(WaitOverrun)
      else waited.(deadline := now + s.cfg.nBs)
    else if Low(b.bytes) == 2 then s.End(BufferOverflow)
    else s.End(InvalidPdu)
  }

  // ---- The receiver ----

  datatype ReceiverPhase = Waiting | SendFlowControl | Receiving | Over

  datatype ReceiverState = ReceiverState(cfg: Config, payload: seq<Byte>, phase: ReceiverPhase, result: Result,
                                         expected: nat, sequence: nat, framesInBlock: nat, deadline: nat, fcDue: nat,
                                         pending: FlowStatus) {
    ghost predicate Valid() {
      (phase.Receiving? || (phase.SendFlowControl? && !pending.Overflow?)) ==> |payload| <= expected
    }

    function End(r: Result): ReceiverState {
      this.(phase := Over, result := r)
    }
  }

  function NewReceiver(cfg: Config): ReceiverState {
    ReceiverState(cfg, [], Waiting, InProgress, 0, 0, 0, 0, 0, ContinueToSend)
  }

  function ReceiverPoll(r: ReceiverState, now: nat): (ReceiverState, seq<CanFrame>) {
    match r.phase
    case SendFlowControl =>
      if now < r.fcDue then (r, [])
      else
        var fc := [MakeFlowControl(r.cfg, r.pending)];
        if r.pending.Overflow? then (r.End(BufferOverflow), fc)
        else (r.(phase := Receiving, framesInBlock := 0, deadline := now + r.cfg.nCr), fc)
    case Receiving => (if now >= r.deadline then r.End(TimeoutCr) else r, [])
    case _ => (r, [])
  }

  function OnSingle(r: ReceiverState, b: seq<Byte>): ReceiverState
    requires b != []
  {
    if !r.phase.Waiting? then r.End(UnexpectedPdu)
    else if Low(b) == 0 && |b| < 2 then r.End(InvalidPdu)
    else
      var length := if Low(b) == 0 then b[1] else Low(b);
      var at := if Low(b) == 0 then 2 else 1;
      if length == 0 || at + length > |b| then r.End(InvalidPdu)
      else r.(payload := b[at..at + length], expected := length).End(Ok)
  }

  function Number32(b: seq<Byte>): nat
    requires |b| == 4
  {
    16777216 * b[0] as nat + 65536 * b[1] as nat + 256 * b[2] as nat + b[3] as nat
  }

  function OnFirst(r: ReceiverState, b: seq<Byte>, now: nat): ReceiverState
    requires b != []
  {
    if !r.phase.Waiting? then r.End(UnexpectedPdu)
    else if |b| < 2 then r.End(InvalidPdu)
    else
      var short := 256 * Low(b) + b[1] as nat;
      if short == 0 && |b| < 6 then r.End(InvalidPdu)
      else
        var length := if short != 0 then short else Number32(b[2..6]);
        var at := if short != 0 then 2 else 6;
        if length <= SINGLE_MAX - r.cfg.address.HeaderSize() then r.End(InvalidPdu)
        else
          var begun := r.(expected := length, phase := SendFlowControl, fcDue := now + r.cfg.nBr);
          if length > r.cfg.maxReceiveLength then begun.(pending := Overflow)
          else begun.(payload := b[at..at + Min(length, |b| - at)], sequence := 1, pending := ContinueToSend)
  }

  /// The receiver after the bytes of a Consecutive Frame.
  function Accepted(r: ReceiverState, bytes: seq<Byte>, now: nat): ReceiverState {
    var more := r.(sequence := (r.sequence + 1) % 16, payload := r.payload + bytes, framesInBlock := (r.framesInBlock + 1) % 256);
    if |more.payload| >= r.expected then more.End(Ok)
    else if r.cfg.blockSize != 0 && more.framesInBlock >= r.cfg.blockSize then
      more.(deadline := now + r.cfg.nCr, pending := ContinueToSend, phase := SendFlowControl, fcDue := now + r.cfg.nBr)
    else more.(deadline := now + r.cfg.nCr)
  }

  function OnConsecutive(r: ReceiverState, b: seq<Byte>, now: nat): ReceiverState
    requires b != [] && r.Valid()
  {
    if !r.phase.Receiving? then r.End(UnexpectedPdu)
    else if Low(b) != r.sequence then r.End(WrongSequence)
    else Accepted(r, b[1..1 + Min(r.expected - |r.payload|, |b| - 1)], now)
  }

  function ReceiverOnFrame(r: ReceiverState, frame: CanFrame, now: nat): ReceiverState
    requires r.Valid()
  {
    var b := BodyOf(r.cfg.address, frame);
    if r.phase.Over? || b.Ignored? then r
    else if Pci(b.bytes) == 0 then OnSingle(r, b.bytes)
    else if Pci(b.bytes) == 1 then OnFirst(r, b.bytes, now)
    else if Pci(b.bytes) == 2 then OnConsecutive(r, b.bytes, now)
    else if Pci(b.bytes) == 3 then r.End(UnexpectedPdu)
    else r.End(InvalidPdu)
  }

  lemma SenderStaysValid(s: SenderState, frame: CanFrame, now: nat)
    requires s.Valid()
    ensures SenderPoll(s, now).0.Valid() && SenderOnFrame(s, frame, now).Valid()
  {
  }

  lemma ReceiverStaysValid(r: ReceiverState, frame: CanFrame, now: nat)
    requires r.Valid()
    ensures ReceiverPoll(r, now).0.Valid() && ReceiverOnFrame(r, frame, now).Valid()
  {
  }

  // ---- The sessions ----

  class Sender {
    const cfg: Config
    var payload: seq<Byte>
    var phase: SenderPhase
    var result: Result
    var offset: nat
    var sequence: nat
    var blockSize: nat
    var stMin: nat
    var framesInBlock: nat
    var waitCount: nat
    var deadline: nat
    var nextSend: nat

    ghost function View(): SenderState
      reads this
    {
      SenderState(cfg, payload, phase, result, offset, sequence, blockSize, stMin, framesInBlock, waitCount, deadline, nextSend)
    }

    constructor (cfg: Config)
      ensures View() == NewSender(cfg)
    {
      this.cfg := cfg;
      payload, phase, result := [], Idle, InProgress;
      offset, sequence, blockSize, stMin, framesInBlock, waitCount, deadline, nextSend := 0, 0, 0, 0, 0, 0, 0, 0;
    }

    method Start(message: seq<Byte>, now: nat) returns (r: StartResult)
      modifies this
      ensures (View(), r) == Begin(old(View()), message, now)
    {
      if !phase.Idle? || !cfg.Acceptable() {
        return InvalidArgument;
      }
      if |message| > MAX_LENGTH {
        return PayloadTooLarge;
      }
      payload := message;
      offset := 0;
      sequence := 0;
      waitCount := 0;
      framesInBlock := 0;
      result := InProgress;
      phase := if |message| <= SINGLE_MAX - cfg.address.HeaderSize() then SendingSingle else SendingFirst;
      nextSend := now;
      r := Started;
    }

    method Poll(now: nat) returns (out: seq<CanFrame>)
      requires View().Valid()
      modifies this
      ensures (View(), out) == SenderPoll(old(View()), now) && View().Valid()
    {
      out := [];
      if !result.InProgress? {
        return;
      }
      var header := cfg.address.HeaderSize();
      match phase
      case Idle =>
      case Finished =>
      case SendingSingle =>
        out := [MakeFrame(cfg, [|payload| as Byte] + payload)];
        offset := |payload|;
        result := Ok;
        phase := Finished;
      case SendingFirst =>
        var first := FirstHeader(|payload|);
        var take := Min(8 - header - |first|, |payload|);
        out := [MakeFrame(cfg, first + payload[..take])];
        offset := take;
        sequence := 1;
        phase := WaitingFlowControl;
        deadline := now + cfg.nBs;
      case WaitingFlowControl =>
        if now >= deadline {
          result := TimeoutBs;
          phase := Finished;
        }
      case SendingConsecutive =>
        if now < nextSend {
          return;
        }
        var take := Min(8 - header - 1, |payload| - offset);
        out := [MakeFrame(cfg, [(0x20 + sequence) as Byte] + payload[offset..offset + take])];
        offset := offset + take;
        sequence := (sequence + 1) % 16;
        framesInBlock := (framesInBlock + 1) % 256;
        nextSend := now + stMin;
        if offset >= |payload| {
          result := Ok;
          phase := Finished;
        } else if blockSize != 0 && framesInBlock >= blockSize {
          framesInBlock := 0;
          phase := WaitingFlowControl;
          deadline := now + cfg.nBs;
        }
    }

    method OnFrame(frame: CanFrame, now: nat)
      modifies this
      ensures View() == SenderOnFrame(old(View()), frame, now)
      ensures old(View()).Valid() ==> View().Valid()
    {
      var b := BodyOf(cfg.address, frame);
      if !result.InProgress? || b.Ignored? {
        return;
      }
      if Pci(b.bytes) != 3 || !phase.WaitingFlowControl? {
        phase, result := Finished, UnexpectedPdu;
        return;
      }
      if |b.bytes| < 3 {
        phase, result := Finished, InvalidPdu;
        return;
      }
      var status := Low(b.bytes);
      if status == 0 {
        blockSize := b.bytes[1];
        stMin := StMinToNs(b.bytes[2]);
        waitCount := 0;
        framesInBlock := 0;
        phase := SendingConsecutive;
        nextSend := now + cfg.nCs;
      } else if status == 1 {
        waitCount := (waitCount + 1) % 256;
        if cfg.wftMax != 0 && waitCount > cfg.wftMax {
          phase, result := Finished, WaitOverrun;
          return;
        }
        deadline := now + cfg.nBs;
      } else if status == 2 {
        phase, result := Finished, BufferOverflow;
      } else {
        phase, result := Finished, InvalidPdu;
      }
    }
  }

  class Receiver {
    const cfg: Config
    var payload: seq<Byte>
    var phase: ReceiverPhase
    var result: Result
    var expected: nat
    var sequence: nat
    var framesInBlock: nat
    var deadline: nat
    var fcDue: nat
    var pending: FlowStatus

    ghost function View(): ReceiverState
      reads this
    {
      ReceiverState(cfg, payload, phase, result, expected, sequence, framesInBlock, deadline, fcDue, pending)
    }

    constructor (cfg: Config)
      ensures View() == NewReceiver(cfg)
    {
      this.cfg := cfg;
      payload, phase, result, pending := [], Waiting, InProgress, ContinueToSend;
      expected, sequence, framesInBlock, deadline, fcDue := 0, 0, 0, 0, 0;
    }

    method Poll(now: nat) returns (out: seq<CanFrame>)
      requires View().Valid()
      modifies this
      ensures (View(), out) == ReceiverPoll(old(View()), now) && View().Valid()
    {
      out := [];
      match phase
      case SendFlowControl =>
        if now >= fcDue {
          out := [MakeFlowControl(cfg, pending)];
          if pending.Overflow? {
            result := BufferOverflow;
            phase := Over;
          } else {
            phase := Receiving;
            framesInBlock := 0;
            deadline := now + cfg.nCr;
          }
        }
      case Receiving =>
        if now >= deadline {
          result := TimeoutCr;
          phase := Over;
        }
      case Waiting =>
      case Over =>
    }

    method OnFrame(frame: CanFrame, now: nat)
      requires View().Valid()
      modifies this
      ensures View() == ReceiverOnFrame(old(View()), frame, now) && View().Valid()
    {
      var b := BodyOf(cfg.address, frame);
      if phase.Over? || b.Ignored? {
        return;
      }
      var pci := Pci(b.bytes);
      if pci == 0 {
        TakeSingle(b.bytes);
      } else if pci == 1 {
        TakeFirst(b.bytes, now);
      } else if pci == 2 {
        TakeConsecutive(b.bytes, now);
      } else {
        result := if pci == 3 then UnexpectedPdu else InvalidPdu;
        phase := Over;
      }
    }

    method TakeSingle(b: seq<Byte>)
      requires b != []
      modifies this
      ensures View() == OnSingle(old(View()), b)
    {
      if !phase.Waiting? {
        phase, result := Over, UnexpectedPdu;
        return;
      }
      var length, at := Low(b), 1;
      if length == 0 {
        if |b| < 2 {
          phase, result := Over, InvalidPdu;
          return;
        }
        length, at := b[1], 2;
      }
      if length == 0 || at + length > |b| {
        phase, result := Over, InvalidPdu;
        return;
      }
      payload := b[at..at + length];
      expected := length;
      phase, result := Over, Ok;
    }

    method TakeFirst(b: seq<Byte>, now: nat)
      requires b != []
      modifies this
      ensures View() == OnFirst(old(View()), b, now)
    {
      if !phase.Waiting? {
        phase, result := Over, UnexpectedPdu;
        return;
      }
      if |b| < 2 {
        phase, result := Over, InvalidPdu;
        return;
      }
      var length, at := 256 * Low(b) + b[1] as nat, 2;
      if length == 0 {
        if |b| < 6 {
          phase, result := Over, InvalidPdu;
          return;
        }
        length, at := Number32(b[2..6]), 6;
      }
      if length <= SINGLE_MAX - cfg.address.HeaderSize() {
        phase, result := Over, InvalidPdu;
        return;
      }
      expected := length;
      phase := SendFlowControl;
      fcDue := now + cfg.nBr;
      if length > cfg.maxReceiveLength {
        pending := Overflow;
        return;
      }
      payload := b[at..at + Min(length, |b| - at)];
      sequence := 1;
      pending := ContinueToSend;
    }

    method TakeConsecutive(b: seq<Byte>, now: nat)
      requires b != [] && View().Valid()
      modifies this
      ensures View() == OnConsecutive(old(View()), b, now)
    {
      if !phase.Receiving? {
        phase, result := Over, UnexpectedPdu;
        return;
      }
      if Low(b) != sequence {
        phase, result := Over, WrongSequence;
        return;
      }
      sequence := (sequence + 1) % 16;
      var take := Min(expected - |payload|, |b| - 1);
      payload := payload + b[1..1 + take];
      framesInBlock := (framesInBlock + 1) % 256;
      if |payload| >= expected {
        phase, result := Over, Ok;
        return;
      }
      deadline := now + cfg.nCr;
      if cfg.blockSize != 0 && framesInBlock >= cfg.blockSize {
        pending := ContinueToSend;
        phase := SendFlowControl;
        fcDue := now + cfg.nBr;
      }
    }
  }
}
