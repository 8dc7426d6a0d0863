/// The frames of one ISO-TP transfer: what a sender cuts a message into, and what each frame does to
/// a receiver with the mirrored address.
module IsoTpFrames {
  import opened Bits
  import opened IsoTp
  import Frame

  /// Two ends of a link: each listens where the other talks.
  predicate Mirrored(a: Address, b: Address) {
    && a.extended == b.extended && a.txId == b.rxId && a.rxId == b.txId
    && (a.extended ==> a.txExtension == b.rxExtension && a.rxExtension == b.txExtension)
  }

  /// A message on its way from a sender configured `out` to a receiver configured `back`.
  datatype Transfer = Transfer(out: Config, back: Config, message: seq<Byte>) {
    ghost predicate Valid() {
      Mirrored(out.address, back.address) && 1 <= |message| <= MAX_LENGTH
    }

    function Header(): nat {
      out.address.HeaderSize()
    }

    /// Too long for a Single Frame.
    predicate Segmented() {
      |message| > SINGLE_MAX - Header()
    }

    /// Payload bytes of a full Consecutive Frame.
    function Room(): (n: nat)
      ensures 6 <= n <= 7
    {
      8 - Header() - 1
    }

    /// Payload bytes of the First Frame.
    function FirstRoom(): (n: nat)
      ensures 1 <= n < Room()
    {
      8 - Header() - |FirstHeader(|message|)|
    }

    /// How much of the message is in the frames before frame `j`.
    function Offset(j: nat): (n: nat)
      requires Segmented()
      ensures n <= |message| && (j >= 1 ==> n >= FirstRoom())
    {
      if j == 0 then 0 else if j == 1 then FirstRoom() else Min(Offset(j - 1) + Room(), |message|)
    }

    /// Frame `j` is part of the transfer.
    predicate Has(j: nat)
      requires Segmented()
    {
      j == 0 || Offset(j) < |message|
    }

    /// Frame `j`, before addressing and padding.
    function BodyAt(j: nat): seq<Byte>
      requires Segmented()
    {
      if j == 0 then FirstHeader(|message|) + message[..Offset(1)]
      else
        OffsetGrows(this, j);
        [(0x20 + j % 16) as Byte] + message[Offset(j)..Offset(j + 1)]
    }

    function FrameAt(j: nat): CanFrame
      requires Segmented()
    {
      MakeFrame(out, BodyAt(j))
    }
  }

  lemma OffsetGrows(t: Transfer, j: nat)
    requires t.Segmented()
    ensures t.Offset(j) <= t.Offset(j + 1)
    ensures j >= 1 ==> t.Offset(j + 1) == Min(t.Offset(j) + t.Room(), |t.message|)
  {
  }

  lemma {:induction false} OffsetsOrdered(t: Transfer, i: nat, j: nat)
    requires t.Segmented() && i <= j
    ensures t.Offset(i) <= t.Offset(j)
  {
    if i < j {
      OffsetsOrdered(t, i, j - 1);
      OffsetGrows(t, j - 1);
    }
  }

  // ---- Addressing and padding ----

  /// The receiver of a frame sees its body, possibly with padding behind.
  lemma BodyArrives(from: Config, to: Config, body: seq<Byte>) returns (pad: seq<Byte>)
    requires Mirrored(from.address, to.address) && body != [] && |body| + from.address.HeaderSize() <= 8
    ensures BodyOf(to.address, MakeFrame(from, body)) == Body(body + pad)
    ensures |body| + |pad| + from.address.HeaderSize() <= 8
  {
    var f := MakeFrame(from, body);
    var h := from.address.HeaderSize();
    pad := f.data[h + |body|..];
    assert f.data[h..] == body + pad;
  }

  // ---- The sender's frames ----

  /// A sender that has sent `n` frames of the transfer.
  ghost predicate HasSent(t: Transfer, s: SenderState, n: nat) {
    && t.Segmented() && s.cfg == t.out && s.payload == t.message && s.offset == t.Offset(n) && s.Valid()
    && (n >= 1 ==> s.sequence == n % 16) && (n == 0 && !s.phase.Finished? <==> s.phase.SendingFirst?)
  }

  lemma FirstSent(t: Transfer, s: SenderState, now: nat)
    requires t.Valid() && HasSent(t, s, 0) && s.result.InProgress? && s.phase.SendingFirst?
    ensures SenderPoll(s, now).1 == [t.FrameAt(0)] && HasSent(t, SenderPoll(s, now).0, 1)
  {
    assert t.message[..t.Offset(1)] == t.message[..t.FirstRoom()];
  }

  lemma NextSequence(n: nat)
    ensures (n % 16 + 1) % 16 == (n + 1) % 16
  {
  }

  lemma ConsecutiveSent(t: Transfer, s: SenderState, n: nat, now: nat)
    requires t.Valid() && n >= 1 && HasSent(t, s, n) && s.result.InProgress? && s.phase.SendingConsecutive?
    requires now >= s.nextSend
    ensures SenderPoll(s, now).1 == [t.FrameAt(n)] && HasSent(t, SenderPoll(s, now).0, n + 1)
    ensures t.Offset(n + 1) >= s.offset && SenderPoll(s, now).0 == AfterConsecutive(s, t.Offset(n + 1) - s.offset, now)
  {
    OffsetGrows(t, n);
    NextSequence(n);
    var take := Min(t.Room(), |s.payload| - s.offset);
    assert s.offset + take == t.Offset(n + 1);
  }

  // ---- What they do to the receiver ----

  lemma SingleTaken(t: Transfer, r: ReceiverState, now: nat)
    requires t.Valid() && !t.Segmented() && r == NewReceiver(t.back)
    ensures var after := ReceiverOnFrame(r, MakeFrame(t.out, [|t.message| as Byte] + t.message), now);
            after.result.Ok? && after.phase.Over? && after.payload == t.message
  {
    var body := [|t.message| as Byte] + t.message;
    var pad := BodyArrives(t.out, t.back, body);
    SingleHeard(t, r, body + pad);
    assert ReceiverOnFrame(r, MakeFrame(t.out, body), now) == OnSingle(r, body + pad);
  }

  lemma SingleHeard(t: Transfer, r: ReceiverState, b: seq<Byte>)
    requires t.Valid() && !t.Segmented() && r == NewReceiver(t.back) && [|t.message| as Byte] + t.message <= b
    ensures Pci(b) == 0 && OnSingle(r, b) == r.(payload := t.message, expected := |t.message|).End(Ok)
  {
    assert b[0] == |t.message| as Byte;
    assert b[1..1 + |t.message|] == t.message;
  }

  lemma FirstLength(n: nat, b: seq<Byte>)
    requires 8 <= n <= MAX_LENGTH || n == 7
    requires |b| >= |FirstHeader(n)| && b[..|FirstHeader(n)|] == FirstHeader(n)
    ensures Pci(b) == 1
    ensures n <= CLASSIC_MAX_LENGTH ==> |FirstHeader(n)| == 2 && 256 * Low(b) + b[1] as nat == n
    ensures n > CLASSIC_MAX_LENGTH ==> |FirstHeader(n)| == 6 && 256 * Low(b) + b[1] as nat == 0 && Number32(b[2..6]) == n
  {
    var h := FirstHeader(n);
    assert forall i | 0 <= i < |h| :: b[i] == h[i];
    if n > CLASSIC_MAX_LENGTH {
      FourBytes(n);
    } else {
      assert n / 256 < 16;
    }
  }

  lemma FourBytes(n: nat)
    requires n <= MAX_LENGTH
    ensures 16777216 * (n / 16777216 % 256) + 65536 * (n / 65536 % 256) + 256 * (n / 256 % 256) + n % 256 == n
  {
    var a := n / 256;
    var b := a / 256;
    assert n / 65536 == b && n / 16777216 == b / 256;
  }

  /// A First Frame fills its frame: what arrives is the body alone.
  lemma FirstBody(t: Transfer, b: seq<Byte>)
    requires t.Valid() && t.Segmented() && b == t.BodyAt(0)
    ensures BodyOf(t.back.address, t.FrameAt(0)) == Body(b) && Pci(b) == 1 && |b| == |FirstHeader(|t.message|)| + t.Offset(1)
    ensures b[..|FirstHeader(|t.message|)|] == FirstHeader(|t.message|)
    ensures b[|FirstHeader(|t.message|)|..] == t.message[..t.Offset(1)]
  {
    var pad := BodyArrives(t.out, t.back, b);
    assert pad == [] && b + pad == b;
    FirstLength(|t.message|, b);
  }

  lemma FirstTaken(t: Transfer, r: ReceiverState, now: nat)
    requires t.Valid() && t.Segmented() && r == NewReceiver(t.back)
    ensures var begun := r.(expected := |t.message|, phase := SendFlowControl, fcDue := now + t.back.nBr);
            ReceiverOnFrame(r, t.FrameAt(0), now)
            == if |t.message| > t.back.maxReceiveLength then begun.(pending := Overflow)
               else begun.(payload := t.message[..t.Offset(1)], sequence := 1, pending := ContinueToSend)
  {
    var b := t.BodyAt(0);
    FirstBody(t, b);
    FirstHeard(t, r, b, now);
    assert ReceiverOnFrame(r, t.FrameAt(0), now) == OnFirst(r, b, now);
  }

  lemma FirstHeard(t: Transfer, r: ReceiverState, b: seq<Byte>, now: nat)
    requires t.Valid() && t.Segmented() && r == NewReceiver(t.back) && |b| == |FirstHeader(|t.message|)| + t.Offset(1)
    requires b[..|FirstHeader(|t.message|)|] == FirstHeader(|t.message|)
    requires b[|FirstHeader(|t.message|)|..] == t.message[..t.Offset(1)]
    ensures var begun := r.(expected := |t.message|, phase := SendFlowControl, fcDue := now + t.back.nBr);
            OnFirst(r, b, now)
            == if |t.message| > t.back.maxReceiveLength then begun.(pending := Overflow)
               else begun.(payload := t.message[..t.Offset(1)], sequence := 1, pending := ContinueToSend)
  {
    var first := |FirstHeader(|t.message|)|;
    FirstLength(|t.message|, b);
    assert b[first..first + t.Offset(1)] == t.message[..t.Offset(1)];
  }

  /// What arrives of a Consecutive Frame.
  lemma ConsecutiveBody(t: Transfer, j: nat) returns (b: seq<Byte>)
    requires t.Valid() && t.Segmented() && j >= 1
    ensures BodyOf(t.back.address, t.FrameAt(j)) == Body(b) && t.BodyAt(j) <= b && 1 <= |b| <= 1 + t.Room()
    ensures Pci(b) == 2 && Low(b) == j % 16
  {
    OffsetGrows(t, j);
    var body := t.BodyAt(j);
    var pad := BodyArrives(t.out, t.back, body);
    b := body + pad;
    assert b[0] == body[0];
  }

  /// A Consecutive Frame with the awaited sequence number is taken, whichever it is; it brings the
  /// right bytes when it is the one that was due.
  lemma ConsecutiveTaken(t: Transfer, r: ReceiverState, j: nat, now: nat) returns (bytes: seq<Byte>)
    requires t.Valid() && t.Segmented() && j >= 1 && r.cfg == t.back && r.Valid() && r.phase.Receiving?
    requires r.sequence == j % 16
    ensures ReceiverOnFrame(r, t.FrameAt(j), now) == Accepted(r, bytes, now)
    ensures |bytes| <= t.Room() && |r.payload| + |bytes| <= r.expected
    ensures r.expected == |t.message| && r.payload == t.message[..t.Offset(j)] ==> r.payload + bytes == t.message[..t.Offset(j + 1)]
    ensures t.Has(j) && |r.payload| < r.expected ==> bytes != [] && bytes[0] == t.message[t.Offset(j)]
  {
    var b := ConsecutiveBody(t, j);
    var take := Min(r.expected - |r.payload|, |b| - 1);
    bytes := b[1..1 + take];
    assert ReceiverOnFrame(r, t.FrameAt(j), now) == OnConsecutive(r, b, now);
    if r.expected == |t.message| && r.payload == t.message[..t.Offset(j)] {
      BytesDue(t, r, j, b, take);
    }
    FirstByte(t, j, b, take, bytes);
  }

  lemma FirstByte(t: Transfer, j: nat, b: seq<Byte>, take: nat, bytes: seq<Byte>)
    requires t.Segmented() && j >= 1 && t.BodyAt(j) <= b && 1 + take <= |b| && bytes == b[1..1 + take]
    ensures t.Has(j) && take > 0 ==> bytes[0] == t.message[t.Offset(j)]
    ensures t.Has(j) ==> |b| > 1
  {
    OffsetGrows(t, j);
    if t.Has(j) && take > 0 {
      assert bytes[0] == t.BodyAt(j)[1];
    }
  }

  lemma BytesDue(t: Transfer, r: ReceiverState, j: nat, b: seq<Byte>, take: nat)
    requires t.Segmented() && j >= 1 && r.expected == |t.message| && r.payload == t.message[..t.Offset(j)]
    requires t.BodyAt(j) <= b && |b| <= 1 + t.Room() && take == Min(r.expected - |r.payload|, |b| - 1)
    ensures 1 + take <= |b| && r.payload + b[1..1 + take] == t.message[..t.Offset(j + 1)]
  {
    OffsetGrows(t, j);
    assert take == t.Offset(j + 1) - t.Offset(j);
    assert b[1..1 + take] == t.BodyAt(j)[1..1 + take] == t.message[t.Offset(j)..t.Offset(j + 1)];
  }

  /// One with any other sequence number ends the transfer.
  lemma ConsecutiveRefused(t: Transfer, r: ReceiverState, j: nat, now: nat)
    requires t.Valid() && t.Segmented() && j >= 1 && r.cfg == t.back && r.Valid() && r.phase.Receiving?
    requires r.sequence != j % 16
    ensures ReceiverOnFrame(r, t.FrameAt(j), now) == r.End(WrongSequence)
  {
    var b := ConsecutiveBody(t, j);
  }

  // ---- Flow Control ----

  lemma FlowControlTaken(t: Transfer, s: SenderState, overflow: bool, now: nat)
    requires t.Valid() && s.cfg == t.out && s.result.InProgress? && s.phase.WaitingFlowControl?
    ensures SenderOnFrame(s, MakeFlowControl(t.back, if overflow then Overflow else ContinueToSend), now)
         == if overflow then s.End(BufferOverflow)
            else s.(blockSize := t.back.blockSize, stMin := StMinToNs(t.back.stMinRaw), waitCount := 0, framesInBlock := 0,
                    phase := SendingConsecutive, nextSend := now + t.out.nCs)
  {
    var code: Byte := if overflow then 0x32 else 0x30;
    var body: seq<Byte> := [code, t.back.blockSize, t.back.stMinRaw];
    var pad := BodyArrives(t.back, t.out, body);
    var b := body + pad;
    assert Pci(b) == 3 && Low(b) == code % 16;
  }
}
