/// A sender, a link and a receiver: runs in which frames take any time, either side is polled at any
/// time, and the link may lose any frame but neither duplicates nor reorders.
module IsoTpLink {
  import opened Bits
  import opened IsoTp
  import opened IsoTpFrames

  /// The state of the composition. The fields from `sent` on only record what has happened: how many
  /// frames the sender has put on the link, which of them are still on it, how many have gone past
  /// the receiver (delivered, or lost before a delivered one) and how many it has accepted; how many
  /// Flow Controls the receiver has sent, and what `due` was at the last one; when each frame was
  /// sent, and before which of them the sender was given a Flow Control.
  datatype Net = Net(s: SenderState, r: ReceiverState, toR: seq<CanFrame>, toS: seq<CanFrame>, now: nat,
                     sent: nat, inFlight: seq<nat>, due: nat, got: nat, granted: nat, grantAt: nat,
                     sentAt: seq<nat>, blockStarts: set<nat>) {
    ghost predicate Sound() {
      s.Valid() && r.Valid() && |inFlight| == |toR|
    }
  }

  datatype Op =
    | PollSender
    | PollReceiver
    | DeliverToReceiver
    | DeliverToSender
    | LoseToReceiver(k: nat)
    | LoseToSender(k: nat)
    | Elapse(ns: nat)

  function Without<T>(q: seq<T>, k: nat): seq<T> {
    if k < |q| then q[..k] + q[k + 1..] else q
  }

  ghost predicate Alive(r: ReceiverState) {
    !r.phase.Over?
  }

  ghost function Step(n: Net, op: Op): (m: Net)
    requires n.Sound()
    ensures m.Sound()
  {
    match op
    case PollSender =>
      SenderStaysValid(n.s, CanFrame(n.s.cfg.address.txId, [], false, false), n.now);
      var (s, out) := SenderPoll(n.s, n.now);
      if out == [] then n.(s := s)
      else n.(s := s, toR := n.toR + out, inFlight := n.inFlight + [n.sent], sent := n.sent + 1, sentAt := n.sentAt + [n.now])
    case PollReceiver =>
      ReceiverStaysValid(n.r, CanFrame(n.s.cfg.address.txId, [], false, false), n.now);
      var (r, out) := ReceiverPoll(n.r, n.now);
      if out == [] then n.(r := r) else n.(r := r, toS := n.toS + out, granted := n.granted + 1, grantAt := n.due)
    case DeliverToReceiver =>
      if n.toR == [] then n
      else
        ReceiverStaysValid(n.r, n.toR[0], n.now);
        var r := ReceiverOnFrame(n.r, n.toR[0], n.now);
        n.(r := r, toR := n.toR[1..], inFlight := n.inFlight[1..], due := n.inFlight[0] + 1,
           got := if Alive(n.r) && (Alive(r) || r.result.Ok?) then n.got + 1 else n.got)
    case DeliverToSender =>
      if n.toS == [] then n
      else
        SenderStaysValid(n.s, n.toS[0], n.now);
        n.(s := SenderOnFrame(n.s, n.toS[0], n.now), toS := n.toS[1..], blockStarts := n.blockStarts + {n.sent})
    case LoseToReceiver(k) => n.(toR := Without(n.toR, k), inFlight := Without(n.inFlight, k))
    case LoseToSender(k) => n.(toS := Without(n.toS, k))
    case Elapse(ns) => n.(now := n.now + ns)
  }

  lemma OnlyTheReceiver(n: Net, m: Net)
    requires n.Sound() && n.toR != [] && m == Step(n, DeliverToReceiver)
    ensures m.r == ReceiverOnFrame(n.r, n.toR[0], n.now) && m.s == n.s && m.toS == n.toS
    ensures m.sent == n.sent && m.sentAt == n.sentAt && m.blockStarts == n.blockStarts && m.now == n.now
    ensures m.due == n.inFlight[0] + 1 && m.granted == n.granted && m.grantAt == n.grantAt
  {
  }

  ghost function Steps(n: Net, ops: seq<Op>): (m: Net)
    requires n.Sound()
    ensures m.Sound()
    decreases |ops|
  {
    if ops == [] then n else Steps(Step(n, ops[0]), ops[1..])
  }

  /// Whatever every step keeps, every run keeps.
  lemma {:induction false} RunInvariant(inv: Net -> bool, allowed: Op -> bool, n: Net, ops: seq<Op>)
    requires n.Sound() && inv(n) && forall i | 0 <= i < |ops| :: allowed(ops[i])
    requires forall x: Net, op: Op {:trigger Step(x, op)} :: x.Sound() && inv(x) && allowed(op) ==> inv(Step(x, op))
    ensures inv(Steps(n, ops))
    decreases |ops|
  {
    if ops != [] {
      assert inv(Step(n, ops[0]));
      RunInvariant(inv, allowed, Step(n, ops[0]), ops[1..]);
    }
  }

  /// The sender has just begun; the receiver knows of nothing.
  ghost predicate Begun(t: Transfer, n: Net) {
    && t.Valid() && n.Sound() && Begin(NewSender(t.out), t.message, n.now) == (n.s, Started) && n.r == NewReceiver(t.back)
    && n.toR == [] && n.toS == [] && n.inFlight == [] && n.sent == 0 && n.due == 0 && n.got == 0
    && n.granted == 0 && n.grantAt == 0 && n.sentAt == [] && n.blockStarts == {}
  }

  // ---- Single Frames ----

  /// The one frame of a transfer that needs no segmentation.
  ghost function OnlyFrame(t: Transfer): CanFrame
    requires !t.Segmented()
  {
    MakeFrame(t.out, [|t.message| as Byte] + t.message)
  }

  ghost predicate SingleInv(t: Transfer, n: Net) {
    && t.Valid() && !t.Segmented() && n.Sound() && n.toS == []
    && n.s.cfg == t.out && n.s.payload == t.message
    && (n.s.phase.SendingSingle? || n.s.phase.Finished?)
    && (n.s.phase.SendingSingle? ==> n.s.result.InProgress? && n.sent == 0) && (n.s.phase.Finished? ==> n.s.result.Ok? && n.sent == 1)
    && |n.toR| + n.due <= n.sent && (forall i | 0 <= i < |n.toR| :: n.toR[i] == OnlyFrame(t) && n.inFlight[i] == 0)
    && (n.due == 0 ==> n.r == NewReceiver(t.back)) && (n.due > 0 ==> n.r.phase.Over? && n.r.result.Ok? && n.r.payload == t.message)
  }

  lemma SingleKept(t: Transfer, n: Net, op: Op)
    requires SingleInv(t, n)
    ensures SingleInv(t, Step(n, op))
  {
    if op.DeliverToReceiver? && n.toR != [] {
      SingleTaken(t, n.r, n.now);
    }
  }

  /// A transfer that fits a Single Frame: the sender only ever succeeds, after one frame, and the
  /// receiver either still waits or holds the message. Neither the frame nor the outcome depends on
  /// how much the receiver has said it can take.
  lemma SingleRuns(t: Transfer, n: Net, ops: seq<Op>)
    requires Begun(t, n) && !t.Segmented()
    ensures var m := Steps(n, ops);
            && m.sent <= 1 && (m.s.result.InProgress? || m.s.result.Ok?) && (m.s.result.Ok? <==> m.sent == 1)
            && (m.r == NewReceiver(t.back) || (m.r.result.Ok? && m.r.payload == t.message))
  {
    var inv := (x: Net) => SingleInv(t, x);
    forall x: Net, op: Op | x.Sound() && inv(x)
      ensures inv(Step(x, op))
    {
      SingleKept(t, x, op);
    }
    RunInvariant(inv, _ => true, n, ops);
  }

  // ---- Any transfer on a lossy link ----

  /// The frames on the link are frames of the transfer, in the order they were sent, none of them
  /// behind what has gone past the receiver.
  ghost predicate LinkInv(t: Transfer, toR: seq<CanFrame>, inFlight: seq<nat>, due: nat, sent: nat)
    requires t.Segmented()
  {
    && |toR| == |inFlight| && due <= sent
    && (forall i | 0 <= i < |inFlight| ::
          due <= inFlight[i] < sent && t.Has(inFlight[i]) && toR[i] == t.FrameAt(inFlight[i]))
    && (forall i, j | 0 <= i < j < |inFlight| :: inFlight[i] < inFlight[j])
  }

  ghost predicate SenderInv(t: Transfer, s: SenderState, sent: nat) {
    && t.Valid() && HasSent(t, s, sent) && !s.phase.Idle? && !s.phase.SendingSingle?
    && (s.phase.Finished? <==> !s.result.InProgress?)
    && (!s.phase.Finished? ==> t.Has(sent))
    && (s.result.Ok? ==> !t.Has(sent))
  }

  ghost predicate TooLong(t: Transfer) {
    |t.message| > t.back.maxReceiveLength
  }

  /// How many payload bytes `k` frames can carry.
  function Capacity(t: Transfer, k: nat): nat {
    if k == 0 then 0 else if k == 1 then t.FirstRoom() else Capacity(t, k - 1) + t.Room()
  }

  lemma {:induction false} CapacityGrows(t: Transfer, i: nat, j: nat)
    requires i <= j
    ensures Capacity(t, i) <= Capacity(t, j)
  {
    if i < j {
      CapacityGrows(t, i, j - 1);
    }
  }

  /// Fewer frames than the transfer has cannot carry it.
  lemma {:induction false} CapacityIsOffset(t: Transfer, j: nat)
    requires t.Segmented() && t.Has(j)
    ensures Capacity(t, j) == t.Offset(j) < |t.message|
  {
    if j >= 2 {
      OffsetsOrdered(t, j - 1, j);
      CapacityIsOffset(t, j - 1);
    }
  }

  /// What the receiver has: exactly the message so far if every frame that went past was accepted,
  /// and in any case no more than the accepted frames can carry.
  ghost predicate ReceiverInv(t: Transfer, r: ReceiverState, due: nat, got: nat)
    requires t.Segmented()
  {
    && r.cfg == t.back && got <= due
    && (due == 0 ==> r == NewReceiver(t.back))
    && (r.phase.Waiting? ==> r == NewReceiver(t.back))
    && (r.phase.Over? <==> !r.result.InProgress?)
    && (r.result.Ok? ==> r.payload == t.message && !TooLong(t))
    && (due > 0 && Alive(r) ==> !r.phase.Waiting? && Collecting(t, r, due, got))
  }

  ghost predicate Collecting(t: Transfer, r: ReceiverState, due: nat, got: nat)
    requires t.Segmented()
  {
    && r.expected == |t.message|
    && if TooLong(t) then r.phase.SendFlowControl? && r.pending.Overflow? && r.payload == []
       else
         && (r.phase.SendFlowControl? ==> r.pending.ContinueToSend?)
         && got >= 1 && |r.payload| <= Capacity(t, got)
         && (got == due ==> r.payload == t.message[..t.Offset(due)])
  }

  ghost predicate LossyInv(t: Transfer, n: Net) {
    && t.Valid() && t.Segmented() && n.Sound() && SenderInv(t, n.s, n.sent)
    && LinkInv(t, n.toR, n.inFlight, n.due, n.sent) && ReceiverInv(t, n.r, n.due, n.got)
  }

  /// One more frame on the link.
  lemma LinkGrows(t: Transfer, toR: seq<CanFrame>, inFlight: seq<nat>, due: nat, sent: nat, frame: CanFrame)
    requires t.Segmented() && LinkInv(t, toR, inFlight, due, sent) && t.Has(sent) && frame == t.FrameAt(sent)
    ensures LinkInv(t, toR + [frame], inFlight + [sent], due, sent + 1)
  {
  }

  /// What a poll does to the sender: it sends the next frame, or none.
  lemma PollSends(t: Transfer, s: SenderState, sent: nat, now: nat, after: SenderState, out: seq<CanFrame>)
    requires t.Segmented() && SenderInv(t, s, sent) && (after, out) == SenderPoll(s, now)
    ensures if out == [] then SenderInv(t, after, sent)
            else t.Has(sent) && out == [t.FrameAt(sent)] && SenderInv(t, after, sent + 1)
  {
    if s.result.InProgress? {
      if s.phase.SendingFirst? {
        FirstSent(t, s, now);
      } else if s.phase.SendingConsecutive? && now >= s.nextSend {
        ConsecutiveSent(t, s, sent, now);
      }
    }
  }

  lemma SenderPolled(t: Transfer, n: Net)
    requires LossyInv(t, n)
    ensures LossyInv(t, Step(n, PollSender))
  {
    var (s, out) := SenderPoll(n.s, n.now);
    PollSends(t, n.s, n.sent, n.now, s, out);
    if out != [] {
      LinkGrows(t, n.toR, n.inFlight, n.due, n.sent, out[0]);
    }
  }

  /// A sender on its way puts the next frame on the link.
  lemma NextOnLink(t: Transfer, n: Net, m: Net)
    requires LossyInv(t, n) && n.s.phase.SendingConsecutive? && n.now >= n.s.nextSend && m == Step(n, PollSender)
    ensures t.Has(n.sent) && m.toR == n.toR + [t.FrameAt(n.sent)] && m.sent == n.sent + 1 && m.r == n.r && m.now == n.now
    ensures t.Offset(n.sent + 1) >= n.s.offset && m.s == AfterConsecutive(n.s, t.Offset(n.sent + 1) - n.s.offset, n.now)
  {
    ConsecutiveSent(t, n.s, n.sent, n.now);
  }

  lemma HearingKeeps(t: Transfer, s: SenderState, sent: nat, frame: CanFrame, now: nat)
    requires t.Segmented() && SenderInv(t, s, sent)
    ensures SenderInv(t, SenderOnFrame(s, frame, now), sent)
  {
  }

  lemma SenderHeard(t: Transfer, n: Net)
    requires LossyInv(t, n)
    ensures LossyInv(t, Step(n, DeliverToSender))
  {
    if n.toS != [] {
      HearingKeeps(t, n.s, n.sent, n.toS[0], n.now);
    }
  }

  lemma PollingKeeps(t: Transfer, r: ReceiverState, due: nat, got: nat, now: nat)
    requires t.Segmented() && ReceiverInv(t, r, due, got)
    ensures ReceiverInv(t, ReceiverPoll(r, now).0, due, got)
  {
  }

  lemma ReceiverPolled(t: Transfer, n: Net)
    requires LossyInv(t, n)
    ensures LossyInv(t, Step(n, PollReceiver))
  {
    PollingKeeps(t, n.r, n.due, n.got, n.now);
  }

  lemma LinkShrinks(t: Transfer, toR: seq<CanFrame>, inFlight: seq<nat>, due: nat, sent: nat, k: nat)
    requires t.Segmented() && LinkInv(t, toR, inFlight, due, sent)
    ensures LinkInv(t, Without(toR, k), Without(inFlight, k), due, sent)
  {
  }

  lemma FrameLost(t: Transfer, n: Net, k: nat)
    requires LossyInv(t, n)
    ensures LossyInv(t, Step(n, LoseToReceiver(k)))
  {
    LinkShrinks(t, n.toR, n.inFlight, n.due, n.sent, k);
  }

  lemma LinkAdvances(t: Transfer, toR: seq<CanFrame>, inFlight: seq<nat>, due: nat, sent: nat)
    requires t.Segmented() && LinkInv(t, toR, inFlight, due, sent) && toR != []
    ensures LinkInv(t, toR[1..], inFlight[1..], inFlight[0] + 1, sent)
    ensures due <= inFlight[0] < sent && t.Has(inFlight[0]) && toR[0] == t.FrameAt(inFlight[0])
  {
  }

  /// The frame that is delivered is either the First Frame, to a receiver that waits for one, or a
  /// Consecutive Frame.
  lemma FrameHeard(t: Transfer, r: ReceiverState, due: nat, got: nat, j: nat, now: nat, after: ReceiverState, more: nat)
    requires t.Valid() && t.Segmented() && r.Valid() && ReceiverInv(t, r, due, got) && due <= j && t.Has(j)
    requires after == ReceiverOnFrame(r, t.FrameAt(j), now)
    requires more == if Alive(r) && (Alive(after) || after.result.Ok?) then got + 1 else got
    ensures ReceiverInv(t, after, j + 1, more)
  {
    if Alive(r) {
      if j == 0 {
        FirstTaken(t, r, now);
      } else if due == 0 {
        NotReceiving(t, r, j, now);
      } else {
        ConsecutiveHeard(t, r, due, got, j, now, after, more);
      }
    }
  }

  lemma ReceiverHeard(t: Transfer, n: Net)
    requires LossyInv(t, n)
    ensures LossyInv(t, Step(n, DeliverToReceiver))
  {
    if n.toR != [] {
      var j, after := n.inFlight[0], ReceiverOnFrame(n.r, n.toR[0], n.now);
      LinkAdvances(t, n.toR, n.inFlight, n.due, n.sent);
      FrameHeard(t, n.r, n.due, n.got, j, n.now, after,
                 if Alive(n.r) && (Alive(after) || after.result.Ok?) then n.got + 1 else n.got);
    }
  }

  lemma ConsecutiveHeard(t: Transfer, r: ReceiverState, due: nat, got: nat, j: nat, now: nat, after: ReceiverState, more: nat)
    requires t.Valid() && t.Segmented() && r.Valid() && ReceiverInv(t, r, due, got) && Alive(r) && due >= 1
    requires due <= j && t.Has(j) && after == ReceiverOnFrame(r, t.FrameAt(j), now)
    requires more == if Alive(after) || after.result.Ok? then got + 1 else got
    ensures ReceiverInv(t, after, j + 1, more)
  {
    if !r.phase.Receiving? {
      NotReceiving(t, r, j, now);
    } else if r.sequence != j % 16 {
      ConsecutiveRefused(t, r, j, now);
    } else {
      var bytes := ConsecutiveTaken(t, r, j, now);
      ConsecutiveKept(t, r, due, got, j, now, bytes);
    }
  }

  lemma ConsecutiveKept(t: Transfer, r: ReceiverState, due: nat, got: nat, j: nat, now: nat, bytes: seq<Byte>)
    requires t.Valid() && t.Segmented() && ReceiverInv(t, r, due, got) && r.phase.Receiving? && 1 <= due <= j && t.Has(j)
    requires |bytes| <= t.Room() && |r.payload| + |bytes| <= r.expected
    requires r.payload == t.message[..t.Offset(j)] ==> r.payload + bytes == t.message[..t.Offset(j + 1)]
    ensures ReceiverInv(t, Accepted(r, bytes, now), j + 1, got + 1)
  {
    CapacityIsOffset(t, j);
    if got < j {
      CapacityGrows(t, got + 1, j);
    }
    var all := r.payload + bytes;
    assert |all| <= Capacity(t, got + 1);
    if |all| >= r.expected {
      assert got == j && all == t.message[..t.Offset(j + 1)];
    }
  }

  lemma NotReceiving(t: Transfer, r: ReceiverState, j: nat, now: nat)
    requires t.Valid() && t.Segmented() && j >= 1 && r.cfg == t.back && r.Valid() && Alive(r) && !r.phase.Receiving?
    ensures ReceiverOnFrame(r, t.FrameAt(j), now) == r.End(UnexpectedPdu)
  {
    var b := ConsecutiveBody(t, j);
  }

  lemma LossyKept(t: Transfer, n: Net, op: Op)
    requires LossyInv(t, n)
    ensures LossyInv(t, Step(n, op))
  {
    match op
    case PollSender => SenderPolled(t, n);
    case PollReceiver => ReceiverPolled(t, n);
    case DeliverToReceiver => ReceiverHeard(t, n);
    case DeliverToSender => SenderHeard(t, n);
    case LoseToReceiver(k) => FrameLost(t, n, k);
    case LoseToSender(k) =>
    case Elapse(ns) =>
  }

  /// Whatever the link loses, a receiver that ends Ok holds exactly the message: too many lost frames
  /// to be noticed by the sequence number are too many for the rest to fill the message.
  lemma OkMeansTheMessage(t: Transfer, n: Net, ops: seq<Op>)
    requires Begun(t, n)
    ensures Steps(n, ops).r.result.Ok? ==> Steps(n, ops).r.payload == t.message
    ensures Steps(n, ops).r.result.Ok? && t.Segmented() ==> !TooLong(t)
  {
    if !t.Segmented() {
      SingleRuns(t, n, ops);
    } else {
      var inv := (x: Net) => LossyInv(t, x);
      forall x: Net, op: Op | x.Sound() && inv(x)
        ensures inv(Step(x, op))
      {
        LossyKept(t, x, op);
      }
      RunInvariant(inv, _ => true, n, ops);
    }
  }
}
