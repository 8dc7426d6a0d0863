/// Flow control keeps the two sides of an ISO-TP transfer in step: a sender is never more than one
/// block ahead of what the receiver has asked for.
module IsoTpWindow {
  import opened Bits
  import opened IsoTp
  import opened IsoTpFrames
  import opened IsoTpLink
  import opened IsoTpCount

  ghost predicate Stopped(s: SenderState) {
    s.phase.WaitingFlowControl? || s.phase.Finished?
  }

  /// What the receiver, while it is collecting, knows about its block.
  ghost predicate ReceiverInStep(t: Transfer, n: Net)
    requires t.Segmented()
  {
    && n.got == n.due && n.r.sequence == n.due % 16 && (n.r.phase.Receiving? || n.r.phase.SendFlowControl?)
    && (n.granted == 0 ==> n.r.phase.SendFlowControl? && n.due == 1)
    && (n.granted > 0 ==> 1 <= n.grantAt <= n.due)
    && (n.granted > 0 && n.r.phase.Receiving? && t.back.blockSize > 0 ==>
          n.r.framesInBlock == n.due - n.grantAt < t.back.blockSize)
    && (n.granted > 0 && n.r.phase.SendFlowControl? ==> t.back.blockSize > 0 && n.due == n.grantAt + t.back.blockSize)
    && t.Has(n.due)
  }

  /// What the sender may have sent, given the Flow Controls so far.
  ghost predicate SenderInStep(t: Transfer, n: Net) {
    && (n.granted == 0 ==> n.sent <= 1 && !n.s.phase.SendingConsecutive?)
    && (n.granted > 0 ==> n.sent >= 1)
    && (n.granted > 0 && t.back.blockSize > 0 ==> n.sent <= n.grantAt + t.back.blockSize)
    && (n.granted > 1 ==> t.back.blockSize > 0)
    && (n.s.phase.SendingConsecutive? ==>
          && n.s.blockSize == t.back.blockSize && n.s.stMin == StMinToNs(t.back.stMinRaw)
          && (t.back.blockSize > 0 ==> n.s.framesInBlock < t.back.blockSize && n.sent == n.grantAt + n.s.framesInBlock))
  }

  /// A Flow Control on its way finds the sender waiting for it.
  ghost predicate GrantInStep(t: Transfer, n: Net) {
    && |n.toS| <= 1
    && (n.toS != [] ==> n.granted > 0 && Stopped(n.s) && n.sent == n.grantAt && n.toS[0] == MakeFlowControl(t.back, ContinueToSend))
  }

  /// Frames on a link that has lost none.
  ghost predicate NoneMissing(n: Net) {
    |n.inFlight| == n.sent - n.due && forall i | 0 <= i < |n.inFlight| :: n.inFlight[i] == n.due + i
  }

  /// Blocks, or the whole transfer, are no longer than the sequence numbers can tell apart.
  ghost predicate ToldApart(t: Transfer) {
    1 <= t.back.blockSize <= 16 || Consecutives(t) <= 16
  }

  ghost predicate Ordered(t: Transfer, n: Net, lossless: bool) {
    if lossless then NoneMissing(n) else ToldApart(t)
  }

  ghost predicate Harmless(n: Net, lossless: bool) {
    && (n.s.result.InProgress? || n.s.result.Ok? || n.s.result.TimeoutBs?)
    && (n.r.result.InProgress? || n.r.result.Ok? || n.r.result.TimeoutCr? || (!lossless && n.r.result.WrongSequence?))
  }

  ghost predicate WindowInv(t: Transfer, n: Net, lossless: bool) {
    && LossyInv(t, n) && !TooLong(t) && Ordered(t, n, lossless) && Harmless(n, lossless) && n.r.payload <= t.message
    && (n.due == 0 ==> n.granted == 0)
    && (n.due > 0 && Alive(n.r) ==> ReceiverInStep(t, n))
    && SenderInStep(t, n) && GrantInStep(t, n)
  }

  /// A receiver about to send Flow Control has everything that was sent, and the sender waits.
  lemma BlockOver(t: Transfer, n: Net, lossless: bool)
    requires WindowInv(t, n, lossless) && n.r.phase.SendFlowControl?
    ensures n.sent == n.due && n.toS == [] && Stopped(n.s) && n.toR == []
  {
    FrontInFlight(t, n);
  }

  lemma FrontInFlight(t: Transfer, n: Net)
    requires t.Segmented() && LinkInv(t, n.toR, n.inFlight, n.due, n.sent)
    ensures n.toR != [] ==> n.due < n.sent
  {
    if n.toR != [] {
      assert n.due <= n.inFlight[0] < n.sent;
    }
  }

  lemma WindowFirstSent(t: Transfer, n: Net, lossless: bool)
    requires WindowInv(t, n, lossless) && n.s.result.InProgress? && n.s.phase.SendingFirst?
    ensures WindowInv(t, Step(n, PollSender), lossless)
  {
    SenderPolled(t, n);
    FirstSent(t, n.s, n.now);
  }

  lemma InStepAfterSend(t: Transfer, n: Net, m: Net, take: nat)
    requires SenderInStep(t, n) && n.s.phase.SendingConsecutive? && n.granted > 0 && n.s.cfg == t.out
    requires m.s == AfterConsecutive(n.s, take, n.now) && m.sent == n.sent + 1 && m.granted == n.granted && m.grantAt == n.grantAt
    ensures SenderInStep(t, m)
  {
  }

  lemma WindowConsecutiveSent(t: Transfer, n: Net, lossless: bool)
    requires WindowInv(t, n, lossless) && n.s.phase.SendingConsecutive? && n.now >= n.s.nextSend
    ensures WindowInv(t, Step(n, PollSender), lossless)
  {
    SenderPolled(t, n);
    ConsecutiveSent(t, n.s, n.sent, n.now);
    InStepAfterSend(t, n, Step(n, PollSender), t.Offset(n.sent + 1) - n.s.offset);
  }

  lemma WindowNothingSent(t: Transfer, n: Net, lossless: bool)
    requires WindowInv(t, n, lossless) && !n.s.phase.SendingFirst?
    requires n.s.phase.SendingConsecutive? ==> n.now < n.s.nextSend
    ensures WindowInv(t, Step(n, PollSender), lossless)
  {
    SenderPolled(t, n);
  }

  lemma WindowSenderPolled(t: Transfer, n: Net, lossless: bool)
    requires WindowInv(t, n, lossless)
    ensures WindowInv(t, Step(n, PollSender), lossless)
  {
    if n.s.phase.SendingFirst? {
      WindowFirstSent(t, n, lossless);
    } else if n.s.phase.SendingConsecutive? && n.now >= n.s.nextSend {
      WindowConsecutiveSent(t, n, lossless);
    } else {
      WindowNothingSent(t, n, lossless);
    }
  }

  lemma WindowReceiverPolled(t: Transfer, n: Net, lossless: bool)
    requires WindowInv(t, n, lossless)
    ensures WindowInv(t, Step(n, PollReceiver), lossless)
  {
    ReceiverPolled(t, n);
    if n.r.phase.SendFlowControl? {
      BlockOver(t, n, lossless);
    }
  }

  lemma WindowSenderHeard(t: Transfer, n: Net, lossless: bool)
    requires WindowInv(t, n, lossless)
    ensures WindowInv(t, Step(n, DeliverToSender), lossless)
  {
    SenderHeard(t, n);
    if n.toS != [] && n.s.phase.WaitingFlowControl? {
      FlowControlTaken(t, n.s, false, n.now);
    }
  }

  lemma SameResidue(a: nat, b: nat)
    requires a <= b < a + 16 && a % 16 == b % 16
    ensures a == b
  {
  }

  /// The only frame a receiver in step accepts is the one that is due.
  lemma OnlyTheDueFrame(t: Transfer, n: Net, lossless: bool, j: nat)
    requires WindowInv(t, n, lossless) && n.toR != [] && j == n.inFlight[0] && Alive(n.r) && n.due > 0
    ensures n.r.phase.Receiving? && j >= 1
    ensures n.r.sequence == j % 16 ==> j == n.due
    ensures lossless ==> j == n.due
  {
    if n.r.phase.SendFlowControl? {
      BlockOver(t, n, lossless);
    } else if n.r.sequence == j % 16 && !lossless {
      if 1 <= t.back.blockSize <= 16 {
        assert n.due <= j < n.sent <= n.grantAt + t.back.blockSize;
      } else {
        FrameCount(t, j);
      }
      SameResidue(n.due, j);
    }
  }

  lemma WindowFirst(t: Transfer, n: Net, lossless: bool)
    requires WindowInv(t, n, lossless) && n.toR != [] && n.due == 0
    ensures WindowInv(t, Step(n, DeliverToReceiver), lossless)
  {
    ReceiverHeard(t, n);
    assert n.sent == 1 && n.inFlight[0] == 0;
    FirstTaken(t, n.r, n.now);
  }

  lemma InStepAfterAccept(t: Transfer, n: Net, m: Net, bytes: seq<Byte>)
    requires t.Segmented() && n.r.cfg == t.back && ReceiverInStep(t, n) && n.r.phase.Receiving? && n.granted > 0
    requires n.r.expected == |t.message| && m.r == Accepted(n.r, bytes, n.now) && Alive(m.r)
    requires m.r.payload == t.message[..t.Offset(n.due + 1)] && m.due == n.due + 1 && m.got == m.due
    requires m.granted == n.granted && m.grantAt == n.grantAt
    ensures ReceiverInStep(t, m)
  {
    NextSequence(n.due);
  }

  lemma WindowAccepted(t: Transfer, n: Net, lossless: bool)
    requires WindowInv(t, n, lossless) && n.toR != [] && n.due > 0 && Alive(n.r)
    requires n.inFlight[0] == n.due
    ensures WindowInv(t, Step(n, DeliverToReceiver), lossless)
  {
    ReceiverHeard(t, n);
    OnlyTheDueFrame(t, n, lossless, n.due);
    var bytes := ConsecutiveTaken(t, n.r, n.due, n.now);
    var m := Step(n, DeliverToReceiver);
    assert m.r.payload == t.message[..t.Offset(n.due + 1)];
    if Alive(m.r) {
      InStepAfterAccept(t, n, m, bytes);
    }
  }

  lemma WindowRefused(t: Transfer, n: Net, lossless: bool)
    requires WindowInv(t, n, lossless) && n.toR != [] && n.due > 0 && Alive(n.r)
    requires n.inFlight[0] != n.due
    ensures WindowInv(t, Step(n, DeliverToReceiver), lossless)
  {
    ReceiverHeard(t, n);
    OnlyTheDueFrame(t, n, lossless, n.inFlight[0]);
    ConsecutiveRefused(t, n.r, n.inFlight[0], n.now);
  }

  lemma WindowIgnored(t: Transfer, n: Net, lossless: bool)
    requires WindowInv(t, n, lossless) && n.toR != [] && n.due > 0 && !Alive(n.r)
    ensures WindowInv(t, Step(n, DeliverToReceiver), lossless)
  {
    ReceiverHeard(t, n);
  }

  lemma WindowKept(t: Transfer, n: Net, op: Op, lossless: bool)
    requires WindowInv(t, n, lossless) && (lossless ==> !op.LoseToReceiver? && !op.LoseToSender?)
    ensures WindowInv(t, Step(n, op), lossless)
  {
    match op
    case PollSender => WindowSenderPolled(t, n, lossless);
    case PollReceiver => WindowReceiverPolled(t, n, lossless);
    case DeliverToReceiver =>
      if n.toR != [] {
        if n.due == 0 {
          WindowFirst(t, n, lossless);
        } else if !Alive(n.r) {
          WindowIgnored(t, n, lossless);
        } else if n.inFlight[0] == n.due {
          WindowAccepted(t, n, lossless);
        } else {
          WindowRefused(t, n, lossless);
        }
      }
    case DeliverToSender => WindowSenderHeard(t, n, lossless);
    case LoseToReceiver(k) => FrameLost(t, n, k);
    case LoseToSender(k) =>
    case Elapse(ns) =>
  }

  // ---- Transfers the receiver refuses ----

  ghost predicate RefusedInv(t: Transfer, n: Net) {
    && LossyInv(t, n) && TooLong(t)
    && n.sent <= 1 && !n.s.phase.SendingConsecutive?
    && (n.s.result.InProgress? || n.s.result.TimeoutBs? || n.s.result.BufferOverflow?)
    && (n.r.result.InProgress? || n.r.result.BufferOverflow?) && n.r.payload == []
    && |n.toS| <= 1 && (n.toS != [] ==> n.sent == 1 && n.r.phase.Over? && n.toS[0] == MakeFlowControl(t.back, Overflow))
  }

  lemma RefusedSenderPolled(t: Transfer, n: Net)
    requires RefusedInv(t, n)
    ensures RefusedInv(t, Step(n, PollSender))
  {
    SenderPolled(t, n);
    if n.s.phase.SendingFirst? && n.s.result.InProgress? {
      FirstSent(t, n.s, n.now);
    }
  }

  lemma RefusedReceiverHeard(t: Transfer, n: Net)
    requires RefusedInv(t, n)
    ensures RefusedInv(t, Step(n, DeliverToReceiver))
  {
    ReceiverHeard(t, n);
    if n.toR != [] && n.due == 0 {
      FirstTaken(t, n.r, n.now);
    }
  }

  lemma RefusedSenderHeard(t: Transfer, n: Net)
    requires RefusedInv(t, n)
    ensures RefusedInv(t, Step(n, DeliverToSender))
  {
    SenderHeard(t, n);
    if n.toS != [] && n.s.phase.WaitingFlowControl? {
      FlowControlTaken(t, n.s, true, n.now);
    }
  }

  lemma RefusedKept(t: Transfer, n: Net, op: Op)
    requires RefusedInv(t, n)
    ensures RefusedInv(t, Step(n, op))
  {
    match op
    case PollSender => RefusedSenderPolled(t, n);
    case PollReceiver => ReceiverPolled(t, n);
    case DeliverToReceiver => RefusedReceiverHeard(t, n);
    case DeliverToSender => RefusedSenderHeard(t, n);
    case LoseToReceiver(k) => FrameLost(t, n, k);
    case LoseToSender(k) =>
    case Elapse(ns) =>
  }

  // ---- The results ----

  lemma WindowAtStart(t: Transfer, n: Net, lossless: bool)
    requires Begun(t, n) && t.Segmented() && !TooLong(t) && (!lossless ==> ToldApart(t))
    ensures WindowInv(t, n, lossless)
  {
  }

  lemma WindowRuns(t: Transfer, n: Net, ops: seq<Op>, lossless: bool)
    requires Begun(t, n) && t.Segmented() && !TooLong(t) && (!lossless ==> ToldApart(t))
    requires lossless ==> forall i | 0 <= i < |ops| :: !ops[i].LoseToReceiver? && !ops[i].LoseToSender?
    ensures WindowInv(t, Steps(n, ops), lossless)
  {
    var inv := (x: Net) => WindowInv(t, x, lossless);
    var allowed := (op: Op) => lossless ==> !op.LoseToReceiver? && !op.LoseToSender?;
    forall x: Net, op: Op | x.Sound() && inv(x) && allowed(op)
      ensures inv(Step(x, op))
    {
      WindowKept(t, x, op, lossless);
    }
    WindowAtStart(t, n, lossless);
    RunInvariant(inv, allowed, n, ops);
  }

  lemma RefusedRuns(t: Transfer, n: Net, ops: seq<Op>)
    requires Begun(t, n) && t.Segmented() && TooLong(t)
    ensures RefusedInv(t, Steps(n, ops))
  {
    var inv := (x: Net) => RefusedInv(t, x);
    forall x: Net, op: Op | x.Sound() && inv(x)
      ensures inv(Step(x, op))
    {
      RefusedKept(t, x, op);
    }
    RunInvariant(inv, _ => true, n, ops);
  }

  /// On a link that loses nothing, in every run, neither side ever fails but by a timeout or because
  /// the receiver has refused the length, and what the receiver has is always a prefix of the message.
  lemma LosslessIsSafe(t: Transfer, n: Net, ops: seq<Op>)
    requires Begun(t, n) && forall i | 0 <= i < |ops| :: !ops[i].LoseToReceiver? && !ops[i].LoseToSender?
    ensures var m := Steps(n, ops);
            && (m.s.result.InProgress? || m.s.result.Ok? || m.s.result.TimeoutBs? || m.s.result.BufferOverflow?)
            && (m.r.result.InProgress? || m.r.result.Ok? || m.r.result.TimeoutCr? || m.r.result.BufferOverflow?)
            && m.r.payload <= t.message
            && (m.s.result.BufferOverflow? || m.r.result.BufferOverflow? ==> t.Segmented() && TooLong(t))
  {
    if !t.Segmented() {
      SingleRuns(t, n, ops);
    } else if TooLong(t) {
      RefusedRuns(t, n, ops);
    } else {
      WindowRuns(t, n, ops, true);
    }
  }

  /// On a lossy link with blocks of 1 to 16 frames, or no more than 16 Consecutive Frames in all, the receiver
  /// never holds anything but a prefix, and the only failures besides timeouts are a noticed gap and a refused
  /// length.
  lemma LossyKeepsPrefix(t: Transfer, n: Net, ops: seq<Op>)
    requires Begun(t, n) && (t.Segmented() ==> ToldApart(t))
    ensures var m := Steps(n, ops);
            && m.r.payload <= t.message
            && !m.s.result.UnexpectedPdu? && !m.s.result.InvalidPdu? && !m.r.result.UnexpectedPdu? && !m.r.result.InvalidPdu?
  {
    if !t.Segmented() {
      SingleRuns(t, n, ops);
    } else if TooLong(t) {
      RefusedRuns(t, n, ops);
    } else {
      WindowRuns(t, n, ops, false);
    }
  }

  /// A message longer than the receiver takes never ends Ok on either side, if it needs a First Frame.
  lemma TooLongNeverOk(t: Transfer, n: Net, ops: seq<Op>)
    requires Begun(t, n) && t.Segmented() && TooLong(t)
    ensures !Steps(n, ops).s.result.Ok? && !Steps(n, ops).r.result.Ok?
  {
    RefusedRuns(t, n, ops);
  }

  /// A Single Frame is taken whatever the receiver's limit: so a message above the limit can end Ok on
  /// both sides exactly when it needs no First Frame.
  lemma LimitIsForFirstFrames(t: Transfer, n: Net)
    requires Begun(t, n) && TooLong(t)
    ensures (exists ops :: Steps(n, ops).s.result.Ok? && Steps(n, ops).r.result.Ok?) <==> !t.Segmented()
  {
    if t.Segmented() {
      forall ops
        ensures !Steps(n, ops).s.result.Ok?
      {
        TooLongNeverOk(t, n, ops);
      }
    } else {
      var ops := [PollSender, DeliverToReceiver];
      SingleSucceeds(t, n, ops);
      assert Steps(n, ops).s.result.Ok? && Steps(n, ops).r.result.Ok?;
    }
  }

  lemma SingleSucceeds(t: Transfer, n: Net, ops: seq<Op>)
    requires Begun(t, n) && !t.Segmented() && ops == [PollSender, DeliverToReceiver]
    ensures Steps(n, ops).s.result.Ok? && Steps(n, ops).r.result.Ok?
  {
    SingleTaken(t, n.r, n.now);
    var m := Step(n, PollSender);
    assert m.toR == [OnlyFrame(t)];
    var rest, last := ops[1..], Step(m, DeliverToReceiver);
    assert rest[0] == DeliverToReceiver && rest[1..] == [];
    assert Steps(last, rest[1..]) == last;
    assert Steps(m, rest) == last;
  }
}
