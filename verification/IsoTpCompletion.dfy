/// Pacing and completion of ISO-TP transfers in time.
module IsoTpCompletion {
  import opened Bits
  import opened IsoTp
  import opened IsoTpFrames
  import opened IsoTpLink
  import opened IsoTpCount
  import opened IsoTpWindow
  import opened IsoTpTimed

  // ---- STmin ----

  function Gap(t: Transfer): nat {
    StMinToNs(t.back.stMinRaw)
  }

  /// Frames are recorded as they are sent, and within a block each is a gap after the one before.
  ghost predicate PaceInv(t: Transfer, n: Net) {
    LossyInv(t, n) && Paced(t, n)
  }

  ghost predicate Paced(t: Transfer, n: Net) {
    && |n.sentAt| == n.sent && (forall x | x in n.blockStarts :: x <= n.sent)
    && (forall i | 0 <= i < |n.toS| :: IsFlowControl(t, n.toS[i]))
    && NeverWaits(n.r)
    && (n.s.phase.SendingConsecutive? ==>
          n.s.stMin == Gap(t) && n.sent >= 1 && (n.sent !in n.blockStarts ==> n.s.nextSend == n.sentAt[n.sent - 1] + Gap(t)))
    && (n.sent == 1 && n.s.phase.SendingConsecutive? ==> 1 in n.blockStarts)
    && (n.sent > 1 ==> 1 in n.blockStarts)
    && Spaced(n.sentAt, n.blockStarts, Gap(t))
  }

  /// Each time is a gap after the one before, unless a block starts there.
  ghost predicate Spaced(times: seq<nat>, blockStarts: set<nat>, gap: nat) {
    |times| <= 1
    || (Spaced(times[..|times| - 1], blockStarts, gap)
        && (|times| - 1 !in blockStarts ==> times[|times| - 1] >= times[|times| - 2] + gap))
  }

  lemma SpacedSnoc(times: seq<nat>, blockStarts: set<nat>, gap: nat, t: nat)
    requires Spaced(times, blockStarts, gap)
    requires times != [] && |times| !in blockStarts ==> t >= times[|times| - 1] + gap
    ensures Spaced(times + [t], blockStarts, gap)
  {
    assert (times + [t])[..|times|] == times;
  }

  /// A later block start changes nothing.
  lemma {:induction false} SpacedBlock(times: seq<nat>, blockStarts: set<nat>, gap: nat, x: nat)
    requires Spaced(times, blockStarts, gap)
    ensures Spaced(times, blockStarts + {x}, gap)
  {
    if |times| > 1 {
      SpacedBlock(times[..|times| - 1], blockStarts, gap, x);
    }
  }

  lemma {:induction false} SpacedAt(times: seq<nat>, blockStarts: set<nat>, gap: nat, j: nat)
    requires Spaced(times, blockStarts, gap) && 1 <= j < |times| && j !in blockStarts
    ensures times[j] >= times[j - 1] + gap
  {
    if j < |times| - 1 {
      SpacedAt(times[..|times| - 1], blockStarts, gap, j);
    }
  }

  ghost function FlowControlOf(t: Transfer, overflow: bool): CanFrame {
    MakeFlowControl(t.back, if overflow then Overflow else ContinueToSend)
  }

  ghost predicate IsFlowControl(t: Transfer, frame: CanFrame) {
    frame == FlowControlOf(t, false) || frame == FlowControlOf(t, true)
  }

  lemma PaceFirstSent(t: Transfer, n: Net)
    requires PaceInv(t, n) && n.s.result.InProgress? && n.s.phase.SendingFirst?
    ensures Paced(t, Step(n, PollSender))
  {
    SpacedSnoc(n.sentAt, n.blockStarts, Gap(t), n.now);
    FirstSent(t, n.s, n.now);
  }

  lemma PaceConsecutiveSent(t: Transfer, n: Net)
    requires PaceInv(t, n) && n.s.phase.SendingConsecutive? && n.now >= n.s.nextSend
    ensures Paced(t, Step(n, PollSender))
  {
    ConsecutiveSent(t, n.s, n.sent, n.now);
    SpacedSnoc(n.sentAt, n.blockStarts, Gap(t), n.now);
    PacedSent(t, n, Step(n, PollSender));
  }

  lemma PacedSent(t: Transfer, n: Net, m: Net)
    requires Paced(t, n) && n.s.phase.SendingConsecutive? && m.s.offset >= n.s.offset
    requires m.s == AfterConsecutive(n.s, m.s.offset - n.s.offset, n.now) && m.r == n.r && m.toS == n.toS && m.sent == n.sent + 1
    requires m.sentAt == n.sentAt + [n.now] && m.blockStarts == n.blockStarts && Spaced(m.sentAt, m.blockStarts, Gap(t))
    ensures Paced(t, m)
  {
  }

  lemma PaceNothingSent(t: Transfer, n: Net)
    requires PaceInv(t, n) && !n.s.phase.SendingFirst? && (n.s.phase.SendingConsecutive? ==> n.now < n.s.nextSend)
    ensures Paced(t, Step(n, PollSender))
  {
  }

  lemma PaceSenderPolled(t: Transfer, n: Net)
    requires PaceInv(t, n)
    ensures Paced(t, Step(n, PollSender))
  {
    if n.s.phase.SendingFirst? {
      PaceFirstSent(t, n);
    } else if n.s.phase.SendingConsecutive? && n.now >= n.s.nextSend {
      PaceConsecutiveSent(t, n);
    } else {
      PaceNothingSent(t, n);
    }
  }

  lemma PaceSenderHeard(t: Transfer, n: Net)
    requires PaceInv(t, n)
    ensures Paced(t, Step(n, DeliverToSender))
  {
    SpacedBlock(n.sentAt, n.blockStarts, Gap(t), n.sent);
    if n.toS != [] {
      var overflow := n.toS[0] == FlowControlOf(t, true);
      if n.s.phase.WaitingFlowControl? {
        FlowControlTaken(t, n.s, overflow, n.now);
      }
    }
  }

  lemma PaceReceiverPolled(t: Transfer, n: Net)
    requires PaceInv(t, n)
    ensures Paced(t, Step(n, PollReceiver))
  {
    if n.r.phase.SendFlowControl? {
      assert MakeFlowControl(n.r.cfg, n.r.pending) == FlowControlOf(t, n.r.pending.Overflow?);
    }
  }

  /// What the receiver may be about to ask for.
  predicate NeverWaits(r: ReceiverState) {
    r.phase.SendFlowControl? ==> !r.pending.Wait?
  }

  lemma NoWaitAfter(r: ReceiverState, frame: CanFrame, now: nat)
    requires r.Valid() && NeverWaits(r)
    ensures NeverWaits(ReceiverOnFrame(r, frame, now))
  {
  }

  lemma PaceReceiverHeard(t: Transfer, n: Net)
    requires PaceInv(t, n)
    ensures Paced(t, Step(n, DeliverToReceiver))
  {
    if n.toR != [] {
      var m := Step(n, DeliverToReceiver);
      OnlyTheReceiver(n, m);
      NoWaitAfter(n.r, n.toR[0], n.now);
      PacedStays(t, n, m);
    }
  }

  lemma PacedStays(t: Transfer, n: Net, m: Net)
    requires Paced(t, n) && NeverWaits(m.r) && m.s == n.s && m.toS == n.toS
    requires m.sent == n.sent && m.sentAt == n.sentAt && m.blockStarts == n.blockStarts
    ensures Paced(t, m)
  {
  }

  lemma PaceUntouched(t: Transfer, n: Net, op: Op)
    requires Paced(t, n) && n.Sound() && (op.LoseToReceiver? || op.LoseToSender? || op.Elapse?)
    ensures Paced(t, Step(n, op))
  {
  }

  lemma PacedAlong(t: Transfer, n: Net, op: Op)
    requires PaceInv(t, n)
    ensures Paced(t, Step(n, op))
  {
    match op
    case PollSender => PaceSenderPolled(t, n);
    case PollReceiver => PaceReceiverPolled(t, n);
    case DeliverToReceiver => PaceReceiverHeard(t, n);
    case DeliverToSender => PaceSenderHeard(t, n);
    case LoseToReceiver(k) => PaceUntouched(t, n, op);
    case LoseToSender(k) => PaceUntouched(t, n, op);
    case Elapse(ns) => PaceUntouched(t, n, op);
  }

  lemma PaceKept(t: Transfer, n: Net, op: Op, m: Net)
    requires PaceInv(t, n) && m == Step(n, op)
    ensures PaceInv(t, m)
  {
    LossyKept(t, n, op);
    PacedAlong(t, n, op);
  }

  /// On any link, two frames with no Flow Control in between are at least STmin apart: as many milliseconds as the
  /// raw value says up to 127, 100 to 900 microseconds for 0xF1 to 0xF9, and 127 milliseconds for all others.
  lemma FramesKeepTheGap(t: Transfer, n: Net, ops: seq<Op>, j: nat)
    requires Begun(t, n) && t.Segmented()
    ensures var m, raw: int := Steps(n, ops), t.back.stMinRaw;
            && |m.sentAt| == m.sent
            && (1 <= j < m.sent && j !in m.blockStarts ==>
                  m.sentAt[j] >= m.sentAt[j - 1] + (if raw <= 127 then 1000000 * raw
                                                    else if 0xF1 <= raw <= 0xF9 then 100000 * (raw - 240)
                                                    else 127000000))
  {
    PaceAlong(t, n, ops);
    var m := Steps(n, ops);
    if 1 <= j < m.sent && j !in m.blockStarts {
      SpacedAt(m.sentAt, m.blockStarts, Gap(t), j);
    }
  }

  lemma PaceAlong(t: Transfer, n: Net, ops: seq<Op>)
    requires Begun(t, n) && t.Segmented()
    ensures PaceInv(t, Steps(n, ops))
  {
    var inv := (x: Net) => PaceInv(t, x);
    forall x: Net, op: Op | x.Sound() && inv(x)
      ensures inv(Step(x, op))
    {
      PaceKept(t, x, op, Step(x, op));
    }
    RunInvariant(inv, _ => true, n, ops);
  }

  lemma DueFrameIsSent(t: Transfer, m: Net)
    requires PaceInv(t, m) && m.s.phase.SendingConsecutive? && m.s.result.InProgress? && m.sent !in m.blockStarts
    ensures |m.sentAt| == m.sent >= 1
    ensures Step(m, PollSender).sent == m.sent + 1 <==> m.now >= m.sentAt[m.sent - 1] + Gap(t)
  {
    assert m.s.nextSend == m.sentAt[m.sent - 1] + Gap(t);
  }

  /// And no longer: once that time has passed since the frame before, polling the sender sends the next, unless a
  /// Flow Control has come in between.
  lemma DueFramesAreSent(t: Transfer, n: Net, ops: seq<Op>)
    requires Begun(t, n) && t.Segmented()
    ensures var m, raw: int := Steps(n, ops), t.back.stMinRaw;
            m.s.phase.SendingConsecutive? && m.s.result.InProgress? && m.sent !in m.blockStarts ==>
              |m.sentAt| == m.sent >= 1
              && (Step(m, PollSender).sent == m.sent + 1
                  <==> m.now >= m.sentAt[m.sent - 1] + (if raw <= 127 then 1000000 * raw
                                                        else if 0xF1 <= raw <= 0xF9 then 100000 * (raw - 240)
                                                        else 127000000))
  {
    PaceAlong(t, n, ops);
    var m := Steps(n, ops);
    if m.s.phase.SendingConsecutive? && m.s.result.InProgress? && m.sent !in m.blockStarts {
      DueFrameIsSent(t, m);
    }
  }

  // ---- Polling both sides every `d` nanoseconds ----

  /// What the link and the polls need of the delays: no slower than the timeouts.
  ghost predicate InTime(t: Transfer, d: nat) {
    && d >= 1 && t.out.nBs >= t.back.nBr + d && t.back.nCr >= 1
    && t.back.nCr >= t.out.nCs && t.back.nCr >= Gap(t)
  }

  /// The sender is polled, then the receiver; what either sends arrives at once.
  ghost function Tick(n: Net, d: nat): (m: Net)
    requires n.Sound()
    ensures m.Sound()
  {
    Rest(Heard(n), d)
  }

  ghost function Heard(n: Net): (m: Net)
    requires n.Sound()
    ensures m.Sound()
  {
    Step(Step(n, PollSender), DeliverToReceiver)
  }

  ghost function Ticks(n: Net, d: nat, k: nat): (m: Net)
    requires n.Sound()
    ensures m.Sound()
    decreases k
  {
    if k == 0 then n else Tick(Ticks(n, d, k - 1), d)
  }

  ghost predicate Quiet(n: Net) {
    n.toR == [] && n.toS == []
  }

  ghost predicate Starting(n: Net) {
    n.s.phase.SendingFirst? && n.due == 0
  }

  ghost predicate Pending(n: Net, d: nat) {
    n.s.phase.WaitingFlowControl? && n.r.phase.SendFlowControl? && n.r.fcDue + d <= n.s.deadline
  }

  ghost predicate Flowing(n: Net) {
    n.s.phase.SendingConsecutive? && n.r.phase.Receiving? && n.s.nextSend <= n.r.deadline
  }

  ghost predicate Both(n: Net) {
    n.s.result.Ok? && n.r.result.Ok?
  }

  /// Between ticks.
  ghost predicate Timed(t: Transfer, n: Net, d: nat) {
    CountInv(t, n) && Quiet(n) && (Starting(n) || (Pending(n, d) && n.now < n.r.fcDue + d) || Flowing(n) || Both(n))
  }

  /// Between the two halves of a tick.
  ghost predicate HalfTimed(t: Transfer, n: Net, d: nat) {
    CountInv(t, n) && Quiet(n) && (Pending(n, d) || (Flowing(n) && n.now < n.r.deadline) || Both(n))
  }

  /// How long until the side whose turn it is may act.
  ghost function Delay(n: Net): nat {
    var at := if n.s.phase.SendingConsecutive? then n.s.nextSend else n.r.fcDue;
    if at > n.now then at - n.now else 0
  }

  ghost function Turn(n: Net): nat {
    if n.s.phase.SendingConsecutive? then 0 else 1
  }

  lemma QuietMeansDue(t: Transfer, n: Net)
    requires CountInv(t, n) && n.toR == []
    ensures n.due == n.sent
  {
  }

  lemma FirstHalfStarts(t: Transfer, n: Net, d: nat)
    requires CountInv(t, n) && Quiet(n) && Starting(n) && InTime(t, d)
    ensures HalfTimed(t, Heard(n), d) && Heard(n).sent == n.sent + 1 && Heard(n).now == n.now
  {
    QuietMeansDue(t, n);
    CountKept(t, n, PollSender);
    FirstSent(t, n.s, n.now);
    var a := Step(n, PollSender);
    CountKept(t, a, DeliverToReceiver);
    FirstTaken(t, a.r, a.now);
  }

  lemma FirstHalfWaits(t: Transfer, n: Net, d: nat)
    requires CountInv(t, n) && Quiet(n) && !Starting(n)
    requires Pending(n, d) ==> n.now < n.s.deadline
    requires Pending(n, d) || (Flowing(n) && n.now < n.s.nextSend) || Both(n)
    ensures Heard(n) == n
  {
  }

  /// The due frame is sent, arrives and is taken.
  lemma DueFrameTaken(t: Transfer, n: Net, m: Net) returns (bytes: seq<Byte>)
    requires CountInv(t, n) && Quiet(n) && n.due == n.sent && n.s.phase.SendingConsecutive? && n.now >= n.s.nextSend
    requires n.r.phase.Receiving? && m == Heard(n)
    ensures CountInv(t, m) && Quiet(m) && m.sent == n.sent + 1 && m.now == n.now
    ensures m.s == SenderPoll(n.s, n.now).0 && m.s.offset == t.Offset(n.sent + 1)
    ensures m.r == Accepted(n.r, bytes, n.now) && n.r.payload + bytes == t.message[..t.Offset(n.sent + 1)]
  {
    var a := Step(n, PollSender);
    CountKept(t, n, PollSender);
    NextOnLink(t, n, a);
    OnlyThePayload(n, a);
    bytes := DueFrameHeard(t, a, m);
  }

  lemma OnlyThePayload(n: Net, a: Net)
    requires n.Sound() && a == Step(n, PollSender)
    ensures a.toS == n.toS && a.due == n.due && a.r == n.r && a.now == n.now
  {
  }

  lemma DueFrameHeard(t: Transfer, a: Net, m: Net) returns (bytes: seq<Byte>)
    requires CountInv(t, a) && |a.toR| == 1 && a.toS == [] && a.r.phase.Receiving? && a.due > 0 && m == Step(a, DeliverToReceiver)
    ensures CountInv(t, m) && Quiet(m) && m.sent == a.sent && m.now == a.now && m.s == a.s
    ensures m.r == Accepted(a.r, bytes, a.now) && a.r.payload + bytes == t.message[..t.Offset(a.due + 1)]
  {
    CountKept(t, a, DeliverToReceiver);
    OnlyTheReceiver(a, m);
    ReceivingTheDue(t, a);
    bytes := ConsecutiveTaken(t, a.r, a.due, a.now);
  }

  /// A Consecutive Frame: the sender goes on, stops at the end of the block, or is done, and so does the
  /// receiver.
  lemma FirstHalfSends(t: Transfer, n: Net, d: nat)
    requires CountInv(t, n) && Quiet(n) && Flowing(n) && n.now >= n.s.nextSend && InTime(t, d)
    ensures HalfTimed(t, Heard(n), d) && Heard(n).sent == n.sent + 1 && Heard(n).now == n.now
    ensures Flowing(Heard(n)) ==> Heard(n).s.nextSend == n.now + Gap(t) && Heard(n).r.deadline == n.now + t.back.nCr
  {
    var m := Heard(n);
    QuietMeansDue(t, n);
    var bytes := DueFrameTaken(t, n, m);
    BothMoveOn(t, n, m.s, bytes, d);
  }

  lemma BothMoveOn(t: Transfer, n: Net, s: SenderState, bytes: seq<Byte>, d: nat)
    requires CountInv(t, n) && Flowing(n) && n.now >= n.s.nextSend && InTime(t, d) && n.due == n.sent
    requires s == SenderPoll(n.s, n.now).0 && s.offset == t.Offset(n.sent + 1)
    requires n.r.payload + bytes == t.message[..t.Offset(n.sent + 1)]
    ensures var r := Accepted(n.r, bytes, n.now);
            || (s.phase.WaitingFlowControl? && r.phase.SendFlowControl? && r.fcDue + d <= s.deadline)
            || (s.phase.SendingConsecutive? && r.phase.Receiving? && s.nextSend == n.now + Gap(t) && r.deadline == n.now + t.back.nCr)
            || (s.result.Ok? && r.result.Ok?)
  {
  }

  ghost function Rest(b: Net, d: nat): (m: Net)
    requires b.Sound()
    ensures m.Sound()
  {
    Step(Answered(b), Elapse(d))
  }

  ghost function Answered(b: Net): (m: Net)
    requires b.Sound()
    ensures m.Sound()
  {
    Step(Step(b, PollReceiver), DeliverToSender)
  }

  lemma NothingSent(b: Net, c: Net)
    requires b.Sound() && c == Step(b, PollReceiver)
    ensures c.sent == b.sent && c.now == b.now
  {
  }

  lemma CountAnswered(t: Transfer, b: Net, m: Net)
    requires CountInv(t, b) && m == Answered(b)
    ensures CountInv(t, m) && m.sent == b.sent && m.now == b.now
  {
    var c := Step(b, PollReceiver);
    CountKept(t, b, PollReceiver);
    NothingSent(b, c);
    CountHeard(t, c, m);
  }

  lemma CountHeard(t: Transfer, c: Net, m: Net)
    requires CountInv(t, c) && m == Step(c, DeliverToSender)
    ensures CountInv(t, m) && m.sent == c.sent && m.now == c.now
  {
    CountKept(t, c, DeliverToSender);
  }

  lemma CountElapsed(t: Transfer, c: Net, d: nat, m: Net)
    requires CountInv(t, c) && m == Step(c, Elapse(d))
    ensures CountInv(t, m) && m == c.(now := c.now + d)
  {
    CountKept(t, c, Elapse(d));
  }

  /// The receiver's Flow Control is due, and arrives.
  lemma GrantArrives(t: Transfer, b: Net, m: Net)
    requires CountInv(t, b) && Quiet(b) && b.s.phase.WaitingFlowControl? && b.r.phase.SendFlowControl?
    requires b.now >= b.r.fcDue && m == Answered(b)
    ensures Quiet(m) && m.s.phase.SendingConsecutive? && m.r.phase.Receiving?
    ensures m.s.nextSend == b.now + t.out.nCs && m.r.deadline == b.now + t.back.nCr
  {
    var c := Step(b, PollReceiver);
    assert c.toS == [MakeFlowControl(t.back, ContinueToSend)];
    FlowControlTaken(t, c.s, false, c.now);
  }

  /// Nothing to say yet.
  lemma NothingToAnswer(t: Transfer, b: Net)
    requires CountInv(t, b) && Quiet(b)
    requires (b.r.phase.SendFlowControl? ==> b.now < b.r.fcDue) && (b.r.phase.Receiving? ==> b.now < b.r.deadline)
    ensures Answered(b) == b
  {
    assert Step(b, PollReceiver) == b;
  }

  lemma SecondHalf(t: Transfer, b: Net, d: nat, m: Net)
    requires HalfTimed(t, b, d) && InTime(t, d) && m == Rest(b, d)
    ensures Timed(t, m, d) && m.sent == b.sent && m.now == b.now + d
    ensures Pending(b, d) && b.now >= b.r.fcDue ==> Turn(m) == 0
    ensures !(Pending(b, d) && b.now >= b.r.fcDue) ==> m == b.(now := b.now + d)
  {
    var c := Answered(b);
    CountAnswered(t, b, c);
    CountElapsed(t, c, d, m);
    if Pending(b, d) && b.now >= b.r.fcDue {
      GrantArrives(t, b, c);
    } else {
      NothingToAnswer(t, b);
    }
  }

  ghost predicate Closer(m: Net, n: Net) {
    m.sent > n.sent || (m.sent == n.sent && (Turn(m) < Turn(n) || (Turn(m) == Turn(n) && Delay(m) < Delay(n))))
  }

  lemma FirstHalf(t: Transfer, n: Net, d: nat, b: Net)
    requires Timed(t, n, d) && InTime(t, d) && !Both(n) && b == Heard(n)
    ensures HalfTimed(t, b, d) && b.now == n.now
    ensures b.sent == n.sent + 1 || (b == n && !Starting(n) && (Flowing(n) ==> n.now < n.s.nextSend))
  {
    if Starting(n) {
      FirstHalfStarts(t, n, d);
    } else if Flowing(n) && n.now >= n.s.nextSend {
      FirstHalfSends(t, n, d);
    } else {
      FirstHalfWaits(t, n, d);
    }
  }

  /// Every tick keeps the sides in time and brings the transfer closer to its end.
  lemma TickProgress(t: Transfer, n: Net, d: nat, m: Net)
    requires Timed(t, n, d) && InTime(t, d) && !Both(n) && m == Tick(n, d)
    ensures Timed(t, m, d) && Closer(m, n)
  {
    var b := Heard(n);
    FirstHalf(t, n, d, b);
    SecondHalf(t, b, d, m);
    if b == n {
      WaitingProgress(t, n, d, m);
    }
  }

  lemma WaitingProgress(t: Transfer, n: Net, d: nat, m: Net)
    requires d >= 1 && !Both(n) && !Starting(n) && (Pending(n, d) || (Flowing(n) && n.now < n.s.nextSend))
    requires if Pending(n, d) && n.now >= n.r.fcDue then m.sent == n.sent && Turn(m) == 0 else m == n.(now := n.now + d)
    ensures Closer(m, n)
  {
  }

  lemma SentBound(t: Transfer, n: Net)
    requires CountInv(t, n)
    ensures n.sent <= Consecutives(t) + 1
  {
    if n.sent > 0 {
      FrameCount(t, n.sent - 1);
    }
  }

  lemma OneMoreTick(n: Net, d: nat, k: nat, m: Net)
    requires n.Sound() && m == Ticks(n, d, k)
    ensures Ticks(n, d, k + 1) == Tick(m, d)
  {
  }

  lemma TicksComplete(t: Transfer, n: Net, d: nat) returns (k: nat)
    requires Timed(t, n, d) && InTime(t, d)
    ensures Both(Ticks(n, d, k)) && CountInv(t, Ticks(n, d, k))
  {
    var m := n;
    k := 0;
    while !Both(m)
      invariant m == Ticks(n, d, k) && Timed(t, m, d)
      decreases Consecutives(t) + 1 - m.sent, Turn(m), Delay(m)
    {
      var next := Tick(m, d);
      TickProgress(t, m, d, next);
      SentBound(t, next);
      OneMoreTick(n, d, k, m);
      m, k := next, k + 1;
    }
  }

  /// Two sides polled every `d` nanoseconds, the sender first in each tick, with what they send arriving
  /// at once, always complete a message the receiver takes: no timeout fires, both end Ok, the receiver
  /// holds the message, and the cost is one frame, or one First Frame, the Consecutive Frames and a
  /// Flow Control for each block.
  lemma PolledTransfersComplete(t: Transfer, n: Net, d: nat) returns (k: nat)
    requires Begun(t, n) && !TooLong(t) && InTime(t, d)
    ensures var m := Ticks(n, d, k);
            && m.s.result.Ok? && m.r.result.Ok? && m.r.payload == t.message
            && (!t.Segmented() ==> m.sent == 1)
            && (t.Segmented() ==>
                  m.sent == 1 + Consecutives(t)
                  && m.granted == if t.back.blockSize == 0 then 1 else (Consecutives(t) + t.back.blockSize - 1) / t.back.blockSize)
  {
    if t.Segmented() {
      WindowAtStart(t, n, true);
      k := TicksComplete(t, n, d);
      CountAtOk(t, Ticks(n, d, k));
    } else {
      k := 1;
      SingleTick(t, n, d);
      assert Ticks(n, d, 0) == n;
      OneMoreTick(n, d, 0, n);
    }
  }

  lemma SingleTick(t: Transfer, n: Net, d: nat)
    requires Begun(t, n) && !t.Segmented()
    ensures Both(Tick(n, d)) && Tick(n, d).r.payload == t.message && Tick(n, d).sent == 1
  {
    var a := Step(n, PollSender);
    assert a.toR == [OnlyFrame(t)];
    SingleTaken(t, a.r, a.now);
  }
}
