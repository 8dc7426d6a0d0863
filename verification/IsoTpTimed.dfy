/// Completion and cost of ISO-TP transfers: how many frames they take, how far apart the frames are,
/// and that two sides polled often enough always finish.
module IsoTpTimed {
  import opened Bits
  import opened IsoTp
  import opened IsoTpFrames
  import opened IsoTpLink
  import opened IsoTpCount
  import opened IsoTpWindow

  // ---- How many blocks ----

  /// The blocks of `b` frames that `c` frames make.
  function Blocks(c: nat, b: nat): nat
    requires b >= 1
  {
    if c == 0 then 0 else 1 + Blocks(AfterBlock(c, b), b)
  }

  function AfterBlock(c: nat, b: nat): nat {
    if c > b then c - b else 0
  }

  lemma {:induction false} BlocksFormula(c: nat, b: nat)
    requires b >= 1
    ensures Blocks(c, b) == (c + b - 1) / b
  {
    if c == 0 {
      QuotientIs(b - 1, b, 0, b - 1);
    } else if c <= b {
      QuotientIs(c + b - 1, b, 1, c - 1);
      assert Blocks(0, b) == 0;
    } else {
      BlocksFormula(c - b, b);
      var q, r := (c - 1) / b, (c - 1) % b;
      assert c - 1 == b * q + r;
      QuotientIs(c + b - 1, b, q + 1, r);
    }
  }

  lemma QuotientIs(v: nat, d: nat, q: nat, r: nat)
    requires d > 0 && v == d * q + r && r < d
    ensures v / d == q
  {
    var p := v / d;
    if p > q {
      Product(d, q + 1, p);
    } else if p < q {
      Product(d, p + 1, q);
    }
  }

  lemma Product(d: nat, a: nat, b: nat)
    requires a <= b
    ensures d * a <= d * b
  {
  }

  // ---- Counting in runs ----

  ghost predicate CountInv(t: Transfer, n: Net) {
    WindowInv(t, n, true) && Counted(t, n.sent, n.due, n.granted, n.grantAt, n.r.result.Ok?)
  }

  /// How the frames sent, gone past and asked for go together; `ok` when the receiver has ended Ok.
  ghost predicate Counted(t: Transfer, sent: nat, due: nat, granted: nat, grantAt: nat, ok: bool)
    requires t.Segmented()
  {
    && (sent > 0 ==> t.Has(sent - 1))
    && (ok ==> granted > 0 && sent == due && !t.Has(sent))
    && (granted > 0 ==> grantAt >= 1)
    && (granted > 0 && t.back.blockSize > 0 ==>
          grantAt <= Consecutives(t)
          && granted + StillToGrant(t, grantAt) == Blocks(Consecutives(t), t.back.blockSize))
  }

  /// The Flow Controls after one at `at`.
  function StillToGrant(t: Transfer, at: nat): nat
    requires t.back.blockSize > 0 && at <= Consecutives(t) + 1
  {
    Blocks(AfterBlock(Consecutives(t) + 1 - at, t.back.blockSize), t.back.blockSize)
  }

  lemma CountGranted(t: Transfer, n: Net)
    requires CountInv(t, n) && n.r.phase.SendFlowControl? && t.back.blockSize > 0
    ensures 1 <= n.due <= Consecutives(t)
    ensures n.granted + 1 + StillToGrant(t, n.due) == Blocks(Consecutives(t), t.back.blockSize)
  {
    FrameCount(t, n.due);
    var left := Consecutives(t) + 1 - n.due;
    assert Blocks(left, t.back.blockSize) == 1 + Blocks(AfterBlock(left, t.back.blockSize), t.back.blockSize);
  }

  lemma CountReceiverPolled(t: Transfer, n: Net, m: Net)
    requires CountInv(t, n) && m == Step(n, PollReceiver)
    ensures CountInv(t, m)
  {
    WindowKept(t, n, PollReceiver, true);
    PolledCounters(n, m);
    if n.r.phase.SendFlowControl? && t.back.blockSize > 0 {
      CountGranted(t, n);
    }
  }

  lemma PolledCounters(n: Net, m: Net)
    requires n.Sound() && m == Step(n, PollReceiver)
    ensures m.sent == n.sent && m.due == n.due
    ensures (m.granted == n.granted && m.grantAt == n.grantAt) || (m.granted == n.granted + 1 && m.grantAt == n.due && n.r.phase.SendFlowControl?)
    ensures m.r.result.Ok? ==> n.r.result.Ok?
  {
  }

  /// The frame that completes the message is the last one sent.
  lemma LastFrame(t: Transfer, sent: nat, j: nat)
    requires t.Segmented() && j < sent && t.Has(sent - 1) && t.Offset(j + 1) == |t.message|
    ensures sent == j + 1 && !t.Has(sent)
  {
    if j + 1 < sent {
      OffsetsOrdered(t, j + 1, sent - 1);
    }
  }

  lemma FrameInFlight(t: Transfer, n: Net)
    requires LossyInv(t, n) && n.toR != []
    ensures n.toR[0] == t.FrameAt(n.inFlight[0]) && n.due <= n.inFlight[0] < n.sent && t.Has(n.inFlight[0])
  {
  }

  /// On a lossless link a receiver at work is sent the frame it waits for.
  lemma ReceivingTheDue(t: Transfer, n: Net)
    requires WindowInv(t, n, true) && n.toR != [] && n.due > 0 && Alive(n.r)
    ensures n.r.phase.Receiving? && n.toR[0] == t.FrameAt(n.due) && n.due == n.inFlight[0] < n.sent && n.granted > 0
    ensures n.r.cfg == t.back && n.r.Valid() && n.r.sequence == n.due % 16 && n.r.result.InProgress?
    ensures n.r.expected == |t.message| && n.r.payload == t.message[..t.Offset(n.due)]
  {
    OnlyTheDueFrame(t, n, true, n.inFlight[0]);
    FrameInFlight(t, n);
  }

  lemma OkIsTheEnd(t: Transfer, r: ReceiverState, j: nat, now: nat, after: ReceiverState)
    requires t.Valid() && t.Segmented() && j >= 1 && r.cfg == t.back && r.Valid() && r.phase.Receiving? && r.result.InProgress?
    requires r.sequence == j % 16 && r.expected == |t.message| && r.payload == t.message[..t.Offset(j)]
    requires after == ReceiverOnFrame(r, t.FrameAt(j), now)
    ensures after.result.Ok? ==> t.Offset(j + 1) == |t.message|
  {
    var bytes := ConsecutiveTaken(t, r, j, now);
  }

  lemma CountAccepted(t: Transfer, n: Net, m: Net)
    requires CountInv(t, n) && n.toR != [] && n.due > 0 && Alive(n.r) && m == Step(n, DeliverToReceiver)
    ensures m.due == n.due + 1 && n.granted > 0 && (m.r.result.Ok? ==> n.sent == n.due + 1 && !t.Has(n.sent))
  {
    ReceivingTheDue(t, n);
    OnlyTheReceiver(n, m);
    OkIsTheEnd(t, n.r, n.due, n.now, m.r);
    if m.r.result.Ok? {
      LastFrame(t, n.sent, n.due);
    }
  }

  lemma CountFirst(t: Transfer, n: Net, m: Net)
    requires CountInv(t, n) && n.toR != [] && n.due == 0 && m == Step(n, DeliverToReceiver)
    ensures !m.r.result.Ok?
  {
    OnlyTheReceiver(n, m);
    FrameInFlight(t, n);
    FirstTaken(t, n.r, n.now);
  }

  lemma CountOver(t: Transfer, n: Net, m: Net)
    requires CountInv(t, n) && n.toR != [] && !Alive(n.r) && m == Step(n, DeliverToReceiver)
    ensures m.r == n.r && !m.r.result.Ok?
  {
    OnlyTheReceiver(n, m);
    FrameInFlight(t, n);
  }

  lemma CountedHeard(t: Transfer, n: Net, m: Net)
    requires CountInv(t, n) && n.toR != [] && m == Step(n, DeliverToReceiver)
    ensures Counted(t, m.sent, m.due, m.granted, m.grantAt, m.r.result.Ok?)
  {
    OnlyTheReceiver(n, m);
    if n.due == 0 {
      CountFirst(t, n, m);
    } else if Alive(n.r) {
      CountAccepted(t, n, m);
    } else {
      CountOver(t, n, m);
    }
  }

  lemma CountReceiverHeard(t: Transfer, n: Net, m: Net)
    requires CountInv(t, n) && m == Step(n, DeliverToReceiver)
    ensures CountInv(t, m)
  {
    WindowKept(t, n, DeliverToReceiver, true);
    if n.toR != [] {
      CountedHeard(t, n, m);
    }
  }

  lemma CountSenderPolled(t: Transfer, n: Net, m: Net)
    requires CountInv(t, n) && m == Step(n, PollSender)
    ensures CountInv(t, m)
  {
    WindowKept(t, n, PollSender, true);
    var (s, out) := SenderPoll(n.s, n.now);
    PollSends(t, n.s, n.sent, n.now, s, out);
  }

  lemma CountKept(t: Transfer, n: Net, op: Op)
    requires CountInv(t, n) && !op.LoseToReceiver? && !op.LoseToSender?
    ensures CountInv(t, Step(n, op))
  {
    match op
    case PollSender => CountSenderPolled(t, n, Step(n, op));
    case PollReceiver => CountReceiverPolled(t, n, Step(n, op));
    case DeliverToReceiver => CountReceiverHeard(t, n, Step(n, op));
    case DeliverToSender => WindowKept(t, n, op, true);
    case Elapse(ns) => WindowKept(t, n, op, true);
  }

  /// A segmented transfer that ends Ok has taken one First Frame, as many Consecutive Frames as the rest
  /// of the message fills, and one Flow Control for each block of them.
  lemma CostOfATransfer(t: Transfer, n: Net, ops: seq<Op>)
    requires Begun(t, n) && t.Segmented() && !TooLong(t)
    requires forall i | 0 <= i < |ops| :: !ops[i].LoseToReceiver? && !ops[i].LoseToSender?
    ensures Steps(n, ops).r.result.Ok? ==>
              var m := Steps(n, ops);
              && m.sent == 1 + Consecutives(t)
              && m.granted == if t.back.blockSize == 0 then 1 else (Consecutives(t) + t.back.blockSize - 1) / t.back.blockSize
  {
    var inv := (x: Net) => CountInv(t, x);
    var allowed := (op: Op) => !op.LoseToReceiver? && !op.LoseToSender?;
    forall x: Net, op: Op | x.Sound() && inv(x) && allowed(op)
      ensures inv(Step(x, op))
    {
      CountKept(t, x, op);
    }
    WindowAtStart(t, n, true);
    RunInvariant(inv, allowed, n, ops);
    if Steps(n, ops).r.result.Ok? {
      CountAtOk(t, Steps(n, ops));
    }
  }

  lemma CountAtOk(t: Transfer, m: Net)
    requires CountInv(t, m) && m.r.result.Ok?
    ensures m.sent == 1 + Consecutives(t)
    ensures m.granted == if t.back.blockSize == 0 then 1 else (Consecutives(t) + t.back.blockSize - 1) / t.back.blockSize
  {
    FrameCount(t, m.sent);
    FrameCount(t, m.sent - 1);
    if t.back.blockSize > 0 {
      BlocksFormula(Consecutives(t), t.back.blockSize);
      assert AfterBlock(Consecutives(t) + 1 - m.grantAt, t.back.blockSize) == 0;
    }
  }
}
