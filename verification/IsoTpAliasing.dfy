/// Sixteen frames further on the sequence number is the same: with long blocks a lossy link can put bytes in
/// the wrong place, and exactly when.
module IsoTpAliasing {
  import opened Bits
  import opened IsoTp
  import opened IsoTpFrames
  import opened IsoTpLink
  import opened IsoTpCount
  import opened IsoTpWindow

  lemma {:induction false} StepsSnoc(n: Net, ops: seq<Op>, op: Op)
    requires n.Sound()
    ensures Steps(n, ops + [op]) == Step(Steps(n, ops), op)
    decreases |ops|
  {
    if ops == [] {
      assert (ops + [op])[1..] == [];
    } else {
      assert (ops + [op])[1..] == ops[1..] + [op];
      StepsSnoc(Step(n, ops[0]), ops[1..], op);
    }
  }

  lemma ThreeSteps(n: Net, ops: seq<Op>, m: Net, x: Op, y: Op, z: Op)
    requires n.Sound() && m == Steps(n, ops)
    ensures Steps(n, ops + [x] + [y] + [z]) == Step(Step(Step(m, x), y), z)
  {
    StepsSnoc(n, ops, x);
    StepsSnoc(n, ops + [x], y);
    StepsSnoc(n, ops + [x] + [y], z);
  }

  // ---- The start of a block ----

  /// The First Frame is in and the Flow Control out; of the Consecutive Frames before `j` none has arrived, and
  /// frame `j` may go.
  ghost predicate Dropping(t: Transfer, n: Net, j: nat) {
    && LossyInv(t, n) && n.toR == [] && n.sent == j
    && n.s.phase.SendingConsecutive? && n.now >= n.s.nextSend && n.s.blockSize == t.back.blockSize && n.s.framesInBlock + 1 == j
    && n.r.phase.Receiving? && n.r.sequence == 1 && n.r.expected == |t.message| && n.r.payload == t.message[..t.Offset(1)]
  }

  /// The First Frame has been sent and received.
  ghost predicate Asked(t: Transfer, n: Net) {
    && LossyInv(t, n) && n.toR == [] && n.toS == [] && n.sent == 1 && n.s.phase.WaitingFlowControl? && n.s.result.InProgress?
    && n.r.phase.SendFlowControl? && n.r.pending.ContinueToSend? && n.r.sequence == 1 && n.r.expected == |t.message|
    && n.r.payload == t.message[..t.Offset(1)]
  }

  lemma Asks(t: Transfer, n: Net, a: Net, b: Net)
    requires Begun(t, n) && t.Segmented() && !TooLong(t) && a == Step(n, PollSender) && b == Step(a, DeliverToReceiver)
    ensures Asked(t, b)
  {
    LossyKept(t, n, PollSender);
    LossyKept(t, a, DeliverToReceiver);
    FirstSent(t, n.s, n.now);
    assert a.toR == [t.FrameAt(0)];
    FirstTaken(t, a.r, a.now);
  }

  /// The receiver's delay has passed and its Flow Control is sent.
  lemma Grants(t: Transfer, n: Net, a: Net, b: Net)
    requires Asked(t, n) && a == Step(n, Elapse(n.r.fcDue)) && b == Step(a, PollReceiver)
    ensures LossyInv(t, b) && b.s == n.s && b.toR == [] && b.toS == [MakeFlowControl(t.back, ContinueToSend)] && b.sent == 1
    ensures b.r.phase.Receiving? && b.r.sequence == 1 && b.r.expected == |t.message| && b.r.payload == t.message[..t.Offset(1)]
  {
    LossyKept(t, n, Elapse(n.r.fcDue));
    LossyKept(t, a, PollReceiver);
  }

  /// It arrives, and the sender's delay passes.
  lemma Starts(t: Transfer, n: Net, a: Net, b: Net)
    requires LossyInv(t, n) && n.s.phase.WaitingFlowControl? && n.s.result.InProgress? && n.toR == []
    requires n.toS == [MakeFlowControl(t.back, ContinueToSend)] && n.sent == 1
    requires n.r.phase.Receiving? && n.r.sequence == 1 && n.r.expected == |t.message| && n.r.payload == t.message[..t.Offset(1)]
    requires a == Step(n, DeliverToSender) && b == Step(a, Elapse(t.out.nCs))
    ensures Dropping(t, b, 1)
  {
    LossyKept(t, n, DeliverToSender);
    LossyKept(t, a, Elapse(t.out.nCs));
    FlowControlTaken(t, n.s, false, n.now);
  }

  lemma BlockOpens(t: Transfer, n: Net) returns (ops: seq<Op>)
    requires Begun(t, n) && t.Segmented() && !TooLong(t)
    ensures Dropping(t, Steps(n, ops), 1)
  {
    var a := Step(n, PollSender);
    var b := Step(a, DeliverToReceiver);
    Asks(t, n, a, b);
    var c := Step(b, Elapse(b.r.fcDue));
    var d := Step(c, PollReceiver);
    Grants(t, b, c, d);
    var e := Step(d, DeliverToSender);
    Starts(t, d, e, Step(e, Elapse(t.out.nCs)));
    var none: seq<Op> := [];
    ThreeSteps(n, none, n, PollSender, DeliverToReceiver, Elapse(b.r.fcDue));
    ops := none + [PollSender] + [DeliverToReceiver] + [Elapse(b.r.fcDue)];
    ThreeSteps(n, ops, c, PollReceiver, DeliverToSender, Elapse(t.out.nCs));
    ops := ops + [PollReceiver] + [DeliverToSender] + [Elapse(t.out.nCs)];
  }

  // ---- Losing sixteen frames ----

  lemma SendsOne(t: Transfer, n: Net, j: nat, a: Net)
    requires Dropping(t, n, j) && 1 <= j <= 16 && t.Has(j + 1) && (t.back.blockSize == 0 || t.back.blockSize > 16)
    requires a == Step(n, PollSender)
    ensures LossyInv(t, a) && |a.toR| == 1 && a.sent == j + 1 && a.r == n.r && a.now == n.now
    ensures a.s.phase.SendingConsecutive? && a.s.blockSize == t.back.blockSize && a.s.framesInBlock == j
    ensures a.s.nextSend == n.now + n.s.stMin
  {
    LossyKept(t, n, PollSender);
    NextOnLink(t, n, a);
  }

  lemma LosesOne(t: Transfer, a: Net, b: Net, c: Net, ns: nat)
    requires LossyInv(t, a) && |a.toR| == 1 && b == Step(a, LoseToReceiver(0)) && c == Step(b, Elapse(ns))
    ensures LossyInv(t, c) && c.toR == [] && c.sent == a.sent && c.s == a.s && c.r == a.r && c.now == a.now + ns
  {
    LossyKept(t, a, LoseToReceiver(0));
    LossyKept(t, b, Elapse(ns));
  }

  lemma Drops(t: Transfer, n: Net, j: nat, a: Net, b: Net, c: Net)
    requires Dropping(t, n, j) && 1 <= j <= 16 && t.Has(j + 1) && (t.back.blockSize == 0 || t.back.blockSize > 16)
    requires a == Step(n, PollSender) && b == Step(a, LoseToReceiver(0)) && c == Step(b, Elapse(n.s.stMin))
    ensures Dropping(t, c, j + 1)
  {
    SendsOne(t, n, j, a);
    LosesOne(t, a, b, c, n.s.stMin);
  }

  lemma OneMoreLost(t: Transfer, n: Net, ops: seq<Op>, j: nat) returns (more: seq<Op>)
    requires n.Sound() && Dropping(t, Steps(n, ops), j) && 1 <= j <= 16 && !ToldApart(t)
    ensures Dropping(t, Steps(n, more), j + 1)
  {
    FrameCount(t, j + 1);
    var m := Steps(n, ops);
    var ns, a := m.s.stMin, Step(m, PollSender);
    var b := Step(a, LoseToReceiver(0));
    Drops(t, m, j, a, b, Step(b, Elapse(ns)));
    ThreeSteps(n, ops, m, PollSender, LoseToReceiver(0), Elapse(ns));
    more := ops + [PollSender] + [LoseToReceiver(0)] + [Elapse(ns)];
  }

  lemma {:induction false} ManyLost(t: Transfer, n: Net, j: nat) returns (ops: seq<Op>)
    requires Begun(t, n) && t.Segmented() && !TooLong(t) && !ToldApart(t) && 1 <= j <= 17
    ensures Dropping(t, Steps(n, ops), j)
  {
    if j == 1 {
      ops := BlockOpens(t, n);
    } else {
      var fewer := ManyLost(t, n, j - 1);
      ops := OneMoreLost(t, n, fewer, j - 1);
    }
  }

  /// What the receiver makes of the seventeenth frame.
  lemma WrongBytes(t: Transfer, r: ReceiverState, now: nat, after: ReceiverState)
    requires t.Valid() && t.Segmented() && t.Has(17) && r.cfg == t.back && r.Valid() && r.phase.Receiving? && r.sequence == 1
    requires r.expected == |t.message| && r.payload == t.message[..t.Offset(1)] && t.Offset(1) < |t.message|
    requires after == ReceiverOnFrame(r, t.FrameAt(17), now)
    ensures |after.payload| > t.Offset(1) && after.payload[t.Offset(1)] == t.message[t.Offset(17)]
  {
    var bytes := ConsecutiveTaken(t, r, 17, now);
    assert after.payload == r.payload + bytes;
  }

  /// The First Frame and the Flow Control arrive, sixteen Consecutive Frames are lost, and the seventeenth is
  /// taken for the first: its bytes stand where those of the first belong.
  lemma SeventeenthForFirst(t: Transfer, n: Net) returns (ops: seq<Op>)
    requires Begun(t, n) && t.Segmented() && !TooLong(t) && !ToldApart(t)
    ensures t.Offset(1) < t.Offset(17) < |t.message|
    ensures var r := Steps(n, ops).r;
            |r.payload| > t.Offset(1) && r.payload[t.Offset(1)] == t.message[t.Offset(17)]
  {
    FrameCount(t, 17);
    FrameCount(t, 1);
    OffsetsOrdered(t, 2, 17);
    ops := ManyLost(t, n, 17);
    var m := Steps(n, ops);
    var a := Step(m, PollSender);
    var b := Step(a, DeliverToReceiver);
    NextOnLink(t, m, a);
    OnlyTheReceiver(a, b);
    WrongBytes(t, m.r, a.now, b.r);
    StepsSnoc(n, ops, PollSender);
    StepsSnoc(n, ops + [PollSender], DeliverToReceiver);
    ops := ops + [PollSender] + [DeliverToReceiver];
  }

  // ---- Exactly when ----

  /// In every state of every lossy run the receiver holds a prefix of the message.
  ghost predicate AlwaysPrefix(t: Transfer) {
    forall n, ops | Begun(t, n) :: Steps(n, ops).r.payload <= t.message
  }

  /// All zeros but for one byte.
  function Marked(length: nat, at: nat): seq<Byte> {
    seq(length, i => if i == at then 1 else 0)
  }

  function FreshNet(t: Transfer): Net {
    Net(Begin(NewSender(t.out), t.message, 0).0, NewReceiver(t.back), [], [], 0, 0, [], 0, 0, 0, 0, [], {})
  }

  /// A message a receiver takes in segments: whatever its bytes, every lossy run keeps a prefix, exactly when
  /// blocks are of 1 to 16 frames or there are no more than 16 Consecutive Frames in all.
  lemma PrefixExactly(t: Transfer)
    requires t.Valid() && t.Segmented() && !TooLong(t) && t.out.Acceptable()
    ensures (forall message | |message| == |t.message| :: AlwaysPrefix(t.(message := message)))
       <==> 1 <= t.back.blockSize <= 16 || Consecutives(t) <= 16
  {
    if ToldApart(t) {
      forall message | |message| == |t.message|
        ensures AlwaysPrefix(t.(message := message))
      {
        PrefixKept(t.(message := message));
      }
    } else {
      FrameCount(t, 17);
      var u := t.(message := Marked(|t.message|, t.Offset(17)));
      OffsetsByLength(t, u, 1);
      OffsetsByLength(t, u, 17);
      var n := FreshNet(u);
      var ops := SeventeenthForFirst(u, n);
      var payload := Steps(n, ops).r.payload;
      assert payload[u.Offset(1)] != u.message[u.Offset(1)];
      assert !AlwaysPrefix(u);
    }
  }

  lemma PrefixKept(t: Transfer)
    requires ToldApart(t)
    ensures AlwaysPrefix(t)
  {
    forall n, ops | Begun(t, n)
      ensures Steps(n, ops).r.payload <= t.message
    {
      LossyKeepsPrefix(t, n, ops);
    }
  }
}
