/// Whole runs of the virtual medium with its participants kept open: what every run keeps about
/// frames, the wire, and what each receiver sees.
module MediumRuns {
  import opened Frame
  import opened Medium
  import opened Timing
  import opened Arbitration

  // ---- The winner and the wire ----

  /// The heads of the queues of the first `k` nodes that want the bus.
  function Heads(nodes: seq<Node>, k: nat): seq<CanId>
    requires k <= |nodes|
  {
    if k == 0 then [] else Heads(nodes, k - 1) + if Wants(nodes[k - 1]) then [nodes[k - 1].outbox[0].id] else []
  }

  lemma {:induction false} HeadsCovered(nodes: seq<Node>, k: nat, i: nat) returns (p: nat)
    requires i < k <= |nodes| && Wants(nodes[i])
    ensures p < |Heads(nodes, k)| && Heads(nodes, k)[p] == nodes[i].outbox[0].id
  {
    if i == k - 1 {
      p := |Heads(nodes, k - 1)|;
    } else {
      p := HeadsCovered(nodes, k - 1, i);
    }
  }

  lemma {:induction false} HeadsWant(nodes: seq<Node>, k: nat, p: nat) returns (i: nat)
    requires k <= |nodes| && p < |Heads(nodes, k)|
    ensures i < k && Wants(nodes[i]) && Heads(nodes, k)[p] == nodes[i].outbox[0].id
  {
    if p < |Heads(nodes, k - 1)| {
      i := HeadsWant(nodes, k - 1, p);
    } else {
      i := k - 1;
    }
  }

  /// The participant that `start_transmission` picks is one that wired-AND arbitration over the bits
  /// of all the contending identifiers leaves in, and only its identifier is left.
  lemma WinnerSurvives(nodes: seq<Node>, w: nat) returns (p: nat)
    requires w == TheWinner(nodes)
    ensures var ids := Heads(nodes, |nodes|);
            p < |ids| && ids[p] == nodes[w].outbox[0].id && Active(ids, FIELD_BITS, p)
            && forall q | 0 <= q < |ids| && Active(ids, FIELD_BITS, q) :: ids[q] == ids[p]
  {
    var ids := Heads(nodes, |nodes|);
    p := HeadsCovered(nodes, |nodes|, w);
    WinnerIsLowest(nodes, |nodes|);
    forall q | 0 <= q < |ids|
      ensures ids[p].ArbitrationKey() <= ids[q].ArbitrationKey()
    {
      var i := HeadsWant(nodes, |nodes|, q);
    }
    LowestKeySurvives(ids, p, p);
    forall q | 0 <= q < |ids| && Active(ids, FIELD_BITS, q)
      ensures ids[q] == ids[p]
    {
      LowestKeySurvives(ids, p, q);
    }
  }

  // ---- Sequences with gaps ----

  /// `part` is `whole` with some elements left out.
  predicate Subsequence<T(==)>(part: seq<T>, whole: seq<T>) {
    if whole == [] then part == []
    else
      Subsequence(part, whole[..|whole| - 1])
      || (part != [] && part[|part| - 1] == whole[|whole| - 1] && Subsequence(part[..|part| - 1], whole[..|whole| - 1]))
  }

  lemma SkipOne<T>(part: seq<T>, whole: seq<T>, x: T)
    requires Subsequence(part, whole)
    ensures Subsequence(part, whole + [x])
  {
    assert (whole + [x])[..|whole|] == whole;
  }

  lemma KeepOne<T>(part: seq<T>, whole: seq<T>, x: T)
    requires Subsequence(part, whole)
    ensures Subsequence(part + [x], whole + [x])
  {
    assert (whole + [x])[..|whole|] == whole && (part + [x])[..|part|] == part;
  }

  /// A subsequence is no longer than the whole, and the whole when as long.
  lemma {:induction false} NothingLeftOut<T>(part: seq<T>, whole: seq<T>)
    requires Subsequence(part, whole)
    ensures |part| <= |whole| && (|part| == |whole| ==> part == whole)
    decreases |whole|
  {
    if whole != [] {
      var shorter := whole[..|whole| - 1];
      if Subsequence(part, shorter) {
        NothingLeftOut(part, shorter);
      }
      if part != [] && Subsequence(part[..|part| - 1], shorter) {
        NothingLeftOut(part[..|part| - 1], shorter);
      }
    }
  }

  // ---- What the wire says ----

  /// The frames node `i` has put on the wire.
  function SentBy(wire: seq<Transmission>, i: nat): seq<Frame> {
    if wire == [] then []
    else
      var x := wire[|wire| - 1];
      SentBy(wire[..|wire| - 1], i) + if x.sender == i then [x.frame] else []
  }

  predicate Reaches(x: Transmission, i: nat, filters: seq<Filter>, loopback: bool) {
    (x.sender != i || loopback) && AcceptedBy(filters, x.frame.id)
  }

  /// What node `i` would receive with unlimited room: the completed transmissions in their order on
  /// the wire, less its own without loopback and those its filters refuse.
  function Visible(done: seq<Transmission>, i: nat, filters: seq<Filter>, loopback: bool): seq<Frame> {
    if done == [] then []
    else
      var x := done[|done| - 1];
      Visible(done[..|done| - 1], i, filters, loopback) + if Reaches(x, i, filters, loopback) then [x.Received()] else []
  }

  /// One frame after the other, none overlapping.
  ghost predicate OneAtATime(wire: seq<Transmission>) {
    (forall k | 0 <= k < |wire| :: wire[k].start <= wire[k].end)
    && forall k | 1 <= k < |wire| :: wire[k - 1].end <= wire[k].start
  }

  function Done(m: Medium): seq<Transmission> {
    if m.flight.InFlight? && m.wire != [] then m.wire[..|m.wire| - 1] else m.wire
  }

  // ---- Runs ----

  /// A medium with what has been asked of it: the frames each `send` accepted, and the frames each
  /// `receive` returned.
  datatype Run = Run(m: Medium, accepted: seq<seq<Frame>>, taken: seq<seq<Frame>>)

  datatype Op =
    | DoSend(node: nat, frame: Frame)
    | DoReceive(node: nat, timeout: int)
    | DoAdvance(step: int)
    | DoDrain(maxFrames: nat)

  ghost function Step(r: Run, op: Op): Run {
    match op
    case DoSend(i, f) =>
      if i < |r.m.nodes| && i < |r.accepted| && SendOutcome(r.m, i, f) == Sent then
        Run(Send(r.m, i, f), r.accepted[i := r.accepted[i] + [f]], r.taken)
      else if i < |r.m.nodes| then r.(m := Send(r.m, i, f)) else r
    case DoReceive(i, timeout) =>
      if i >= |r.m.nodes| then r
      else
        var m := BeforeReceive(r.m, i, timeout);
        if i < |m.nodes| && i < |r.taken| && ReceiveOutcome(m, i).Got? then
          Run(Pop(m, i), r.accepted, r.taken[i := r.taken[i] + [m.nodes[i].inbox[0]]])
        else r.(m := m)
    case DoAdvance(step) => r.(m := Advance(r.m, step))
    case DoDrain(maxFrames) => r.(m := Drain(r.m, maxFrames))
  }

  ghost function Steps(r: Run, ops: seq<Op>): Run
    decreases |ops|
  {
    if ops == [] then r else Steps(Step(r, ops[0]), ops[1..])
  }

  // ---- What every run keeps ----

  /// What holds of node `n`, number `i`, given what is and has been on the wire.
  ghost predicate NodeGood(n: Node, i: nat, wire: seq<Transmission>, done: seq<Transmission>, loopback: bool,
                           accepted: seq<Frame>, taken: seq<Frame>) {
    && n.open
    // every accepted frame is queued or on the wire, once, and in the order it was accepted
    && accepted == SentBy(wire, i) + n.outbox
    && n.stats.framesSent == |SentBy(wire, i)|
    // what was received is the wire's order, less what the counters say was dropped
    && Subsequence(taken + n.inbox, Visible(done, i, n.filters, loopback))
    && |taken + n.inbox| + n.stats.dropped == |Visible(done, i, n.filters, loopback)|
    && n.stats.framesReceived == |taken + n.inbox| && n.stats.receiveErrors == n.stats.dropped
  }

  ghost predicate NodesGood(m: Medium, accepted: seq<seq<Frame>>, taken: seq<seq<Frame>>) {
    && |accepted| == |m.nodes| == |taken|
    && forall i: nat | i < |m.nodes| :: NodeGood(m.nodes[i], i, m.wire, Done(m), m.loopback, accepted[i], taken[i])
  }

  ghost predicate WireGood(m: Medium) {
    && OneAtATime(m.wire)
    && (forall k | 0 <= k < |m.wire| :: m.wire[k].sender < |m.nodes|)
    && match m.flight
       case Idle => m.wire != [] ==> m.wire[|m.wire| - 1].end <= m.now
       case InFlight(f, s) =>
         m.wire != [] && (var x := m.wire[|m.wire| - 1];
                          x.sender == s && f == x.Received() && x.end == m.busyUntil && x.start <= m.now <= x.end)
  }

  /// Every recorded arbitration was won by the lowest key.
  ghost predicate LogGood(m: Medium) {
    forall k | 0 <= k < |m.log| :: forall id | id in m.log[k].losers ::
        m.log[k].winner.ArbitrationKey() <= id.ArbitrationKey()
  }

  ghost predicate MediumGood(m: Medium, accepted: seq<seq<Frame>>, taken: seq<seq<Frame>>) {
    NodesGood(m, accepted, taken) && WireGood(m) && LogGood(m)
  }

  ghost predicate Good(r: Run) {
    MediumGood(r.m, r.accepted, r.taken)
  }

  /// Open participants, nothing queued, sent or received yet.
  ghost predicate Fresh(r: Run) {
    && r.m.flight.Idle? && r.m.wire == [] && r.m.log == []
    && r.accepted == seq(|r.m.nodes|, _ => []) && r.taken == seq(|r.m.nodes|, _ => [])
    && forall i | 0 <= i < |r.m.nodes| ::
         r.m.nodes[i].open && r.m.nodes[i].outbox == [] && r.m.nodes[i].inbox == [] && r.m.nodes[i].stats == NO_STATS
  }

  lemma FreshIsGood(r: Run)
    requires Fresh(r)
    ensures Good(r)
  {
  }

  // ---- Sending, receiving, and the clock ----

  /// Changing one participant for the good.
  lemma OneChanged(r: Run, s: Run, i: nat, n: Node, accepted: seq<Frame>, taken: seq<Frame>)
    requires Good(r) && i < |r.m.nodes| && s.m == r.m.(nodes := r.m.nodes[i := n])
    requires s.accepted == r.accepted[i := accepted] && s.taken == r.taken[i := taken]
    requires NodeGood(n, i, r.m.wire, Done(r.m), r.m.loopback, accepted, taken)
    ensures Good(s)
  {
    assert Done(s.m) == Done(r.m);
  }

  lemma SentKeeps(r: Run, i: nat, f: Frame)
    requires Good(r) && i < |r.m.nodes| && SendOutcome(r.m, i, f).Sent?
    ensures Good(Step(r, DoSend(i, f)))
  {
    var n, a, t := r.m.nodes[i], r.accepted[i], r.taken[i];
    assert r.taken == r.taken[i := t];
    assert SentBy(r.m.wire, i) + (n.outbox + [f]) == a + [f];
    OneChanged(r, Step(r, DoSend(i, f)), i, n.(outbox := n.outbox + [f]), a + [f], t);
  }

  lemma OverflowKeeps(r: Run, i: nat, f: Frame)
    requires Good(r) && i < |r.m.nodes| && SendOutcome(r.m, i, f).Overflow?
    ensures Good(Step(r, DoSend(i, f)))
  {
    var n, a, t := r.m.nodes[i], r.accepted[i], r.taken[i];
    assert r.accepted == r.accepted[i := a] && r.taken == r.taken[i := t];
    OneChanged(r, Step(r, DoSend(i, f)), i, n.(stats := n.stats.(sendErrors := n.stats.sendErrors + 1)), a, t);
  }

  lemma SendKeeps(r: Run, i: nat, f: Frame)
    requires Good(r) && i < |r.m.nodes|
    ensures Good(Step(r, DoSend(i, f)))
  {
    match SendOutcome(r.m, i, f)
    case Sent => SentKeeps(r, i, f);
    case Overflow => OverflowKeeps(r, i, f);
    case _ =>
  }

  lemma PopKeeps(m: Medium, accepted: seq<seq<Frame>>, taken: seq<seq<Frame>>, i: nat)
    requires MediumGood(m, accepted, taken) && i < |m.nodes| && ReceiveOutcome(m, i).Got?
    ensures MediumGood(Pop(m, i), accepted, taken[i := taken[i] + [m.nodes[i].inbox[0]]])
  {
    var n := m.nodes[i];
    var t := taken[i] + [n.inbox[0]];
    assert t + n.inbox[1..] == taken[i] + n.inbox;
    assert accepted == accepted[i := accepted[i]];
    OneChanged(Run(m, accepted, taken), Run(Pop(m, i), accepted, taken[i := t]), i, n.(inbox := n.inbox[1..]), accepted[i], t);
  }

  /// Time may pass up to the end of the frame in flight.
  lemma ClockKeeps(m: Medium, accepted: seq<seq<Frame>>, taken: seq<seq<Frame>>, t: nat)
    requires MediumGood(m, accepted, taken) && t >= m.now
    requires m.flight.InFlight? ==> t <= m.busyUntil
    ensures MediumGood(m.(now := t), accepted, taken)
  {
    var s := m.(now := t);
    assert Done(s) == Done(m);
    forall j: nat | j < |s.nodes|
      ensures NodeGood(s.nodes[j], j, s.wire, Done(s), s.loopback, accepted[j], taken[j])
    {
    }
  }

  // ---- Starting and completing a transmission ----

  lemma SentBySnoc(wire: seq<Transmission>, x: Transmission, i: nat)
    ensures SentBy(wire + [x], i) == SentBy(wire, i) + if x.sender == i then [x.frame] else []
  {
    assert (wire + [x])[..|wire|] == wire;
  }

  lemma VisibleSnoc(done: seq<Transmission>, x: Transmission, i: nat, filters: seq<Filter>, loopback: bool)
    ensures Visible(done + [x], i, filters, loopback)
         == Visible(done, i, filters, loopback) + if Reaches(x, i, filters, loopback) then [x.Received()] else []
  {
    assert (done + [x])[..|done|] == done;
  }

  lemma {:induction false} LosersWant(nodes: seq<Node>, w: int, k: nat, id: CanId) returns (i: nat)
    requires k <= |nodes| && id in Losers(nodes, w, k)
    ensures i < k && Wants(nodes[i]) && nodes[i].outbox[0].id == id
  {
    if k - 1 != w && Wants(nodes[k - 1]) && nodes[k - 1].outbox[0].id == id {
      i := k - 1;
    } else {
      i := LosersWant(nodes, w, k - 1, id);
    }
  }

  lemma StartKeepsLog(m: Medium)
    requires LogGood(m)
    ensures LogGood(Start(m))
  {
    var w := TheWinner(m.nodes);
    if m.flight.Idle? && w != -1 {
      var losers := Losers(m.nodes, w, |m.nodes|);
      WinnerIsLowest(m.nodes, |m.nodes|);
      forall id | id in losers
        ensures m.nodes[w].outbox[0].id.ArbitrationKey() <= id.ArbitrationKey()
      {
        var i := LosersWant(m.nodes, w, |m.nodes|, id);
      }
    }
  }

  lemma StartedNode(n: Node, i: nat, wire: seq<Transmission>, done: seq<Transmission>, loopback: bool, accepted: seq<Frame>,
                    taken: seq<Frame>, x: Transmission, t: FrameTiming)
    requires NodeGood(n, i, wire, done, loopback, accepted, taken) && (x.sender == i ==> n.outbox != [] && x.frame == n.outbox[0])
    ensures NodeGood(if x.sender == i then AfterWin(n, t, x.start, x.end) else AfterLoss(n), i, wire + [x], done, loopback,
                     accepted, taken)
  {
    SentBySnoc(wire, x, i);
    var sent := SentBy(wire, i);
    if x.sender == i {
      HeadMoves(sent, n.outbox);
    } else {
      assert sent + [] == sent;
    }
  }

  lemma HeadMoves<T>(sent: seq<T>, queue: seq<T>)
    requires queue != []
    ensures sent + queue == sent + [queue[0]] + queue[1..]
  {
  }

  lemma StartKeeps(m: Medium, accepted: seq<seq<Frame>>, taken: seq<seq<Frame>>)
    requires MediumGood(m, accepted, taken)
    ensures MediumGood(Start(m), accepted, taken)
  {
    var s, w := Start(m), TheWinner(m.nodes);
    if m.flight.Idle? && w != -1 {
      StartKeepsLog(m);
      StartKeepsWire(m, s, w);
      StartKeepsNodes(m, s, w, accepted, taken);
    } else {
      assert s == m;
    }
  }

  lemma StartKeepsWire(m: Medium, s: Medium, w: nat)
    requires WireGood(m) && m.flight.Idle? && w == TheWinner(m.nodes) && s == Start(m)
    ensures WireGood(s)
  {
    var x := s.wire[|m.wire|];
    assert s.wire == m.wire + [x];
  }

  lemma StartKeepsNodes(m: Medium, s: Medium, w: nat, accepted: seq<seq<Frame>>, taken: seq<seq<Frame>>)
    requires NodesGood(m, accepted, taken) && m.flight.Idle? && w == TheWinner(m.nodes) && s == Start(m)
    ensures NodesGood(s, accepted, taken)
  {
    var x := s.wire[|m.wire|];
    assert s.wire == m.wire + [x] && Done(s) == m.wire == Done(m);
    var t := TimingOf(x.frame, m.timing);
    forall i: nat | i < |s.nodes|
      ensures NodeGood(s.nodes[i], i, s.wire, Done(s), s.loopback, accepted[i], taken[i])
    {
      StartedNode(m.nodes[i], i, m.wire, Done(m), m.loopback, accepted[i], taken[i], x, t);
    }
  }

  lemma DeliveredNode(n: Node, i: nat, wire: seq<Transmission>, done: seq<Transmission>, loopback: bool, accepted: seq<Frame>,
                      taken: seq<Frame>, x: Transmission, rxLimit: nat)
    requires NodeGood(n, i, wire, done, loopback, accepted, taken)
    ensures NodeGood(AfterDelivery(n, i, x.Received(), x.sender, loopback, rxLimit), i, wire, done + [x], loopback, accepted, taken)
  {
    var before, got := Visible(done, i, n.filters, loopback), taken + n.inbox;
    VisibleSnoc(done, x, i, n.filters, loopback);
    if Reaches(x, i, n.filters, loopback) {
      SkipOne(got, before, x.Received());
      KeepOne(got, before, x.Received());
      assert taken + (n.inbox + [x.Received()]) == got + [x.Received()];
    } else {
      assert before + [] == before;
    }
  }

  lemma CompleteKeeps(m: Medium, accepted: seq<seq<Frame>>, taken: seq<seq<Frame>>)
    requires MediumGood(m, accepted, taken) && (m.flight.InFlight? ==> m.busyUntil <= m.now)
    ensures MediumGood(Complete(m), accepted, taken)
  {
    if m.flight.InFlight? {
      CompleteKeepsNodes(m, Complete(m), accepted, taken);
    } else {
      assert Complete(m) == m;
    }
  }

  lemma CompleteKeepsNodes(m: Medium, s: Medium, accepted: seq<seq<Frame>>, taken: seq<seq<Frame>>)
    requires NodesGood(m, accepted, taken) && WireGood(m) && m.flight.InFlight? && s == Complete(m)
    ensures NodesGood(s, accepted, taken)
  {
    var x := m.wire[|m.wire| - 1];
    assert Done(s) == m.wire == Done(m) + [x];
    forall i: nat | i < |s.nodes|
      ensures NodeGood(s.nodes[i], i, s.wire, Done(s), s.loopback, accepted[i], taken[i])
    {
      DeliveredNode(m.nodes[i], i, m.wire, Done(m), m.loopback, accepted[i], taken[i], x, m.rxLimit);
    }
  }

  // ---- The loops ----

  lemma SettleKeeps(m: Medium, accepted: seq<seq<Frame>>, taken: seq<seq<Frame>>)
    requires MediumGood(m, accepted, taken)
    ensures MediumGood(Settle(m), accepted, taken)
  {
    if m.flight.InFlight? && m.busyUntil <= m.now {
      CompleteKeeps(m, accepted, taken);
      StartKeeps(Complete(m), accepted, taken);
    } else {
      StartKeeps(m, accepted, taken);
    }
  }

  lemma {:induction false} RunKeeps(m: Medium, accepted: seq<seq<Frame>>, taken: seq<seq<Frame>>, target: nat)
    requires MediumGood(m, accepted, taken) && m.now <= target
    ensures MediumGood(RunTo(m, target), accepted, taken)
    decreases Work(m)
  {
    var s := Settle(m);
    SettleWork(m);
    SettleKeeps(m, accepted, taken);
    if s.flight.InFlight? && s.busyUntil <= target {
      ClockKeeps(s, accepted, taken, s.busyUntil);
      RunKeeps(s.(now := s.busyUntil), accepted, taken, target);
    } else {
      ClockKeeps(s, accepted, taken, target);
    }
  }

  lemma FinishKeeps(m: Medium, accepted: seq<seq<Frame>>, taken: seq<seq<Frame>>)
    requires MediumGood(m, accepted, taken)
    ensures MediumGood(Finish(m), accepted, taken)
  {
    if m.flight.InFlight? {
      ClockKeeps(m, accepted, taken, m.busyUntil);
      CompleteKeeps(m.(now := m.busyUntil), accepted, taken);
    }
  }

  lemma RoundKeeps(m: Medium, accepted: seq<seq<Frame>>, taken: seq<seq<Frame>>)
    requires MediumGood(m, accepted, taken)
    ensures MediumGood(Round(m), accepted, taken)
  {
    FinishKeeps(m, accepted, taken);
    StartKeeps(Finish(m), accepted, taken);
  }

  lemma DrainKeeps(m: Medium, accepted: seq<seq<Frame>>, taken: seq<seq<Frame>>, maxFrames: nat)
    requires MediumGood(m, accepted, taken)
    ensures MediumGood(Drain(m, maxFrames), accepted, taken)
  {
    var inv := (x: Medium) => MediumGood(x, accepted, taken);
    forall x | inv(x)
      ensures inv(Round(x)) && inv(Finish(x))
    {
      RoundKeeps(x, accepted, taken);
      FinishKeeps(x, accepted, taken);
    }
    DrainInvariant(inv, m, maxFrames);
  }

  lemma AdvanceTarget(m: Medium, step: int, t: nat)
    requires t == m.now + if step < 0 then 0 else step
    ensures Advance(m, step) == RunTo(m, t)
  {
  }

  lemma AdvanceKeeps(m: Medium, accepted: seq<seq<Frame>>, taken: seq<seq<Frame>>, step: int)
    requires MediumGood(m, accepted, taken)
    ensures MediumGood(Advance(m, step), accepted, taken)
  {
    var t := m.now + if step < 0 then 0 else step;
    RunKeeps(m, accepted, taken, t);
    AdvanceTarget(m, step, t);
  }

  lemma ReceiveKeeps(r: Run, i: nat, timeout: int)
    requires Good(r)
    ensures Good(Step(r, DoReceive(i, timeout)))
  {
    if i < |r.m.nodes| {
      var m := BeforeReceive(r.m, i, timeout);
      AdvanceKeeps(r.m, r.accepted, r.taken, timeout);
      if i < |m.nodes| && ReceiveOutcome(m, i).Got? {
        PopKeeps(m, r.accepted, r.taken, i);
      }
    }
  }

  lemma StepKeeps(r: Run, op: Op)
    requires Good(r)
    ensures Good(Step(r, op))
  {
    match op
    case DoSend(i, f) =>
      if i < |r.m.nodes| {
        SendKeeps(r, i, f);
      }
    case DoReceive(i, timeout) => ReceiveKeeps(r, i, timeout);
    case DoAdvance(step) => AdvanceKeeps(r.m, r.accepted, r.taken, step);
    case DoDrain(maxFrames) => DrainKeeps(r.m, r.accepted, r.taken, maxFrames);
  }

  /// Every state of every run is good.
  lemma {:induction false} EveryRun(r: Run, ops: seq<Op>)
    requires Good(r)
    ensures Good(Steps(r, ops))
    decreases |ops|
  {
    if ops != [] {
      StepKeeps(r, ops[0]);
      EveryRun(Step(r, ops[0]), ops[1..]);
    }
  }

  /// From fresh participants: each accepted frame is queued or has had its one turn on the wire, the
  /// wire carries one frame at a time, and a receiver that has dropped nothing has seen exactly what
  /// its filters let through, in the wire's order.
  lemma RunsConserve(r: Run, ops: seq<Op>, i: nat)
    requires Fresh(r) && i < |Steps(r, ops).m.nodes|
    ensures var s := Steps(r, ops);
            && |s.accepted| == |s.taken| == |s.m.nodes| && OneAtATime(s.m.wire)
            && s.accepted[i] == SentBy(s.m.wire, i) + s.m.nodes[i].outbox
            && (var n, all := s.m.nodes[i], Visible(Done(s.m), i, s.m.nodes[i].filters, s.m.loopback);
                Subsequence(s.taken[i] + n.inbox, all)
                && n.stats.dropped == |all| - |s.taken[i] + n.inbox|
                && (n.stats.dropped == 0 ==> s.taken[i] + n.inbox == all))
  {
    FreshIsGood(r);
    EveryRun(r, ops);
    var s := Steps(r, ops);
    assert NodeGood(s.m.nodes[i], i, s.m.wire, Done(s.m), s.m.loopback, s.accepted[i], s.taken[i]);
    NothingLeftOut(s.taken[i] + s.m.nodes[i].inbox, Visible(Done(s.m), i, s.m.nodes[i].filters, s.m.loopback));
  }
}
