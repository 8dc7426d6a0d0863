/// The virtual CAN medium of transport/src/VirtualBus.cpp as a state machine on values: arbitration,
/// transmission, delivery and virtual time.
module Medium {
  import opened Frame
  import opened Timing

  datatype Stats = Stats(framesSent: nat, framesReceived: nat, bytesSent: nat, bytesReceived: nat, sendErrors: nat,
                         receiveErrors: nat, errorFrames: nat, arbitrationLosses: nat, dropped: nat, wireBits: nat,
                         first: nat, last: nat)

  const NO_STATS := Stats(0, 0, 0, 0, 0, 0, 0, 0, 0, 0, 0, 0)

  /// A participant.
  datatype Node = Node(name: string, open: bool, filters: seq<Filter>, outbox: seq<Frame>, inbox: seq<Frame>, stats: Stats)

  datatype ArbitrationEvent = ArbitrationEvent(at: nat, winner: CanId, winnerName: string, losers: seq<CanId>)

  datatype Flight = Idle | InFlight(frame: Frame, sender: nat)

  /// One use of the wire: the frame as it was queued, who sent it, and when it started and ended.
  datatype Transmission = Transmission(frame: Frame, sender: nat, start: nat, end: nat) {
    /// What a receiver gets: stamped with the end of the frame.
    function Received(): Frame {
      frame.(timestamp := end)
    }
  }

  /// `wire` is the history of the medium: every transmission begun so far. Nothing depends on it.
  datatype Medium = Medium(timing: BusTiming, now: nat, busyUntil: nat, loopback: bool, flight: Flight, rxLimit: nat,
                           txLimit: nat, nodes: seq<Node>, log: seq<ArbitrationEvent>, wire: seq<Transmission>)

  // ---- Arbitration ----

  /// The node presents the head of its queue.
  predicate Wants(n: Node) {
    n.open && n.outbox != []
  }

  function Key(n: Node): nat
    requires n.outbox != []
  {
    n.outbox[0].id.ArbitrationKey()
  }

  /// The first of the first `k` nodes with the lowest key, or -1.
  function Winner(nodes: seq<Node>, k: nat): (w: int)
    requires k <= |nodes|
    ensures -1 <= w < k && (w >= 0 ==> Wants(nodes[w]))
  {
    if k == 0 then -1
    else
      var w := Winner(nodes, k - 1);
      if Wants(nodes[k - 1]) && (w == -1 || Key(nodes[k - 1]) < Key(nodes[w])) then k - 1 else w
  }

  function TheWinner(nodes: seq<Node>): int {
    Winner(nodes, |nodes|)
  }

  /// The heads of the queues of the first `k` nodes other than `w` that want the bus.
  function Losers(nodes: seq<Node>, w: int, k: nat): seq<CanId>
    requires k <= |nodes|
  {
    if k == 0 then []
    else Losers(nodes, w, k - 1) + if k - 1 != w && Wants(nodes[k - 1]) then [nodes[k - 1].outbox[0].id] else []
  }

  /// How many of the first `k` nodes want the bus.
  function Contenders(nodes: seq<Node>, k: nat): nat
    requires k <= |nodes|
  {
    if k == 0 then 0 else Contenders(nodes, k - 1) + if Wants(nodes[k - 1]) then 1 else 0
  }

  lemma {:induction false} AllButOneLose(nodes: seq<Node>, w: nat, k: nat)
    requires k <= |nodes| && w < |nodes| && Wants(nodes[w])
    ensures Contenders(nodes, k) == |Losers(nodes, w, k)| + if w < k then 1 else 0
  {
    if k > 0 {
      AllButOneLose(nodes, w, k - 1);
    }
  }

  // ---- One transmission ----

  /// The statistics of a node that sends `frame`.
  function Credited(n: Node, frame: Frame, t: FrameTiming, now: nat, end: nat): Node {
    var s := n.stats;
    n.(stats := s.(framesSent := s.framesSent + 1, bytesSent := s.bytesSent + frame.Size(),
                   wireBits := s.wireBits + t.TotalBits(), first := if s.first == 0 then now else s.first, last := end))
  }

  function AfterWin(n: Node, t: FrameTiming, now: nat, end: nat): Node
    requires n.outbox != []
  {
    Credited(n.(outbox := n.outbox[1..]), n.outbox[0], t, now, end)
  }

  /// Losing costs a node nothing but the entry in its statistics.
  function AfterLoss(n: Node): Node {
    if Wants(n) then n.(stats := n.stats.(arbitrationLosses := n.stats.arbitrationLosses + 1)) else n
  }

  /// `start_transmission`.
  function Start(m: Medium): Medium {
    var w := TheWinner(m.nodes);
    if m.flight.InFlight? || w == -1 then m
    else
      var frame := m.nodes[w].outbox[0];
      var t := TimingOf(frame, m.timing);
      var end := m.now + t.nanoseconds;
      var losers := Losers(m.nodes, w, |m.nodes|);
      m.(busyUntil := end,
         flight := InFlight(frame.(timestamp := end), w),
         nodes := seq(|m.nodes|, (i: int) requires 0 <= i < |m.nodes| =>
           if i == w then AfterWin(m.nodes[i], t, m.now, end) else AfterLoss(m.nodes[i])),
         log := if losers == [] then m.log
                else m.log + [ArbitrationEvent(m.now, frame.id, m.nodes[w].name, losers)],
         wire := m.wire + [Transmission(frame, w, m.now, end)])
  }

  /// What `deliver` does to node `i`.
  function AfterDelivery(n: Node, i: nat, frame: Frame, sender: nat, loopback: bool, rxLimit: nat): Node {
    var s := n.stats;
    if i == sender && !loopback then n
    else if !n.open || !AcceptedBy(n.filters, frame.id) then n
    else if |n.inbox| >= rxLimit then n.(stats := s.(dropped := s.dropped + 1, receiveErrors := s.receiveErrors + 1))
    else
      n.(inbox := n.inbox + [frame],
         stats := s.(framesReceived := s.framesReceived + 1, bytesReceived := s.bytesReceived + frame.Size(),
                     errorFrames := s.errorFrames + (if frame.flags.error then 1 else 0),
                     first := if s.first == 0 then frame.timestamp else s.first, last := frame.timestamp))
  }

  /// `complete_transmission`.
  function Complete(m: Medium): Medium {
    if m.flight.Idle? then m
    else
      m.(flight := Idle,
         nodes := seq(|m.nodes|, (i: int) requires 0 <= i < |m.nodes| =>
           AfterDelivery(m.nodes[i], i, m.flight.frame, m.flight.sender, m.loopback, m.rxLimit)))
  }

  // ---- Time ----

  function Queued(nodes: seq<Node>): nat {
    if nodes == [] then 0 else Queued(nodes[..|nodes| - 1]) + |nodes[|nodes| - 1].outbox|
  }

  /// What is left to do: two per queued frame, and a frame in flight has yet to end and to be delivered.
  function Work(m: Medium): nat {
    2 * Queued(m.nodes) + if m.flight.Idle? then 0 else if m.busyUntil <= m.now then 1 else 2
  }

  lemma {:induction false} QueuedSame(a: seq<Node>, b: seq<Node>)
    requires |a| == |b| && forall i | 0 <= i < |a| :: a[i].outbox == b[i].outbox
    ensures Queued(a) == Queued(b)
  {
    if a != [] {
      QueuedSame(a[..|a| - 1], b[..|b| - 1]);
    }
  }

  lemma {:induction false} QueuedLess(a: seq<Node>, b: seq<Node>, w: nat)
    requires |a| == |b| && w < |a| && |a[w].outbox| == |b[w].outbox| + 1
    requires forall i | 0 <= i < |a| && i != w :: a[i].outbox == b[i].outbox
    ensures Queued(a) == Queued(b) + 1
  {
    var n := |a| - 1;
    if w == n {
      QueuedSame(a[..n], b[..n]);
    } else {
      QueuedLess(a[..n], b[..n], w);
    }
  }

  lemma CompleteWork(m: Medium)
    ensures Queued(Complete(m).nodes) == Queued(m.nodes) && |Complete(m).nodes| == |m.nodes|
  {
    QueuedSame(m.nodes, Complete(m).nodes);
  }

  lemma StartWork(m: Medium)
    requires m.flight.Idle?
    ensures Start(m).flight.InFlight? ==> Queued(Start(m).nodes) + 1 == Queued(m.nodes)
    ensures Start(m).flight.Idle? ==> Start(m) == m
  {
    var w := TheWinner(m.nodes);
    if w != -1 {
      QueuedLess(m.nodes, Start(m).nodes, w);
    }
  }

  /// The head of the loop in `advance`: finish what is due, then start if the medium is free.
  function Settle(m: Medium): Medium {
    Start(if m.flight.InFlight? && m.busyUntil <= m.now then Complete(m) else m)
  }

  lemma SettleWork(m: Medium)
    ensures var s := Settle(m); s.flight.InFlight? ==> Work(s.(now := s.busyUntil)) < Work(m)
    ensures Settle(m).now == m.now
  {
    var c := if m.flight.InFlight? && m.busyUntil <= m.now then Complete(m) else m;
    CompleteWork(m);
    if c.flight.Idle? {
      StartWork(c);
    }
  }

  /// The loop of `advance`.
  function RunTo(m: Medium, target: nat): Medium
    decreases Work(m)
  {
    var s := Settle(m);
    SettleWork(m);
    if s.flight.InFlight? && s.busyUntil <= target then RunTo(s.(now := s.busyUntil), target) else s.(now := target)
  }

  function Advance(m: Medium, step: int): Medium {
    RunTo(m, m.now + if step < 0 then 0 else step)
  }

  /// Let the frame in flight end.
  function Finish(m: Medium): Medium {
    if m.flight.Idle? then m else Complete(m.(now := m.busyUntil))
  }

  /// One turn of the loop in `drain`.
  function Round(m: Medium): Medium {
    Start(Finish(m))
  }

  /// `drain`.
  function Drain(m: Medium, maxFrames: nat): Medium
    decreases maxFrames
  {
    if maxFrames == 0 then Finish(m)
    else
      var s := Round(m);
      if s.flight.Idle? then s else Drain(s, maxFrames - 1)
  }

  // ---- Participants ----

  datatype SendResult = Sent | SendNotOpen | Unsupported | Overflow

  function SendOutcome(m: Medium, i: nat, frame: Frame): SendResult
    requires i < |m.nodes|
  {
    if !m.nodes[i].open then SendNotOpen
    else if frame.flags.fd && m.timing.dataBitrate == 0 then Unsupported
    else if |m.nodes[i].outbox| >= m.txLimit then Overflow
    else Sent
  }

  function Send(m: Medium, i: nat, frame: Frame): Medium
    requires i < |m.nodes|
  {
    var n := m.nodes[i];
    match SendOutcome(m, i, frame)
    case Sent => m.(nodes := m.nodes[i := n.(outbox := n.outbox + [frame])])
    case Overflow => m.(nodes := m.nodes[i := n.(stats := n.stats.(sendErrors := n.stats.sendErrors + 1))])
    case _ => m
  }

  /// `receive` lets the medium run when nothing is waiting yet.
  function BeforeReceive(m: Medium, i: nat, timeout: int): (r: Medium)
    requires i < |m.nodes|
  {
    if m.nodes[i].open && m.nodes[i].inbox == [] && timeout > 0 then Advance(m, timeout) else m
  }

  datatype Received = Got(frame: Frame) | ReceiveNotOpen | Timeout

  function ReceiveOutcome(m: Medium, i: nat): Received
    requires i < |m.nodes|
  {
    if !m.nodes[i].open then ReceiveNotOpen else if m.nodes[i].inbox == [] then Timeout else Got(m.nodes[i].inbox[0])
  }

  function Pop(m: Medium, i: nat): Medium
    requires i < |m.nodes|
  {
    if ReceiveOutcome(m, i).Got? then m.(nodes := m.nodes[i := m.nodes[i].(inbox := m.nodes[i].inbox[1..])]) else m
  }

  // ---- The winner, and how time composes ----

  /// The winner is the first of those with the lowest key; there is none only if nobody wants the bus.
  lemma {:induction false} WinnerIsLowest(nodes: seq<Node>, k: nat)
    requires k <= |nodes|
    ensures Winner(nodes, k) == -1 ==> forall i | 0 <= i < k :: !Wants(nodes[i])
    ensures Winner(nodes, k) >= 0 ==> forall i | 0 <= i < k && Wants(nodes[i]) ::
              Key(nodes[Winner(nodes, k)]) <= Key(nodes[i])
              && (i < Winner(nodes, k) ==> Key(nodes[Winner(nodes, k)]) < Key(nodes[i]))
  {
    if k > 0 {
      WinnerIsLowest(nodes, k - 1);
    }
  }

  /// A medium on which nothing happens before a frame in flight ends.
  ghost predicate Settled(m: Medium) {
    if m.flight.Idle? then TheWinner(m.nodes) == -1 else m.busyUntil > m.now
  }

  lemma SettledStays(m: Medium, later: nat)
    requires Settled(m.(now := later))
    ensures Settle(m.(now := later)) == m.(now := later)
  {
  }

  lemma AfterSettle(m: Medium)
    ensures Settle(m).flight.Idle? ==> TheWinner(Settle(m).nodes) == -1
  {
  }

  /// Stepping the clock in two strides reaches the same state as one: the same queues, statistics,
  /// log, transmissions and clock.
  lemma {:induction false} TwoStrides(m: Medium, t: nat, u: nat)
    requires t <= u
    ensures RunTo(RunTo(m, t), u) == RunTo(m, u)
    decreases Work(m)
  {
    var s := Settle(m);
    SettleWork(m);
    if s.flight.InFlight? && s.busyUntil <= t {
      TwoStrides(s.(now := s.busyUntil), t, u);
    } else {
      var r := s.(now := t);
      assert RunTo(m, t) == r;
      AfterSettle(m);
      SettledStays(s, t);
      assert Settle(r) == r;
      assert s.(now := s.busyUntil) == r.(now := r.busyUntil);
    }
  }

  lemma AdvanceRuns(m: Medium, step: nat, t: nat, r: Medium)
    requires t == m.now + step && r == Advance(m, step)
    ensures r == RunTo(m, t) && r.now == t
  {
    RunReaches(m, t);
  }

  lemma RunIsAdvance(m: Medium, step: nat, t: nat, r: Medium)
    requires t == m.now + step && r == RunTo(m, t)
    ensures r == Advance(m, step)
  {
  }

  lemma StridesMeet(m: Medium, t: nat, u: nat, n: Medium, r: Medium)
    requires t <= u && n == RunTo(m, t) && r == RunTo(n, u)
    ensures r == RunTo(m, u)
  {
    TwoStrides(m, t, u);
  }

  lemma AdvanceAdds(m: Medium, a: nat, b: nat)
    ensures Advance(Advance(m, a), b) == Advance(m, a + b)
  {
    TwoAdvances(m, a, b, a + b, Advance(m, a), Advance(Advance(m, a), b));
  }

  lemma TwoAdvances(m: Medium, a: nat, b: nat, sum: nat, n: Medium, r: Medium)
    requires n == Advance(m, a) && r == Advance(n, b) && sum == a + b
    ensures r == Advance(m, sum)
  {
    var t, u := m.now + a, m.now + sum;
    AdvanceRuns(m, a, t, n);
    AdvanceRuns(n, b, u, r);
    StridesMeet(m, t, u, n, r);
    RunIsAdvance(m, sum, u, r);
  }

  lemma {:induction false} RunReaches(m: Medium, target: nat)
    ensures RunTo(m, target).now == target
    decreases Work(m)
  {
    var s := Settle(m);
    SettleWork(m);
    if s.flight.InFlight? && s.busyUntil <= target {
      RunReaches(s.(now := s.busyUntil), target);
    }
  }

  ghost predicate SameRoster(a: seq<Node>, b: seq<Node>) {
    |a| == |b| && forall i | 0 <= i < |a| :: a[i].open == b[i].open
  }

  lemma CompleteRoster(m: Medium)
    ensures SameRoster(m.nodes, Complete(m).nodes)
  {
  }

  lemma StartRoster(m: Medium)
    ensures SameRoster(m.nodes, Start(m).nodes)
  {
  }

  lemma SettleRoster(m: Medium)
    ensures SameRoster(m.nodes, Settle(m).nodes)
  {
    var c := if m.flight.InFlight? && m.busyUntil <= m.now then Complete(m) else m;
    CompleteRoster(m);
    StartRoster(c);
  }

  /// The medium never opens or closes a participant.
  lemma RosterStays(m: Medium, target: nat, r: Medium)
    requires r == RunTo(m, target)
    ensures SameRoster(m.nodes, r.nodes)
  {
    var x := m;
    while Settle(x).flight.InFlight? && Settle(x).busyUntil <= target
      invariant SameRoster(m.nodes, x.nodes) && r == RunTo(x, target)
      decreases Work(x)
    {
      SettleRoster(x);
      SettleWork(x);
      x := Settle(x).(now := Settle(x).busyUntil);
    }
    SettleRoster(x);
  }

  /// A frame in flight ends now or later.
  ghost predicate Timely(m: Medium) {
    m.flight.InFlight? ==> m.busyUntil >= m.now
  }

  /// Running from before a transmission starts or from just after is the same.
  lemma JustStarted(m: Medium, s: Medium, t: nat)
    requires Settle(m) == s && s.flight.InFlight? && Timely(s) && s.now <= t
    ensures RunTo(m, t) == RunTo(s, t)
  {
    if s.busyUntil > s.now {
      assert Settle(s) == s;
    } else {
      assert s.(now := s.busyUntil) == s;
    }
  }

  /// Waiting for the frame in flight to end changes nothing else.
  lemma WaitForEnd(m: Medium, t: nat)
    requires m.flight.InFlight? && Timely(m) && m.busyUntil <= t
    ensures RunTo(m, t) == RunTo(m.(now := m.busyUntil), t)
  {
    if m.busyUntil > m.now {
      assert Settle(m) == m;
    } else {
      assert m.(now := m.busyUntil) == m;
    }
  }

  /// The medium at the end of the frame in flight.
  function Due(m: Medium): Medium {
    if m.flight.Idle? then m else m.(now := m.busyUntil)
  }

  lemma DueThenStart(m: Medium, s: Medium)
    requires s == Round(m)
    ensures Settle(Due(m)) == s && s.now == Due(m).now
    ensures s.flight.InFlight? ==> Timely(s)
    ensures s.flight.Idle? ==> s == Finish(m)
    ensures TheWinner(Finish(m).nodes) == -1 ==> s == Finish(m) && s.flight.Idle?
  {
  }

  lemma WaitUntilDue(m: Medium, t: nat)
    requires Timely(m) && Due(m).now <= t
    ensures RunTo(m, t) == RunTo(Due(m), t) && Due(m).now >= m.now
  {
    if m.flight.InFlight? {
      WaitForEnd(m, t);
    }
  }

  lemma NothingToDo(due: Medium, c: Medium, t: nat)
    requires Settle(due) == c && c.flight.Idle? && t == c.now
    ensures RunTo(due, t) == c
  {
    assert RunTo(due, t) == c.(now := t);
    assert c.(now := t) == c;
  }

  lemma DrainEnds(m: Medium, maxFrames: nat, s: Medium, d: Medium)
    requires s == Round(m) && d == Drain(m, maxFrames) && (maxFrames == 0 || s.flight.Idle?)
    requires TheWinner(d.nodes) == -1
    ensures d == s && s.flight.Idle?
  {
    DueThenStart(m, s);
  }

  lemma DrainContinues(m: Medium, maxFrames: nat, less: nat, s: Medium, d: Medium)
    requires s == Round(m) && d == Drain(m, maxFrames) && maxFrames == less + 1 && s.flight.InFlight?
    ensures d == Drain(s, less)
  {
  }

  /// Whatever a turn keeps, a drain keeps.
  lemma {:induction false} DrainInvariant(inv: Medium -> bool, m: Medium, maxFrames: nat)
    requires inv(m)
    requires forall x: Medium {:trigger Round(x)} :: inv(x) ==> inv(Round(x))
    requires forall x: Medium {:trigger Finish(x)} :: inv(x) ==> inv(Finish(x))
    ensures inv(Drain(m, maxFrames))
    decreases maxFrames
  {
    if maxFrames != 0 {
      var s, less: nat := Round(m), maxFrames - 1;
      DrainInvariant(inv, s, less);
    }
  }

  /// The last turn of a drain that leaves nothing to send.
  lemma LastTurn(m: Medium, s: Medium)
    requires Timely(m) && s == Round(m) && s.flight.Idle?
    ensures s.now >= m.now && RunTo(m, s.now) == s
  {
    DueThenStart(m, s);
    NothingToDo(Due(m), s, s.now);
    WaitUntilDue(m, s.now);
  }

  /// A run goes through the state after a turn that starts a frame.
  lemma RunsThrough(m: Medium, s: Medium, t: nat)
    requires Timely(m) && s == Round(m) && s.flight.InFlight? && s.now <= t
    ensures RunTo(m, t) == RunTo(s, t)
  {
    DueThenStart(m, s);
    JustStarted(Due(m), s, t);
    WaitUntilDue(m, t);
  }

  lemma TurnIsTimely(m: Medium, s: Medium)
    requires Timely(m) && s == Round(m)
    ensures s.now >= m.now && Timely(s)
  {
    DueThenStart(m, s);
  }

  lemma {:induction false} DrainIsRun(m: Medium, maxFrames: nat, s: Medium, d: Medium)
    requires Timely(m) && s == Round(m) && d == Drain(m, maxFrames) && TheWinner(d.nodes) == -1
    ensures d.now >= m.now && RunTo(m, d.now) == d
    decreases maxFrames
  {
    TurnIsTimely(m, s);
    if maxFrames == 0 || s.flight.Idle? {
      DrainEnds(m, maxFrames, s, d);
      LastTurn(m, s);
    } else {
      var less: nat, next := maxFrames - 1, Round(s);
      DrainContinues(m, maxFrames, less, s, d);
      DrainIsRun(s, less, next, d);
      RunsThrough(m, s, d.now);
    }
  }

  /// A drain that empties the queues reaches the state that one `advance` by the time it took reaches.
  lemma DrainIsAdvance(m: Medium, maxFrames: nat, took: int)
    requires Timely(m) && TheWinner(Drain(m, maxFrames).nodes) == -1 && took == Drain(m, maxFrames).now - m.now
    ensures took >= 0 && Advance(m, took) == Drain(m, maxFrames)
  {
    var d := Drain(m, maxFrames);
    DrainIsRun(m, maxFrames, Round(m), d);
    RunIsAdvance(m, took, d.now, d);
  }

  /// A drain allowed as many frames as are queued leaves no open participant with anything to send.
  lemma {:induction false} DrainEmpties(m: Medium, maxFrames: nat, d: Medium)
    requires Queued(m.nodes) <= maxFrames && d == Drain(m, maxFrames)
    ensures d.flight.Idle? && TheWinner(d.nodes) == -1
    decreases maxFrames
  {
    var c, s := Finish(m), Round(m);
    FinishQueued(m);
    StartWork(c);
    DueThenStart(m, s);
    if maxFrames > 0 && s.flight.InFlight? {
      var less: nat := maxFrames - 1;
      DrainContinues(m, maxFrames, less, s, d);
      DrainEmpties(s, less, d);
    } else {
      assert d == c;
    }
  }

  lemma FinishQueued(m: Medium)
    ensures Queued(Finish(m).nodes) == Queued(m.nodes) && Finish(m).flight.Idle?
    ensures Queued(m.nodes) == 0 ==> TheWinner(Finish(m).nodes) == -1
  {
    if m.flight.InFlight? {
      CompleteWork(m.(now := m.busyUntil));
    }
    var nodes := Finish(m).nodes;
    if Queued(nodes) == 0 {
      assert nodes[..|nodes|] == nodes;
      NothingQueued(nodes, |nodes|);
    }
  }

  lemma {:induction false} NothingQueued(nodes: seq<Node>, k: nat)
    requires k <= |nodes| && Queued(nodes[..k]) == 0
    ensures Winner(nodes, k) == -1
  {
    if k > 0 {
      assert nodes[..k][..k - 1] == nodes[..k - 1];
      NothingQueued(nodes, k - 1);
    }
  }
}
