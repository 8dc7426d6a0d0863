/// The virtual medium and its participants as the objects of transport/src/VirtualBus.cpp: every
/// method is proved to do to the fields what the state machine of `Medium` does to its state.
module VirtualBus {
  import opened Frame
  import opened Medium
  import opened Timing
  import M = Medium

  class VirtualBus {
    const name: string
    const medium: VirtualMedium
    var open: bool
    var filters: seq<Filter>
    var outbox: seq<Frame>
    var inbox: seq<Frame>
    var stats: Stats

    ghost function View(): Node
      reads this
    {
      Node(name, open, filters, outbox, inbox, stats)
    }

    constructor (medium: VirtualMedium, name: string)
      ensures this.medium == medium && View() == Node(name, false, [], [], [], NO_STATS)
    {
      this.name := name;
      this.medium := medium;
      open, filters, outbox, inbox, stats := false, [], [], [], NO_STATS;
    }

    method Open()
      modifies this`open
      ensures open
    {
      open := true;
    }

    /// Closing throws away what is queued in both directions.
    method Close()
      modifies this
      ensures View() == old(View()).(open := false, outbox := [], inbox := [])
    {
      open := false;
      outbox := [];
      inbox := [];
    }

    method SetFilters(filters: seq<Filter>)
      modifies this`filters
      ensures this.filters == filters
    {
      this.filters := filters;
    }

    method Send(frame: Frame, ghost i: nat) returns (r: SendResult)
      requires medium.Valid() && i < |medium.participants| && medium.participants[i] == this
      modifies this
      ensures medium.Valid()
      ensures medium.Model() == M.Send(old(medium.Model()), i, frame)
      ensures r == SendOutcome(old(medium.Model()), i, frame)
    {
      ghost var before := medium.Nodes();
      if !open {
        return SendNotOpen;
      }
      if frame.flags.fd && medium.timing.dataBitrate == 0 {
        return Unsupported;
      }
      if |outbox| >= medium.txLimit {
        stats := stats.(sendErrors := stats.sendErrors + 1);
        medium.OnlyChanged(before, i, View());
        return Overflow;
      }
      outbox := outbox + [frame];
      medium.OnlyChanged(before, i, View());
      return Sent;
    }

    method Receive(timeout: int, ghost i: nat) returns (r: Received)
      requires medium.Valid() && i < |medium.participants| && medium.participants[i] == this
      modifies medium, medium.participants
      ensures medium.Valid() && medium.participants == old(medium.participants)
      ensures var m := BeforeReceive(old(medium.Model()), i, timeout);
              i < |m.nodes| && r == ReceiveOutcome(m, i) && medium.Model() == Pop(m, i)
    {
      assert medium.Nodes()[i] == View();
      if !open {
        return ReceiveNotOpen;
      }
      if inbox == [] {
        if timeout > 0 {
          Wait(timeout, i);
        }
      }
      r := Take(i);
    }

    /// Let the medium run; it neither opens nor closes anyone.
    method Wait(timeout: int, ghost i: nat)
      requires medium.Valid() && i < |medium.participants| && medium.participants[i] == this && open && timeout > 0
      modifies medium, medium.participants
      ensures medium.Valid() && medium.participants == old(medium.participants) && open
      ensures medium.Model() == M.Advance(old(medium.Model()), timeout)
    {
      ghost var m := medium.Model();
      assert m.nodes[i] == View();
      medium.Advance(timeout);
      AdvanceRoster(m, timeout, medium.Model());
      assert medium.Nodes()[i] == View();
    }

    /// The head of the receive queue.
    method Take(ghost i: nat) returns (r: Received)
      requires medium.Valid() && i < |medium.participants| && medium.participants[i] == this && open
      modifies this`inbox
      ensures medium.Valid() && r == ReceiveOutcome(old(medium.Model()), i)
      ensures medium.Model() == Pop(old(medium.Model()), i)
    {
      ghost var before := medium.Nodes();
      assert before[i] == View();
      if inbox == [] {
        return Timeout;
      }
      r := Got(inbox[0]);
      inbox := inbox[1..];
      medium.OnlyChanged(before, i, View());
    }
  }

  class VirtualMedium {
    const timing: BusTiming
    var now: nat
    var busyUntil: nat
    var loopback: bool
    var inFlight: bool
    var current: Frame
    var currentSender: VirtualBus?
    var rxLimit: nat
    var txLimit: nat
    var participants: seq<VirtualBus>
    var log: seq<ArbitrationEvent>
    ghost var senderIndex: nat
    ghost var wire: seq<Transmission>

    ghost predicate Valid()
      reads this
    {
      && (forall i, j | 0 <= i < j < |participants| :: participants[i] != participants[j])
      && (inFlight ==> senderIndex < |participants| && currentSender == participants[senderIndex])
    }

    ghost function Nodes(): (r: seq<Node>)
      reads this, participants
      ensures |r| == |participants|
    {
      seq(|participants|, (i: int) requires 0 <= i < |participants| reads this, participants => participants[i].View())
    }

    /// The state of the medium and of everyone attached to it.
    ghost function Model(): Medium
      reads this, participants
    {
      Medium(timing, now, busyUntil, loopback, if inFlight then InFlight(current, senderIndex) else Idle, rxLimit, txLimit,
             Nodes(), log, wire)
    }

    constructor (timing: BusTiming)
      ensures Valid() && Model() == Medium(timing, 0, 0, true, Idle, 4096, 4096, [], [], [])
    {
      this.timing := timing;
      now, busyUntil, loopback, inFlight, current, currentSender := 0, 0, true, false, NO_FRAME, null;
      rxLimit, txLimit, participants, log, senderIndex, wire := 4096, 4096, [], [], 0, [];
    }

    method Attach(name: string) returns (bus: VirtualBus)
      requires Valid()
      modifies this`participants
      ensures Valid() && fresh(bus) && bus.medium == this && participants == old(participants) + [bus]
      ensures Model() == old(Model()).(nodes := old(Nodes()) + [Node(name, false, [], [], [], NO_STATS)])
    {
      bus := new VirtualBus(this, name);
      participants := participants + [bus];
    }

    /// Changing one participant changes one node.
    lemma OnlyChanged(before: seq<Node>, i: nat, after: Node)
      requires Valid() && i < |participants| == |before| && participants[i].View() == after
      requires forall j | 0 <= j < |participants| && j != i :: participants[j].View() == before[j]
      ensures Nodes() == before[i := after]
    {
    }

    /// Arbitration: the first participant with the lowest key at the head of its queue.
    method Arbitrate() returns (winner: VirtualBus?, contenders: nat, ghost w: int)
      requires Valid()
      ensures w == TheWinner(Nodes()) && (winner == null <==> w == -1) && (w >= 0 ==> winner == participants[w])
      ensures contenders == Contenders(Nodes(), |participants|)
    {
      winner, contenders, w := null, 0, -1;
      var bestKey := 0;
      ghost var nodes := Nodes();
      for k := 0 to |participants|
        invariant w == Winner(nodes, k) && (winner == null <==> w == -1) && contenders == Contenders(nodes, k)
        invariant w >= 0 ==> winner == participants[w] && bestKey == Key(nodes[w])
      {
        var p := participants[k];
        assert nodes[k] == p.View();
        if !p.open || p.outbox == [] {
          continue;
        }
        contenders := contenders + 1;
        var key := p.outbox[0].id.ArbitrationKey();
        if winner == null || key < bestKey {
          winner, bestKey, w := p, key, k;
        }
      }
    }

    /// Count a loss for everyone who wanted the bus but did not get it.
    method RecordLosses(winner: VirtualBus, ghost nodes: seq<Node>, ghost w: nat) returns (losers: seq<CanId>)
      requires Valid() && w < |participants| == |nodes| && participants[w] == winner
      requires forall i | 0 <= i < |participants| && i != w :: participants[i].View() == nodes[i]
      modifies participants
      ensures winner.View() == old(winner.View()) && losers == Losers(nodes, w, |nodes|)
      ensures forall i | 0 <= i < |participants| && i != w :: participants[i].View() == AfterLoss(nodes[i])
    {
      losers := [];
      for k := 0 to |participants|
        invariant losers == Losers(nodes, w, k) && winner.View() == old(winner.View())
        invariant forall i | 0 <= i < k && i != w :: participants[i].View() == AfterLoss(nodes[i])
        invariant forall i | k <= i < |participants| && i != w :: participants[i].View() == nodes[i]
      {
        if participants[k] == winner {
          assert k == w;
          continue;
        }
        assert participants[k].View() == nodes[k];
        var lost := TakeLoss(participants[k]);
        losers := losers + lost;
      }
    }

    method TakeLoss(p: VirtualBus) returns (lost: seq<CanId>)
      modifies p`stats
      ensures p.View() == AfterLoss(old(p.View()))
      ensures lost == if Wants(old(p.View())) then [old(p.outbox[0]).id] else []
    {
      lost := [];
      if p.open && p.outbox != [] {
        lost := [p.outbox[0].id];
        p.stats := p.stats.(arbitrationLosses := p.stats.arbitrationLosses + 1);
      }
    }

    method StartTransmission() returns (started: bool)
      requires Valid()
      modifies this, participants
      ensures Valid() && participants == old(participants)
      ensures Model() == Start(old(Model()))
      ensures started <==> !old(inFlight) && inFlight
    {
      if inFlight {
        return false;
      }
      ghost var m := Model();
      var winner, contenders, w := Arbitrate();
      if winner == null {
        return false;
      }
      Transmit(winner, contenders, m, w);
      started := true;
    }

    /// The winner transmits the head of its queue, and the others lose.
    method Transmit(winner: VirtualBus, contenders: nat, ghost m: Medium, ghost w: nat)
      requires Valid() && m == Model() && m.flight.Idle? && w == TheWinner(m.nodes) && participants[w] == winner
      requires contenders == Contenders(m.nodes, |m.nodes|)
      modifies this`log, this`busyUntil, this`wire, this`current, this`currentSender, this`senderIndex, this`inFlight, participants
      ensures Valid() && inFlight && Model() == Start(m)
    {
      var frame := PopHead(winner, contenders, m, w);
      var t := TimingOf(frame, timing);
      Occupy(winner, frame, t, m, w);
      Credit(winner, frame, t, busyUntil, m, w);
      GrantedIsStarted(m, w, frame, t);
    }

    /// What getting the bus in state `m` does to the medium itself.
    ghost predicate OnWire(m: Medium, w: nat, frame: Frame, t: FrameTiming)
      reads this`now, this`loopback, this`rxLimit, this`txLimit, this`inFlight, this`senderIndex, this`busyUntil, this`current, this`wire
    {
      && timing == m.timing && now == m.now && loopback == m.loopback && rxLimit == m.rxLimit && txLimit == m.txLimit
      && inFlight && senderIndex == w && busyUntil == m.now + t.nanoseconds && current == frame.(timestamp := busyUntil)
      && wire == m.wire + [Transmission(frame, w, m.now, busyUntil)]
    }

    /// What it does to the participants and the log: the winner is left with `n`.
    ghost predicate Arbitrated(m: Medium, w: nat, n: Node)
      requires w < |m.nodes| && m.nodes[w].outbox != []
      reads this`participants, this`log, participants
    {
      && |participants| == |m.nodes| && participants[w].View() == n
      && (forall i | 0 <= i < |participants| && i != w :: participants[i].View() == AfterLoss(m.nodes[i]))
      && log == (var losers := Losers(m.nodes, w, |m.nodes|);
                 if losers == [] then m.log
                 else m.log + [ArbitrationEvent(m.now, m.nodes[w].outbox[0].id, m.nodes[w].name, losers)])
    }

    lemma GrantedIsStarted(m: Medium, w: nat, frame: Frame, t: FrameTiming)
      requires m.flight.Idle? && w == TheWinner(m.nodes) && frame == m.nodes[w].outbox[0] && t == TimingOf(frame, m.timing)
      requires OnWire(m, w, frame, t) && Arbitrated(m, w, AfterWin(m.nodes[w], t, m.now, busyUntil))
      ensures Model() == Start(m)
    {
      assert Nodes() == Start(m).nodes;
    }

    /// The winner's frame leaves its queue, and the others lose.
    method PopHead(winner: VirtualBus, contenders: nat, ghost m: Medium, ghost w: nat) returns (frame: Frame)
      requires Valid() && m == Model() && w < |m.nodes| && participants[w] == winner && Wants(m.nodes[w])
      requires contenders == Contenders(m.nodes, |m.nodes|)
      modifies this`log, participants
      ensures frame == m.nodes[w].outbox[0] && Arbitrated(m, w, m.nodes[w].(outbox := m.nodes[w].outbox[1..]))
    {
      ghost var nodes := m.nodes;
      assert nodes[w] == winner.View();
      frame := winner.outbox[0];
      winner.outbox := winner.outbox[1..];
      LogArbitration(winner, contenders, frame, nodes, w);
    }

    /// The losers, in the log and in their statistics.
    method LogArbitration(winner: VirtualBus, contenders: nat, frame: Frame, ghost nodes: seq<Node>, ghost w: nat)
      requires Valid() && w < |participants| == |nodes| && participants[w] == winner && Wants(nodes[w])
      requires forall i | 0 <= i < |participants| && i != w :: participants[i].View() == nodes[i]
      requires contenders == Contenders(nodes, |nodes|)
      modifies this`log, participants
      ensures winner.View() == old(winner.View())
      ensures forall i | 0 <= i < |participants| && i != w :: participants[i].View() == AfterLoss(nodes[i])
      ensures log == var losers := Losers(nodes, w, |nodes|);
                     if losers == [] then old(log) else old(log) + [ArbitrationEvent(now, frame.id, winner.name, losers)]
    {
      AllButOneLose(nodes, w, |nodes|);
      if contenders > 1 {
        var losers := RecordLosses(winner, nodes, w);
        if losers != [] {
          log := log + [ArbitrationEvent(now, frame.id, winner.name, losers)];
        }
      } else {
        NobodyLoses(nodes, w);
      }
    }

    /// The winner's frame takes the wire.
    method Occupy(winner: VirtualBus, frame: Frame, t: FrameTiming, ghost m: Medium, ghost w: nat)
      requires Valid() && w < |participants| && participants[w] == winner
      requires timing == m.timing && now == m.now && loopback == m.loopback && rxLimit == m.rxLimit && txLimit == m.txLimit
      requires wire == m.wire
      modifies this`busyUntil, this`wire, this`current, this`currentSender, this`senderIndex, this`inFlight
      ensures Valid() && OnWire(m, w, frame, t)
    {
      busyUntil := now + t.nanoseconds;
      wire := wire + [Transmission(frame, w, now, busyUntil)];
      current, currentSender, senderIndex, inFlight := frame.(timestamp := busyUntil), winner, w, true;
    }

    /// The winner's statistics.
    method Credit(winner: VirtualBus, frame: Frame, t: FrameTiming, end: nat, ghost m: Medium, ghost w: nat)
      requires Valid() && w < |m.nodes| && m.nodes[w].outbox != [] && Arbitrated(m, w, winner.View())
      requires w < |participants| && participants[w] == winner && now == m.now
      modifies winner`stats
      ensures Arbitrated(m, w, Credited(old(winner.View()), frame, t, m.now, end))
    {
      var s := winner.stats;
      winner.stats := s.(framesSent := s.framesSent + 1, bytesSent := s.bytesSent + frame.Size(),
                         wireBits := s.wireBits + t.TotalBits(), first := if s.first == 0 then now else s.first, last := end);
    }

    method Deliver(frame: Frame, sender: VirtualBus?, ghost w: nat)
      requires Valid() && w < |participants| && sender == participants[w]
      modifies participants
      ensures forall i | 0 <= i < |participants| ::
                participants[i].View() == AfterDelivery(old(Nodes())[i], i, frame, w, loopback, rxLimit)
    {
      ghost var nodes := Nodes();
      for k := 0 to |participants|
        invariant forall i | 0 <= i < k :: participants[i].View() == AfterDelivery(nodes[i], i, frame, w, loopback, rxLimit)
        invariant forall i | k <= i < |participants| :: participants[i].View() == nodes[i]
      {
        assert participants[k].View() == nodes[k];
        DeliverTo(participants[k], k, frame, sender, w);
      }
    }

    method DeliverTo(p: VirtualBus, ghost k: nat, frame: Frame, sender: VirtualBus?, ghost w: nat)
      requires Valid() && w < |participants| && sender == participants[w] && k < |participants| && p == participants[k]
      modifies p
      ensures p.View() == AfterDelivery(old(p.View()), k, frame, w, loopback, rxLimit)
    {
      if p == sender && !loopback {
        return;
      }
      if !p.open {
        return;
      }
      var accepted := CheckFilters(p.filters, frame.id);
      if !accepted {
        return;
      }
      var s := p.stats;
      if |p.inbox| >= rxLimit {
        p.stats := s.(dropped := s.dropped + 1, receiveErrors := s.receiveErrors + 1);
        return;
      }
      p.inbox := p.inbox + [frame];
      p.stats := s.(framesReceived := s.framesReceived + 1,
                    bytesReceived := s.bytesReceived + frame.Size(),
                    errorFrames := s.errorFrames + (if frame.flags.error then 1 else 0),
                    first := if s.first == 0 then frame.timestamp else s.first,
                    last := frame.timestamp);
    }

    method CompleteTransmission()
      requires Valid()
      modifies this, participants
      ensures Valid() && participants == old(participants) && !inFlight
      ensures Model() == Complete(old(Model()))
    {
      if !inFlight {
        return;
      }
      inFlight := false;
      Deliver(current, currentSender, senderIndex);
      currentSender := null;
    }

    /// The head of the loop in `advance`.
    method SettleNow()
      requires Valid()
      modifies this, participants
      ensures Valid() && participants == old(participants)
      ensures Model() == Settle(old(Model()))
    {
      if inFlight && busyUntil <= now {
        CompleteTransmission();
      }
      if !inFlight {
        var started := StartTransmission();
      }
    }

    /// One turn of the loop in `advance`.
    method Turn(target: nat) returns (again: bool)
      requires Valid()
      modifies this, participants
      ensures Valid() && participants == old(participants)
      ensures var s := Settle(old(Model()));
              && (again <==> s.flight.InFlight? && s.busyUntil <= target)
              && Model() == s.(now := if again then s.busyUntil else target)
    {
      SettleNow();
      if inFlight && busyUntil <= target {
        now := busyUntil;
        return true;
      }
      now := target;
      // The source completes once more here if a frame is due; none ever is.
      assert !(inFlight && busyUntil <= now);
      return false;
    }

    method Advance(step: int)
      requires Valid()
      modifies this, participants
      ensures Valid() && participants == old(participants)
      ensures Model() == M.Advance(old(Model()), step)
    {
      var target := now + if step < 0 then 0 else step;
      ghost var m := Model();
      ghost var whole := RunTo(m, target);
      var again := true;
      while again
        invariant Valid() && participants == old(participants) && m == Model()
        invariant if again then whole == RunTo(m, target) else whole == m
        decreases again, Work(m)
      {
        ghost var before := m;
        again := Turn(target);
        m := Model();
        TurnRuns(before, target, again, m);
      }
    }

    /// Let the frame in flight end.
    method FinishFrame()
      requires Valid()
      modifies this, participants
      ensures Valid() && participants == old(participants) && !inFlight
      ensures Model() == Finish(old(Model()))
    {
      if inFlight {
        ghost var m := Model();
        now := busyUntil;
        assert Model() == m.(now := m.busyUntil);
        CompleteTransmission();
      }
    }

    /// One turn of the loop in `drain`.
    method NextFrame() returns (started: bool)
      requires Valid()
      modifies this, participants
      ensures Valid() && participants == old(participants)
      ensures Model() == Round(old(Model())) && started == inFlight
    {
      FinishFrame();
      started := StartTransmission();
    }

    /// The loop in `drain`.
    method NextFrames(maxFrames: nat)
      requires Valid()
      modifies this, participants
      ensures Valid() && participants == old(participants)
      ensures Finish(Model()) == M.Drain(old(Model()), maxFrames)
    {
      var transmitted := 0;
      ghost var m, left := Model(), maxFrames;
      ghost var whole := M.Drain(m, left);
      while transmitted < maxFrames
        invariant Valid() && participants == old(participants) && left == maxFrames - transmitted
        invariant m == Model() && whole == M.Drain(m, left)
      {
        ghost var before := m;
        var started := NextFrame();
        m := Model();
        if !started {
          DrainStops(before, left, m);
          return;
        }
        ghost var less := left - 1;
        DrainGoesOn(before, left, less, m, whole);
        transmitted, left := transmitted + 1, less;
      }
    }

    method Drain(maxFrames: nat) returns (took: int)
      requires Valid()
      modifies this, participants
      ensures Valid() && participants == old(participants)
      ensures Model() == M.Drain(old(Model()), maxFrames) && took == now - old(now)
    {
      var start := now;
      NextFrames(maxFrames);
      FinishFrame();
      took := now - start;
    }
  }

  lemma AdvanceRoster(m: Medium, step: nat, r: Medium)
    requires r == M.Advance(m, step)
    ensures SameRoster(m.nodes, r.nodes)
  {
    var t := m.now + step;
    RosterStays(m, t, r);
  }

  lemma DrainStops(m: Medium, left: nat, c: Medium)
    requires c == Round(m) && c.flight.Idle?
    ensures M.Drain(m, left) == c && Finish(c) == c
  {
  }

  lemma TurnRuns(m: Medium, target: nat, again: bool, next: Medium)
    requires again <==> Settle(m).flight.InFlight? && Settle(m).busyUntil <= target
    requires next == Settle(m).(now := if again then Settle(m).busyUntil else target)
    ensures if again then RunTo(m, target) == RunTo(next, target) && Work(next) < Work(m) else RunTo(m, target) == next
  {
    SettleWork(m);
  }

  lemma DrainGoesOn(m: Medium, left: nat, less: nat, next: Medium, whole: Medium)
    requires left == less + 1 && next == Round(m) && next.flight.InFlight? && whole == M.Drain(m, left)
    ensures whole == M.Drain(next, less)
  {
  }

  lemma {:induction false} NoLosers(nodes: seq<Node>, w: int, k: nat, i: nat)
    requires i < k <= |nodes| && i != w && Losers(nodes, w, k) == []
    ensures !Wants(nodes[i])
  {
    if i < k - 1 {
      NoLosers(nodes, w, k - 1, i);
    }
  }

  lemma NobodyLoses(nodes: seq<Node>, w: nat)
    requires w < |nodes| && Losers(nodes, w, |nodes|) == []
    ensures forall i | 0 <= i < |nodes| && i != w :: AfterLoss(nodes[i]) == nodes[i]
  {
    forall i | 0 <= i < |nodes| && i != w
      ensures AfterLoss(nodes[i]) == nodes[i]
    {
      NoLosers(nodes, w, |nodes|, i);
    }
  }

  const NO_FRAME: Frame := Frame(Standard(0), 0, Flags(false, false, false, false, false), [], 0)
}
