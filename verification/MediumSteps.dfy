/// The two steps of the virtual medium, said without its functions: who gets the bus and for how long, and
/// who gets the frame.
module MediumSteps {
  import opened Frame
  import opened Timing
  import opened Medium

  // ---- Delivery ----

  /// Node `i` gets the frame: it is open, it is not the sender unless that hears itself, its filters let the
  /// identifier through, and it has room.
  ghost predicate Gets(m: Medium, i: nat)
    requires i < |m.nodes| && m.flight.InFlight?
  {
    Hears(m, i) && |m.nodes[i].inbox| < m.rxLimit
  }

  ghost predicate Hears(m: Medium, i: nat)
    requires i < |m.nodes| && m.flight.InFlight?
  {
    m.nodes[i].open && (i != m.flight.sender || m.loopback) && Admitted(m.nodes[i].filters, m.flight.frame.id)
  }

  /// A delivery appends the frame to the inboxes of exactly those that get it, and counts it there, or as dropped
  /// where only room was missing.
  lemma DeliveredTo(m: Medium, i: nat)
    requires m.flight.InFlight? && i < |m.nodes|
    ensures |Complete(m).nodes| == |m.nodes|
    ensures var (n, r, f) := (m.nodes[i], Complete(m).nodes[i], m.flight.frame);
            && r.inbox == n.inbox + (if Gets(m, i) then [f] else [])
            && r.stats.framesReceived == n.stats.framesReceived + (if Gets(m, i) then 1 else 0)
            && r.stats.bytesReceived == n.stats.bytesReceived + (if Gets(m, i) then f.Size() else 0)
            && r.stats.errorFrames == n.stats.errorFrames + (if Gets(m, i) && f.flags.error then 1 else 0)
            && r.stats.dropped == n.stats.dropped + (if Hears(m, i) && !Gets(m, i) then 1 else 0)
            && r.stats.receiveErrors == n.stats.receiveErrors + (if Hears(m, i) && !Gets(m, i) then 1 else 0)
            && r.outbox == n.outbox && r.open == n.open && r.filters == n.filters && r.stats.framesSent == n.stats.framesSent
  {
    AcceptedByBits(m.nodes[i].filters, m.flight.frame.id);
  }

  /// Whoever does not get the frame, and has not dropped it, is left as it was.
  lemma OthersUntouched(m: Medium, i: nat)
    requires m.flight.InFlight? && i < |m.nodes| && !Hears(m, i)
    ensures Complete(m).nodes[i] == m.nodes[i]
  {
    AcceptedByBits(m.nodes[i].filters, m.flight.frame.id);
  }

  // ---- Arbitration ----

  /// Node `w` is open, has a frame to send, and no other such node has a lower key, or the same one and an
  /// earlier place.
  ghost predicate Wins(m: Medium, w: nat) {
    && w < |m.nodes| && m.nodes[w].open && m.nodes[w].outbox != []
    && forall j | 0 <= j < |m.nodes| && m.nodes[j].open && m.nodes[j].outbox != [] ::
         Beats(m.nodes[w].outbox[0].id, m.nodes[j].outbox[0].id, w, j)
  }

  predicate Beats(a: CanId, b: CanId, i: nat, j: nat) {
    a.ArbitrationKey() < b.ArbitrationKey() || (a.ArbitrationKey() == b.ArbitrationKey() && i <= j)
  }

  lemma WinnerWins(m: Medium, w: nat)
    requires w == TheWinner(m.nodes)
    ensures Wins(m, w)
  {
    WinnerIsLowest(m.nodes, |m.nodes|);
    forall j | 0 <= j < |m.nodes| && m.nodes[j].open && m.nodes[j].outbox != []
      ensures Beats(m.nodes[w].outbox[0].id, m.nodes[j].outbox[0].id, w, j)
    {
      FirstOfEquals(m.nodes, |m.nodes|, w, j);
    }
  }

  /// Among equals the first wins.
  lemma {:induction false} FirstOfEquals(nodes: seq<Node>, k: nat, w: nat, j: nat)
    requires k <= |nodes| && w == Winner(nodes, k) && j < k && Wants(nodes[j])
    ensures Key(nodes[w]) < Key(nodes[j]) || (Key(nodes[w]) == Key(nodes[j]) && w <= j)
    decreases k
  {
    var v := Winner(nodes, k - 1);
    if j < k - 1 {
      if v == -1 {
        WinnerIsLowest(nodes, k - 1);
      } else {
        FirstOfEquals(nodes, k - 1, v, j);
      }
    }
  }

  /// Whoever wins is taken off its queue and on the wire, from now for as long as the frame takes, and every
  /// other that wanted the bus has lost once.
  lemma StartedBy(m: Medium, w: nat, j: nat)
    requires m.flight.Idle? && w == TheWinner(m.nodes) && j < |m.nodes|
    ensures var (s, f) := (Start(m), m.nodes[w].outbox[0]);
            && s.flight == InFlight(f.(timestamp := s.busyUntil), w) && s.now == m.now
            && s.busyUntil == m.now + TimingOf(f, m.timing).nanoseconds
            && s.wire == m.wire + [Transmission(f, w, m.now, s.busyUntil)] && |s.nodes| == |m.nodes|
            && s.nodes[j].inbox == m.nodes[j].inbox
            && (j != w ==> s.nodes[j].outbox == m.nodes[j].outbox)
            && (j == w ==> m.nodes[j].outbox == [f] + s.nodes[j].outbox)
            && s.nodes[j].stats.arbitrationLosses
               == m.nodes[j].stats.arbitrationLosses + (if j != w && m.nodes[j].open && m.nodes[j].outbox != [] then 1 else 0)
            && s.nodes[j].stats.framesSent == m.nodes[j].stats.framesSent + (if j == w then 1 else 0)
            && s.nodes[j].stats.bytesSent == m.nodes[j].stats.bytesSent + (if j == w then f.Size() else 0)
            && s.nodes[j].stats.wireBits == m.nodes[j].stats.wireBits + (if j == w then TimingOf(f, m.timing).TotalBits() else 0)
  {
  }

  /// Nothing starts exactly when nobody open has a frame.
  lemma NothingStarts(m: Medium)
    requires m.flight.Idle?
    ensures Start(m) == m <==> forall j | 0 <= j < |m.nodes| :: !m.nodes[j].open || m.nodes[j].outbox == []
  {
    WinnerIsLowest(m.nodes, |m.nodes|);
    var w := TheWinner(m.nodes);
    if w != -1 {
      assert Start(m).flight.InFlight?;
    }
  }

  // ---- Participants ----

  /// A frame is queued at the end if its sender is open, the bus can carry it, and there is room; with no room that is
  /// counted, and in every other case nothing changes.
  lemma SentExactly(m: Medium, i: nat, f: Frame)
    requires i < |m.nodes|
    ensures var (n, r) := (m.nodes[i], Send(m, i, f));
            var (open, able, room) := (n.open, !f.flags.fd || m.timing.dataBitrate > 0, |n.outbox| < m.txLimit);
            && SendOutcome(m, i, f) == (if !open then SendNotOpen else if !able then Unsupported else if !room then Overflow else Sent)
            && r == m.(nodes := r.nodes) && |r.nodes| == |m.nodes| && (forall j | 0 <= j < |m.nodes| && j != i :: r.nodes[j] == m.nodes[j])
            && r.nodes[i] == n.(outbox := n.outbox + (if open && able && room then [f] else []),
                                stats := n.stats.(sendErrors := n.stats.sendErrors + if open && able && !room then 1 else 0))
  {
    assert m.nodes[i].outbox + [] == m.nodes[i].outbox;
  }

  /// Receiving takes the frame that has waited longest, from an open participant that has one.
  lemma ReceivedExactly(m: Medium, i: nat)
    requires i < |m.nodes|
    ensures var (n, r) := (m.nodes[i], Pop(m, i));
            && (ReceiveOutcome(m, i).Got? <==> n.open && n.inbox != [])
            && (ReceiveOutcome(m, i).Got? ==> n.inbox == [ReceiveOutcome(m, i).frame] + r.nodes[i].inbox)
            && (!ReceiveOutcome(m, i).Got? ==> r == m)
            && (!n.open <==> ReceiveOutcome(m, i) == ReceiveNotOpen)
  {
  }

  /// A frame is delivered when its time is over, and not before; then the next one starts at once.
  lemma SettledAt(m: Medium)
    ensures m.flight.InFlight? && m.now < m.busyUntil ==> Settle(m) == m
    ensures m.flight.InFlight? && m.now >= m.busyUntil ==> Settle(m) == Start(Complete(m))
    ensures m.flight.Idle? ==> Settle(m) == Start(m)
  {
  }
}
