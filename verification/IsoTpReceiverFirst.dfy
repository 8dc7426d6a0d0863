/// Polling the receiver before the sender in each tick: when that completes a transfer, and the one case in
/// which N_Cr runs out although both sides keep to their times.
module IsoTpReceiverFirst {
  import opened Bits
  import opened IsoTp
  import opened IsoTpFrames
  import opened IsoTpLink
  import opened IsoTpCount
  import opened IsoTpWindow
  import opened IsoTpTimed
  import opened IsoTpCompletion

  /// The delays leave a whole tick before each timeout.
  ghost predicate Slack(t: Transfer, d: nat) {
    d >= 1 && t.back.nBr + d <= t.out.nBs && t.out.nCs + d <= t.back.nCr && Gap(t) + d <= t.back.nCr
  }

  /// Some block holds two Consecutive Frames or more.
  ghost predicate TwoInABlock(t: Transfer) {
    Consecutives(t) >= 2 && t.back.blockSize != 1
  }

  /// The receiver is polled, then the sender; what either sends arrives at once.
  ghost function Tock(n: Net, d: nat): (m: Net)
    requires n.Sound()
    ensures m.Sound()
  {
    Step(Heard(Answered(n)), Elapse(d))
  }

  ghost function Tocks(n: Net, d: nat, k: nat): (m: Net)
    requires n.Sound()
    ensures m.Sound()
    decreases k
  {
    if k == 0 then n else Tock(Tocks(n, d, k - 1), d)
  }

  lemma OneMoreTock(n: Net, d: nat, k: nat, m: Net)
    requires n.Sound() && m == Tocks(n, d, k)
    ensures Tocks(n, d, k + 1) == Tock(m, d)
  {
  }

  // ---- Between ticks ----

  ghost predicate Granting(n: Net, d: nat) {
    n.s.phase.WaitingFlowControl? && n.r.phase.SendFlowControl? && n.r.fcDue + d <= n.s.deadline
  }

  /// The sender is on its way, and will be in time by a whole tick.
  ghost predicate Streaming(n: Net, d: nat) {
    n.s.phase.SendingConsecutive? && n.r.phase.Receiving? && n.s.nextSend + d <= n.r.deadline && n.now < n.r.deadline
  }

  ghost predicate Steady(t: Transfer, n: Net, d: nat) {
    CountInv(t, n) && Quiet(n) && (Starting(n) || Granting(n, d) || Streaming(n, d) || Both(n))
  }

  /// The first half of a tick: a Flow Control that is due goes out, and nothing else happens.
  lemma Answers(t: Transfer, n: Net, d: nat, m: Net)
    requires Steady(t, n, d) && Slack(t, d) && m == Answered(n)
    ensures Steady(t, m, d) && m.sent == n.sent && m.now == n.now
    ensures if n.s.phase.WaitingFlowControl? && n.now >= n.r.fcDue
            then Streaming(m, d) && m.s.nextSend == n.now + t.out.nCs && m.r.deadline == n.now + t.back.nCr
            else m == n
  {
    CountAnswered(t, n, m);
    if Granting(n, d) && n.now >= n.r.fcDue {
      GrantArrives(t, n, m);
    } else {
      NothingToAnswer(t, n);
    }
  }

  /// A state in which the receiver is polled in time is in time for the lemmas about the other order.
  lemma SlackIsInTime(t: Transfer, d: nat)
    requires Slack(t, d)
    ensures InTime(t, d)
  {
  }

  /// What the second half leaves when the sender sends: both wait for a Flow Control, both are done, or both
  /// go on, with the next frame due a gap from now and the receiver waiting N_Cr from now.
  lemma Sends(t: Transfer, n: Net, d: nat, m: Net)
    requires Steady(t, n, d) && Slack(t, d) && m == Heard(n)
    requires Starting(n) || (n.s.phase.SendingConsecutive? && n.now >= n.s.nextSend)
    ensures CountInv(t, m) && Quiet(m) && m.sent == n.sent + 1 && m.now == n.now
    ensures Granting(m, d) || Both(m)
            || (Flowing(m) && m.s.nextSend == n.now + Gap(t) && m.r.deadline == n.now + t.back.nCr)
    ensures Starting(n) ==> Granting(m, d)
  {
    SlackIsInTime(t, d);
    if Starting(n) {
      FirstHalfStarts(t, n, d);
      StartsAlone(t, n, m);
    } else {
      FirstHalfSends(t, n, d);
    }
  }

  lemma StartsAlone(t: Transfer, n: Net, m: Net)
    requires CountInv(t, n) && Starting(n) && m == Heard(n)
    ensures m.s.phase.WaitingFlowControl?
  {
    FirstSent(t, n.s, n.now);
  }

  /// Otherwise nothing happens.
  lemma Idles(t: Transfer, n: Net, d: nat)
    requires Steady(t, n, d) && !Starting(n) && (n.s.phase.SendingConsecutive? ==> n.now < n.s.nextSend)
    requires n.s.phase.WaitingFlowControl? ==> n.now < n.r.fcDue
    ensures Heard(n) == n
  {
  }

  lemma SameGrant(n: Net, m: Net)
    requires n.Sound() && m == Heard(n)
    ensures m.granted == n.granted && m.grantAt == n.grantAt
  {
  }

  /// While both go on, the next frame exists, and its place in the block is known.
  lemma GoingOn(t: Transfer, n: Net)
    requires CountInv(t, n) && Quiet(n) && n.s.phase.SendingConsecutive? && n.r.phase.Receiving?
    ensures 1 <= n.sent <= Consecutives(t) && (t.back.blockSize == 1 ==> n.sent == n.grantAt)
    ensures n.granted > 0
  {
    QuietMeansDue(t, n);
    FrameCount(t, n.due);
  }

  /// With blocks of a single frame, or a single frame in all, nobody goes on after a frame.
  lemma NobodyGoesOn(t: Transfer, n: Net, m: Net)
    requires CountInv(t, n) && Quiet(n) && n.s.phase.SendingConsecutive? && n.r.phase.Receiving?
    requires CountInv(t, m) && Quiet(m) && m == Heard(n) && m.sent == n.sent + 1 && !TwoInABlock(t)
    ensures !Flowing(m)
  {
    GoingOn(t, n);
    SameGrant(n, m);
    if Flowing(m) {
      GoingOn(t, m);
    }
  }

  // ---- Completion ----

  /// Either a tick is shorter than N_Cr or no receiver waits for a second frame of its block.
  ghost predicate Prompt(t: Transfer, d: nat) {
    d < t.back.nCr || !TwoInABlock(t)
  }

  lemma SendsAndElapses(t: Transfer, n: Net, d: nat, b: Net, m: Net)
    requires Steady(t, n, d) && Slack(t, d) && Prompt(t, d) && b == Heard(n) && m == Step(b, Elapse(d))
    requires Starting(n) || (n.s.phase.SendingConsecutive? && n.now >= n.s.nextSend)
    ensures Steady(t, m, d) && m.sent == n.sent + 1
  {
    Sends(t, n, d, b);
    if n.s.phase.SendingConsecutive? && !(d < t.back.nCr) {
      NobodyGoesOn(t, n, b);
    }
    CountElapsed(t, b, d, m);
  }

  lemma IdlesAndElapses(t: Transfer, n: Net, d: nat, m: Net)
    requires Steady(t, n, d) && Slack(t, d) && !Starting(n) && (n.s.phase.SendingConsecutive? ==> n.now < n.s.nextSend)
    requires n.s.phase.WaitingFlowControl? ==> n.now < n.r.fcDue
    requires m == Step(Heard(n), Elapse(d))
    ensures Steady(t, m, d) && m == n.(now := n.now + d)
  {
    Idles(t, n, d);
    CountElapsed(t, n, d, m);
  }

  /// Every tick keeps the sides in time and brings the transfer closer to its end.
  lemma TockProgress(t: Transfer, n: Net, d: nat, m: Net)
    requires Steady(t, n, d) && Slack(t, d) && Prompt(t, d) && !Both(n) && m == Tock(n, d)
    ensures Steady(t, m, d) && Closer(m, n)
  {
    var a := Answered(n);
    Answers(t, n, d, a);
    if Starting(a) || (a.s.phase.SendingConsecutive? && a.now >= a.s.nextSend) {
      SendsAndElapses(t, a, d, Heard(a), m);
    } else {
      IdlesAndElapses(t, a, d, m);
    }
  }

  lemma TocksComplete(t: Transfer, n: Net, d: nat) returns (k: nat)
    requires Steady(t, n, d) && Slack(t, d) && Prompt(t, d)
    ensures Both(Tocks(n, d, k)) && CountInv(t, Tocks(n, d, k))
  {
    var m := n;
    k := 0;
    while !Both(m)
      invariant m == Tocks(n, d, k) && Steady(t, m, d)
      decreases Consecutives(t) + 1 - m.sent, Turn(m), Delay(m)
    {
      var next := Tock(m, d);
      TockProgress(t, m, d, next);
      SentBound(t, next);
      OneMoreTock(n, d, k, m);
      m, k := next, k + 1;
    }
  }

  // ---- The timeout ----

  lemma SingleTock(t: Transfer, n: Net, d: nat)
    requires Begun(t, n) && !t.Segmented()
    ensures Both(Tock(n, d)) && Tock(n, d).r.payload == t.message && Tock(n, d).sent == 1
  {
    assert Answered(n) == n;
    var a := Step(n, PollSender);
    assert a.toR == [OnlyFrame(t)];
    SingleTaken(t, a.r, a.now);
  }

  /// Two sides polled every `d` nanoseconds, the receiver first in each tick, complete a message the receiver
  /// takes if a tick is shorter than N_Cr or no block holds two frames; at the cost of the other order.
  lemma ReceiverFirstCompletes(t: Transfer, n: Net, d: nat) returns (k: nat)
    requires Begun(t, n) && !TooLong(t) && Slack(t, d) && (t.Segmented() ==> Prompt(t, d))
    ensures var m := Tocks(n, d, k);
            && m.s.result.Ok? && m.r.result.Ok? && m.r.payload == t.message
            && (!t.Segmented() ==> m.sent == 1)
            && (t.Segmented() ==>
                  m.sent == 1 + Consecutives(t)
                  && m.granted == if t.back.blockSize == 0 then 1 else (Consecutives(t) + t.back.blockSize - 1) / t.back.blockSize)
  {
    if t.Segmented() {
      WindowAtStart(t, n, true);
      k := TocksComplete(t, n, d);
      CountAtOk(t, Tocks(n, d, k));
    } else {
      k := 1;
      SingleTock(t, n, d);
      assert Tocks(n, d, 0) == n;
      OneMoreTock(n, d, 0, n);
    }
  }

  /// Before the first Flow Control.
  ghost predicate Early(t: Transfer, n: Net, d: nat) {
    Steady(t, n, d) && n.granted == 0 && (Starting(n) || Granting(n, d))
  }

  lemma EarlyStart(t: Transfer, n: Net, d: nat, b: Net, m: Net)
    requires Early(t, n, d) && Starting(n) && Slack(t, d) && b == Heard(n) && m == Step(b, Elapse(d))
    ensures Early(t, m, d) && m.sent == n.sent + 1
  {
    Sends(t, n, d, b);
    SameGrant(n, b);
    CountElapsed(t, b, d, m);
  }

  lemma EarlyWait(t: Transfer, n: Net, d: nat, m: Net)
    requires Early(t, n, d) && !Starting(n) && n.now < n.r.fcDue && Slack(t, d) && m == Step(Heard(n), Elapse(d))
    ensures Early(t, m, d) && Closer(m, n)
  {
    IdlesAndElapses(t, n, d, m);
  }

  lemma EarlyTock(t: Transfer, n: Net, d: nat, m: Net)
    requires Early(t, n, d) && Slack(t, d) && (Granting(n, d) ==> n.now < n.r.fcDue) && m == Tock(n, d)
    ensures Early(t, m, d) && Closer(m, n)
  {
    var a := Answered(n);
    Answers(t, n, d, a);
    if Starting(n) {
      EarlyStart(t, n, d, Heard(a), m);
    } else {
      EarlyWait(t, n, d, m);
    }
  }

  /// The tick of the first Flow Control: the first Consecutive Frame follows at once, and the receiver waits
  /// for the second from then on.
  lemma GrantTock(t: Transfer, n: Net, d: nat, m: Net)
    requires Early(t, n, d) && Slack(t, d) && d == t.back.nCr && TwoInABlock(t)
    requires Granting(n, d) && n.now >= n.r.fcDue && m == Tock(n, d)
    ensures m.Sound() && m.r.phase.Receiving? && m.now >= m.r.deadline
  {
    var a := Answered(n);
    Answers(t, n, d, a);
    var b := Heard(a);
    Sends(t, a, d, b);
    FirstOfSeveral(t, a, b);
  }

  lemma TimesOut(n: Net, d: nat)
    requires n.Sound() && n.r.phase.Receiving? && n.now >= n.r.deadline
    ensures Tock(n, d).r.phase.Over? && Tock(n, d).r.result.TimeoutCr?
  {
  }

  lemma FirstOfSeveral(t: Transfer, a: Net, b: Net)
    requires CountInv(t, a) && Quiet(a) && a.s.phase.SendingConsecutive? && a.r.phase.Receiving? && a.sent == a.grantAt == 1
    requires CountInv(t, b) && Quiet(b) && b == Heard(a) && b.sent == a.sent + 1 && TwoInABlock(t)
    ensures b.r.phase.Receiving?
  {
    SameGrant(a, b);
    FrameCount(t, b.sent);
    QuietMeansDue(t, b);
  }

  /// With a tick as long as N_Cr the receiver gives up on the second frame of the first block, although it
  /// has been sent nothing late.
  lemma ReceiverFirstTimesOut(t: Transfer, n: Net, d: nat) returns (k: nat)
    requires Begun(t, n) && t.Segmented() && !TooLong(t) && Slack(t, d) && !Prompt(t, d)
    ensures Tocks(n, d, k).r.result.TimeoutCr?
  {
    WindowAtStart(t, n, true);
    var m := n;
    k := 0;
    while Starting(m) || m.now < m.r.fcDue
      invariant m == Tocks(n, d, k) && Early(t, m, d)
      decreases Consecutives(t) + 1 - m.sent, Turn(m), Delay(m)
    {
      var next := Tock(m, d);
      EarlyTock(t, m, d, next);
      SentBound(t, next);
      OneMoreTock(n, d, k, m);
      m, k := next, k + 1;
    }
    var last := Tock(m, d);
    GrantTock(t, m, d, last);
    OneMoreTock(n, d, k, m);
    OneMoreTock(n, d, k + 1, last);
    TimesOut(last, d);
    k := k + 2;
  }

  // ---- Exactly when ----

  ghost predicate OverIsFinal(r: ReceiverState) {
    r.phase.Over? <==> !r.result.InProgress?
  }

  lemma FinalKept(r: ReceiverState, frame: CanFrame, now: nat)
    requires r.Valid() && OverIsFinal(r)
    ensures OverIsFinal(ReceiverPoll(r, now).0) && OverIsFinal(ReceiverOnFrame(r, frame, now))
    ensures r.phase.Over? ==> ReceiverPoll(r, now) == (r, []) && ReceiverOnFrame(r, frame, now) == r
  {
  }

  lemma TockKeepsResult(n: Net, d: nat)
    requires n.Sound() && OverIsFinal(n.r)
    ensures OverIsFinal(Tock(n, d).r) && (n.r.phase.Over? ==> Tock(n, d).r == n.r)
  {
    var frame := CanFrame(n.s.cfg.address.txId, [], false, false);
    FinalKept(n.r, frame, n.now);
    var b := Step(Answered(n), PollSender);
    assert b.r == ReceiverPoll(n.r, n.now).0 && b.now == n.now;
    FinalKept(b.r, if b.toR == [] then frame else b.toR[0], b.now);
  }

  lemma FinalAlong(n: Net, d: nat, k: nat)
    requires n.Sound() && OverIsFinal(n.r)
    ensures OverIsFinal(Tocks(n, d, k).r)
  {
    var m, i := n, 0;
    while i < k
      invariant i <= k && m == Tocks(n, d, i) && OverIsFinal(m.r)
    {
      TockKeepsResult(m, d);
      OneMoreTock(n, d, i, m);
      m, i := Tock(m, d), i + 1;
    }
  }

  lemma ResultStays(n: Net, d: nat, j: nat, k: nat, over: Net)
    requires n.Sound() && OverIsFinal(n.r) && j <= k && over == Tocks(n, d, j) && over.r.phase.Over?
    ensures Tocks(n, d, k).r == over.r
  {
    FinalAlong(n, d, j);
    var m, i := over, j;
    while i < k
      invariant j <= i <= k && m == Tocks(n, d, i) && m.r == over.r && OverIsFinal(m.r)
    {
      TockKeepsResult(m, d);
      OneMoreTock(n, d, i, m);
      m, i := Tock(m, d), i + 1;
    }
  }

  /// Both sides keep to their times by a whole tick, and still the receiver times out exactly when STmin is
  /// zero, a tick is as long as N_Cr and some block holds two frames or more.
  lemma TimesOutExactly(t: Transfer, n: Net, d: nat)
    requires Begun(t, n) && !TooLong(t) && Slack(t, d)
    ensures (exists k :: Tocks(n, d, k).r.result.TimeoutCr?)
       <==> t.Segmented() && Gap(t) == 0 && d == t.back.nCr && TwoInABlock(t)
  {
    if t.Segmented() && !Prompt(t, d) {
      var k := ReceiverFirstTimesOut(t, n, d);
    } else {
      var k := ReceiverFirstCompletes(t, n, d);
      forall j
        ensures !Tocks(n, d, j).r.result.TimeoutCr?
      {
        FinalAlong(n, d, k);
        FinalAlong(n, d, j);
        if j <= k && Tocks(n, d, j).r.phase.Over? {
          ResultStays(n, d, j, k, Tocks(n, d, j));
        } else if k <= j {
          ResultStays(n, d, k, j, Tocks(n, d, k));
        }
      }
    }
  }
}
