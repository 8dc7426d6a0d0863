/// Reading a written database back: scanning and parsing its VERSION, NS_, BS_, BU_, BO_, SG_ and SG_MUL_VAL_
/// lines restores it.
module DbcRoundTrip {
  import opened Lexer
  import opened Glyphs
  import opened Frame
  import opened DbcWriter
  import opened DbcParser
  import opened WrittenDbc
  import opened DbcReading
  import opened DbcPreamble
  import Multiplexing

  // ---- What is known half-way ----

  /// The first `j` signals with what their SG_MUL_VAL_ lines say, and the rest without.
  function Partly(ss: seq<DbcSignal>, j: nat): (r: seq<DbcSignal>) {
    seq(|ss|, k requires 0 <= k < |ss| => if k < j then ss[k] else Bare(ss[k]))
  }

  function BareMessage(m: DbcMessage): DbcMessage {
    m.(signals := Partly(m.signals, 0))
  }

  /// The first `i` messages are complete, and of the next one the first `j` signals.
  function Half(ms: seq<DbcMessage>, i: nat, j: nat): seq<DbcMessage> {
    seq(|ms|, k requires 0 <= k < |ms| =>
      if k < i then ms[k] else if k == i then ms[k].(signals := Partly(ms[k].signals, j)) else BareMessage(ms[k]))
  }

  /// The signal is switched by one that its message does not have.
  predicate Dangling(s: DbcSignal, ss: seq<DbcSignal>) {
    s.ranges != [] && forall k | 0 <= k < |ss| :: ss[k].name != s.switchName
  }

  predicate DanglingUpTo(ss: seq<DbcSignal>, j: nat)
    requires j <= |ss|
  {
    j > 0 && (DanglingUpTo(ss, j - 1) || Dangling(ss[j - 1], ss))
  }

  predicate DanglingIn(ms: seq<DbcMessage>, i: nat)
    requires i <= |ms|
  {
    i > 0 && (DanglingIn(ms, i - 1) || DanglingUpTo(ms[i - 1].signals, |ms[i - 1].signals|))
  }

  lemma PartlyEnds(ss: seq<DbcSignal>, j: nat)
    requires 0 < j <= |ss|
    ensures Partly(ss[..j], 0) == Partly(ss[..j - 1], 0) + [Bare(ss[j - 1])]
  {
  }

  lemma HalfEnds(ms: seq<DbcMessage>, i: nat)
    requires 0 < i <= |ms|
    ensures Half(ms[..i], 0, 0) == Half(ms[..i - 1], 0, 0) + [BareMessage(ms[i - 1])]
  {
  }

  /// A signal without ranges is complete from the start.
  lemma PartlySkips(ss: seq<DbcSignal>, j: nat)
    requires j < |ss| && Bare(ss[j]) == ss[j]
    ensures Partly(ss, j) == Partly(ss, j + 1)
  {
  }

  lemma HalfSkips(ms: seq<DbcMessage>, i: nat, j: nat)
    requires i < |ms| && j < |ms[i].signals| && Bare(ms[i].signals[j]) == ms[i].signals[j]
    ensures Half(ms, i, j) == Half(ms, i, j + 1)
  {
    PartlySkips(ms[i].signals, j);
  }

  lemma HalfSwitched(ms: seq<DbcMessage>, i: nat, j: nat, ss: seq<DbcSignal>)
    requires i < |ms| && ss == Partly(ms[i].signals, j + 1)
    ensures Half(ms, i, j)[i := Half(ms, i, j)[i].(signals := ss)] == Half(ms, i, j + 1)
  {
  }

  lemma PartlySwitched(ss: seq<DbcSignal>, j: nat, s: DbcSignal)
    requires j < |ss| && s == ss[j] && Switchable(s)
    ensures Partly(ss, j)[j := Switched(Partly(ss, j)[j], s.switchName, s.ranges)] == Partly(ss, j + 1)
  {
    assert Switched(Bare(s), s.switchName, s.ranges) == s;
  }

  // ---- Messages ----

  /// Neither a list nor a message goes on here.
  predicate Over(ts: seq<Token>, c: Cursor)
    requires Ended(ts)
  {
    !Current(ts, c).kind.Comma? && !Current(ts, c).IsWord("SG_")
  }

  predicate SignalsTo(ts: seq<Token>, c: Cursor, dlc: nat, ss: seq<DbcSignal>, d: Cursor)
    requires Ended(ts)
  {
    ParseSignals(ts, c, dlc).0 == ss + ParseSignals(ts, d, dlc).0 && ParseSignals(ts, c, dlc).1 == ParseSignals(ts, d, dlc).1
  }

  /// Parsing at `c` gives `ss`, and what may follow them at `d`; quantified for the same reason as `Lies`.
  ghost predicate SignalsUpTo(ts: seq<Token>, c: Cursor, dlc: nat, ss: seq<DbcSignal>, d: Cursor)
    requires Ended(ts)
  {
    forall rs: seq<DbcSignal> :: rs == ss ==> SignalsTo(ts, c, dlc, rs, d)
  }

  /// The tokens from `p` up to `q` are those of the signal.
  ghost predicate SignalLies(ts: seq<Token>, p: nat, s: DbcSignal, q: nat) {
    forall gs: seq<Glyph> :: gs == SignalGlyphs(s) ==> Lie(ts, p, gs, q)
  }

  lemma SignalAdded(ts: seq<Token>, c: Cursor, dlc: nat, front: seq<DbcSignal>, d: Cursor, s: DbcSignal, q: nat)
    requires Ended(ts) && SignalsUpTo(ts, c, dlc, front, d) && GoodSignal(s, dlc)
    requires SignalLies(ts, d.at, s, q) && !Current(ts, To(d, q)).kind.Comma?
    ensures Current(ts, d).IsWord("SG_") && SignalsUpTo(ts, c, dlc, front + [Bare(s)], To(d, q))
  {
    assert Lies(ts, d.at, SignalGlyphs(s), q);
    SignalParses(ts, d, s, dlc, q);
    assert SignalsTo(ts, c, dlc, front, d);
    SignalStep(ts, c, dlc, front, d, Bare(s), To(d, q));
  }

  lemma SignalStarts(ts: seq<Token>, c: Cursor, s: DbcSignal, dlc: nat, q: nat)
    requires Ended(ts) && GoodSignal(s, dlc) && SignalLies(ts, c.at, s, q) && !Current(ts, To(c, q)).kind.Comma?
    ensures Current(ts, c).IsWord("SG_")
  {
    assert Lies(ts, c.at, SignalGlyphs(s), q);
    SignalParses(ts, c, s, dlc, q);
  }

  lemma SignalsShown(ts: seq<Token>, p: nat, ss: seq<DbcSignal>, j: nat, q: nat) returns (r: nat)
    requires 0 < j <= |ss| && Lies(ts, p, SignalsGlyphs(ss[..j]), q)
    ensures Lies(ts, p, SignalsGlyphs(ss[..j - 1]), r) && SignalLies(ts, r, ss[j - 1], q)
  {
    assert ss[..j][..j - 1] == ss[..j - 1];
    r := Split(ts, p, SignalsGlyphs(ss[..j - 1]), SignalGlyphs(ss[j - 1]), q);
  }

  lemma SignalStep(ts: seq<Token>, c: Cursor, dlc: nat, front: seq<DbcSignal>, d: Cursor, s: DbcSignal, e: Cursor)
    requires Ended(ts) && SignalsTo(ts, c, dlc, front, d)
    requires Current(ts, d).IsWord("SG_") && ParseSignal(ts, Bump(ts, d), dlc) == Next(s, e)
    ensures SignalsTo(ts, c, dlc, front + [s], e)
  {
  }

  lemma {:induction false} SignalsParse(ts: seq<Token>, c: Cursor, ss: seq<DbcSignal>, dlc: nat, j: nat, q: nat)
    requires Ended(ts) && GoodSignals(ss, dlc) && j <= |ss| && Lies(ts, c.at, SignalsGlyphs(ss[..j]), q)
    requires !Current(ts, To(c, q)).kind.Comma?
    ensures SignalsUpTo(ts, c, dlc, Partly(ss[..j], 0), To(c, q))
    decreases j
  {
    if j == 0 {
      assert Lie(ts, c.at, [], q);
    } else {
      var p := SignalsShown(ts, c.at, ss, j, q);
      SignalStarts(ts, To(c, p), ss[j - 1], dlc, q);
      SignalsParse(ts, c, ss, dlc, j - 1, p);
      SignalAdded(ts, c, dlc, Partly(ss[..j - 1], 0), To(c, p), ss[j - 1], q);
      PartlyEnds(ss, j);
    }
  }

  lemma SignalsEnd(ts: seq<Token>, c: Cursor, dlc: nat, ss: seq<DbcSignal>, d: Cursor)
    requires Ended(ts) && SignalsUpTo(ts, c, dlc, ss, d) && Over(ts, d)
    ensures ParseSignals(ts, c, dlc).0 == ss && ParseSignals(ts, c, dlc).1 == d
  {
    assert SignalsTo(ts, c, dlc, ss, d);
  }

  lemma MessageShown(ts: seq<Token>, p: nat, head: seq<Glyph>, signals: seq<Glyph>, q: nat) returns (r: nat)
    requires Lies(ts, p, head + signals + [NEWLINE], q)
    ensures Lies(ts, p, head, r) && Lies(ts, r, signals, q)
  {
    var r2 := Split(ts, p, head + signals, [NEWLINE], q);
    LiesOne(ts, r2, NEWLINE, q);
    r := Split(ts, p, head, signals, r2);
  }

  lemma MessageAdded(ts: seq<Token>, c: Cursor, m: DbcMessage, d: Cursor, ss: seq<DbcSignal>, e: Cursor, db: seq<DbcMessage>)
    requires Ended(ts) && ParseHead(ts, c) == Next(m, d) && ParseSignals(ts, d, m.dlc).0 == ss && ParseSignals(ts, d, m.dlc).1 == e
    ensures ParseMessage(ts, c, db).0 == db + [m.(signals := ss)] && ParseMessage(ts, c, db).1 == e
  {
  }

  /// A written message is read back, but for its SG_MUL_VAL_ lines.
  lemma MessageParses(ts: seq<Token>, c: Cursor, m: DbcMessage, db: seq<DbcMessage>, q: nat)
    requires Ended(ts) && GoodMessage(m) && Lies(ts, c.at, MessageGlyphs(m), q) && Over(ts, To(c, q))
    ensures Current(ts, c).IsWord("BO_") && ParseMessage(ts, Bump(ts, c), db).0 == db + [BareMessage(m)]
    ensures ParseMessage(ts, Bump(ts, c), db).1 == To(c, q)
  {
    var p := MessageShown(ts, c.at, HeadGlyphs(m), SignalsGlyphs(m.signals), q);
    HeadParses(ts, c, m, p);
    assert m.signals[..|m.signals|] == m.signals;
    SignalsParse(ts, To(c, p), m.signals, m.dlc, |m.signals|, q);
    SignalsEnd(ts, To(c, p), m.dlc, Partly(m.signals, 0), To(c, q));
    MessageAdded(ts, Bump(ts, c), m.(signals := []), To(c, p), Partly(m.signals, 0), To(c, q), db);
  }

  predicate Continues(ts: seq<Token>, h: Preamble, c: Cursor, db: seq<DbcMessage>, d: Cursor, eb: seq<DbcMessage>)
    requires Ended(ts)
  {
    Run(ts, c, h, db) == Run(ts, d, h, eb)
  }

  /// The parser comes from `c` to `d`, where it has made `eb` of `db`.
  ghost predicate Reaches(ts: seq<Token>, h: Preamble, c: Cursor, db: seq<DbcMessage>, d: Cursor, eb: seq<DbcMessage>)
    requires Ended(ts)
  {
    forall hb: seq<DbcMessage> :: hb == eb ==> Continues(ts, h, c, db, d, hb)
  }

  lemma ReachesOn(ts: seq<Token>, h: Preamble, c: Cursor, db: seq<DbcMessage>, d: Cursor, eb: seq<DbcMessage>, e: Cursor, fb: seq<DbcMessage>)
    requires Ended(ts) && Reaches(ts, h, c, db, d, eb) && Reaches(ts, h, d, eb, e, fb)
    ensures Reaches(ts, h, c, db, e, fb)
  {
    assert Continues(ts, h, c, db, d, eb) && Continues(ts, h, d, eb, e, fb);
  }

  lemma MessageRuns(ts: seq<Token>, h: Preamble, c: Cursor, m: DbcMessage, db: seq<DbcMessage>, q: nat)
    requires Ended(ts) && GoodMessage(m) && Lies(ts, c.at, MessageGlyphs(m), q) && Over(ts, To(c, q))
    ensures Over(ts, c) && Reaches(ts, h, c, db, To(c, q), db + [BareMessage(m)])
  {
    MessageParses(ts, c, m, db, q);
    RunsMessage(ts, h, c, db, To(c, q), db + [BareMessage(m)]);
  }

  lemma RunsMessage(ts: seq<Token>, h: Preamble, c: Cursor, db: seq<DbcMessage>, d: Cursor, eb: seq<DbcMessage>)
    requires Ended(ts) && Current(ts, c).IsWord("BO_")
    requires ParseMessage(ts, Bump(ts, c), db).0 == eb && ParseMessage(ts, Bump(ts, c), db).1 == d
    ensures Continues(ts, h, c, db, d, eb)
  {
  }

  lemma {:induction false} MessagesRun(ts: seq<Token>, h: Preamble, c: Cursor, ms: seq<DbcMessage>, i: nat, q: nat)
    requires Ended(ts) && GoodDatabase(ms) && i <= |ms| && Lies(ts, c.at, MessagesGlyphs(ms[..i]), q) && Over(ts, To(c, q))
    ensures Reaches(ts, h, c, [], To(c, q), Half(ms[..i], 0, 0))
    decreases i
  {
    if i == 0 {
      assert Lie(ts, c.at, [], q);
    } else {
      assert ms[..i][..i - 1] == ms[..i - 1];
      var p := Split(ts, c.at, MessagesGlyphs(ms[..i - 1]), MessageGlyphs(ms[i - 1]), q);
      MessageRuns(ts, h, To(c, p), ms[i - 1], Half(ms[..i - 1], 0, 0), q);
      MessagesRun(ts, h, c, ms, i - 1, p);
      HalfEnds(ms, i);
      ReachesOn(ts, h, c, [], To(c, p), Half(ms[..i - 1], 0, 0), To(c, q), Half(ms[..i], 0, 0));
    }
  }

  // ---- Extended multiplexing ----

  lemma {:induction false} FindsMessage(db: seq<DbcMessage>, id: CanId, i: nat, k: nat)
    requires i <= k < |db| && db[k].id == id && forall j | 0 <= j < k :: db[j].id != id
    ensures FindMessage(db, id, i) == k
    decreases k - i
  {
    if i < k {
      FindsMessage(db, id, i + 1, k);
    }
  }

  lemma {:induction false} FindsSignal(ss: seq<DbcSignal>, name: string, i: nat, k: nat)
    requires i <= k <= |ss| && (k < |ss| ==> ss[k].name == name) && forall j | 0 <= j < k :: ss[j].name != name
    ensures FindSignal(ss, name, i) == k
    decreases k - i
  {
    if i < k {
      FindsSignal(ss, name, i + 1, k);
    }
  }

  lemma {:induction false} MissesSignal(ss: seq<DbcSignal>, name: string, i: nat)
    requires i <= |ss| && forall j | 0 <= j < i :: ss[j].name != name
    ensures FindSignal(ss, name, i) == |ss| <==> forall j | 0 <= j < |ss| :: ss[j].name != name
    decreases |ss| - i
  {
    if i < |ss| && ss[i].name != name {
      MissesSignal(ss, name, i + 1);
    }
  }

  /// One more signal is complete.
  lemma SignalSwitched(ss: seq<DbcSignal>, dlc: nat, j: nat)
    requires GoodSignals(ss, dlc) && j < |ss| && ss[j].ranges != []
    ensures var (half, s) := (Partly(ss, j), ss[j]);
            && FindSignal(half, s.name, 0) == j
            && half[j := Switched(half[j], s.switchName, s.ranges)] == Partly(ss, j + 1)
            && (FindSignal(half, s.switchName, 0) == |half| <==> Dangling(s, ss))
  {
    var half, s := Partly(ss, j), ss[j];
    assert forall k | 0 <= k < |ss| :: half[k].name == ss[k].name;
    assert GoodSignal(s, dlc);
    PartlySwitched(ss, j, s);
    FindsSignal(half, s.name, 0, j);
    MissesSignal(half, s.switchName, 0);
    assert Dangling(s, ss) <==> forall k | 0 <= k < |half| :: half[k].name != s.switchName;
  }

  lemma SwitchApplies(ms: seq<DbcMessage>, i: nat, j: nat, c: Cursor, s: DbcSignal)
    requires GoodDatabase(ms) && i < |ms| && j < |ms[i].signals| && s == ms[i].signals[j] && s.ranges != []
    ensures var r := ApplySwitch(Half(ms, i, j), c, SwitchLine(WireId(ms[i].id), s.name, s.switchName), s.ranges);
            r.0 == Half(ms, i, j + 1) && r.1 == c.WarningIf(Dangling(s, ms[i].signals))
  {
    var db, ss := Half(ms, i, j), ms[i].signals;
    IdReads(ms[i].id, c);
    assert GoodMessage(ms[i]);
    FindsMessage(db, ms[i].id, 0, i);
    SignalSwitched(ss, ms[i].dlc, j);
    HalfSwitched(ms, i, j, Partly(ss, j + 1));
  }

  lemma RunsSwitch(ts: seq<Token>, h: Preamble, c: Cursor, db: seq<DbcMessage>, d: Cursor, eb: seq<DbcMessage>)
    requires Ended(ts) && Current(ts, c).IsWord("SG_MUL_VAL_")
    requires ParseSwitch(ts, Bump(ts, c), db).0 == eb && ParseSwitch(ts, Bump(ts, c), db).1 == d
    ensures Continues(ts, h, c, db, d, eb)
  {
  }

  lemma SwitchRuns(ts: seq<Token>, h: Preamble, c: Cursor, ms: seq<DbcMessage>, i: nat, j: nat, s: DbcSignal, q: nat)
    requires Ended(ts) && GoodDatabase(ms) && i < |ms| && j < |ms[i].signals| && s == ms[i].signals[j]
    requires Lies(ts, c.at, SwitchGlyphs(ms[i].id, s), q)
    ensures Reaches(ts, h, c, Half(ms, i, j), To(c, q).WarningIf(Dangling(s, ms[i].signals)), Half(ms, i, j + 1))
  {
    assert GoodMessage(ms[i]) && GoodSignal(s, ms[i].dlc);
    if s.ranges == [] {
      assert Lie(ts, c.at, [], q);
      HalfSkips(ms, i, j);
    } else {
      var d := SwitchLineParses(ts, c, ms[i].id, s, q);
      SwitchApplies(ms, i, j, To(c, q), s);
      RunsSwitch(ts, h, c, Half(ms, i, j), To(c, q).WarningIf(Dangling(s, ms[i].signals)), Half(ms, i, j + 1));
    }
  }

  lemma {:induction false} SwitchesRun(ts: seq<Token>, h: Preamble, c: Cursor, ms: seq<DbcMessage>, i: nat, j: nat, q: nat)
    requires Ended(ts) && GoodDatabase(ms) && i < |ms| && j <= |ms[i].signals|
    requires Lies(ts, c.at, SwitchesGlyphs(ms[i].id, ms[i].signals[..j]), q)
    ensures Reaches(ts, h, c, Half(ms, i, 0), To(c, q).WarningIf(DanglingUpTo(ms[i].signals, j)), Half(ms, i, j))
    decreases j
  {
    var ss, id := ms[i].signals, ms[i].id;
    if j == 0 {
      assert Lie(ts, c.at, [], q);
    } else {
      assert ss[..j][..j - 1] == ss[..j - 1];
      var p := Split(ts, c.at, SwitchesGlyphs(id, ss[..j - 1]), SwitchGlyphs(id, ss[j - 1]), q);
      var d := To(c, p).WarningIf(DanglingUpTo(ss, j - 1));
      SwitchesRun(ts, h, c, ms, i, j - 1, p);
      SwitchRuns(ts, h, d, ms, i, j - 1, ss[j - 1], q);
      ReachesOn(ts, h, c, Half(ms, i, 0), d, Half(ms, i, j - 1), To(c, q).WarningIf(DanglingUpTo(ss, j)), Half(ms, i, j));
    }
  }

  /// The tokens from `p` up to `q` are those of the message's SG_MUL_VAL_ lines.
  ghost predicate SwitchesLie(ts: seq<Token>, p: nat, m: DbcMessage, q: nat) {
    forall gs: seq<Glyph> :: gs == SwitchesGlyphs(m.id, m.signals) ==> Lie(ts, p, gs, q)
  }

  lemma AllSwitchesShown(ts: seq<Token>, p: nat, ms: seq<DbcMessage>, i: nat, q: nat) returns (r: nat)
    requires 0 < i <= |ms| && Lies(ts, p, AllSwitches(ms[..i]), q)
    ensures Lies(ts, p, AllSwitches(ms[..i - 1]), r) && SwitchesLie(ts, r, ms[i - 1], q)
  {
    var m := ms[i - 1];
    assert ms[..i][..i - 1] == ms[..i - 1];
    r := Split(ts, p, AllSwitches(ms[..i - 1]), SwitchesGlyphs(m.id, m.signals), q);
  }

  predicate Warns(b: Cursor, ms: seq<DbcMessage>, i: nat, d: Cursor) {
    i <= |ms| && d == To(b, d.at).WarningIf(DanglingIn(ms, i))
  }

  /// From `b` to `d` there was a warning exactly if one of the first `i` messages has a signal whose switch is
  /// missing; quantified for the same reason as `Lies`.
  ghost predicate Warned(b: Cursor, ms: seq<DbcMessage>, i: nat, d: Cursor) {
    forall ns: seq<DbcMessage> :: ns == ms ==> Warns(b, ns, i, d)
  }

  /// `GoodDatabase`, quantified for the same reason.
  ghost predicate Good(ms: seq<DbcMessage>) {
    forall ns: seq<DbcMessage> :: ns == ms ==> GoodDatabase(ns)
  }

  lemma MessageSwitched(ts: seq<Token>, h: Preamble, b: Cursor, ms: seq<DbcMessage>, i: nat, c: Cursor, q: nat) returns (d: Cursor)
    requires Ended(ts) && Good(ms) && i < |ms| && Reaches(ts, h, b, Half(ms, 0, 0), c, Half(ms, i, 0))
    requires SwitchesLie(ts, c.at, ms[i], q) && Warned(b, ms, i, c)
    ensures d.at == q && Warned(b, ms, i + 1, d) && Reaches(ts, h, b, Half(ms, 0, 0), d, Half(ms, i + 1, 0))
  {
    assert GoodDatabase(ms);
    var ss := ms[i].signals;
    assert ss[..|ss|] == ss;
    d := To(c, q).WarningIf(DanglingUpTo(ss, |ss|));
    SwitchesRun(ts, h, c, ms, i, |ss|, q);
    MessageDone(ms, i);
    ReachesOn(ts, h, b, Half(ms, 0, 0), c, Half(ms, i, 0), d, Half(ms, i + 1, 0));
    assert Warns(b, ms, i, c);
  }

  lemma {:induction false} AllSwitchesRun(ts: seq<Token>, h: Preamble, c: Cursor, ms: seq<DbcMessage>, i: nat, q: nat) returns (d: Cursor)
    requires Ended(ts) && Good(ms) && i <= |ms| && Lies(ts, c.at, AllSwitches(ms[..i]), q)
    ensures d.at == q && Warned(c, ms, i, d) && Reaches(ts, h, c, Half(ms, 0, 0), d, Half(ms, i, 0))
    decreases i
  {
    if i == 0 {
      assert Lie(ts, c.at, [], q);
      d := c;
    } else {
      var p := AllSwitchesShown(ts, c.at, ms, i, q);
      var e := AllSwitchesRun(ts, h, c, ms, i - 1, p);
      d := MessageSwitched(ts, h, c, ms, i - 1, e, q);
    }
  }

  lemma MessageDone(ms: seq<DbcMessage>, i: nat)
    requires i < |ms|
    ensures Half(ms, i, |ms[i].signals|) == Half(ms, i + 1, 0)
  {
    assert Partly(ms[i].signals, |ms[i].signals|) == ms[i].signals;
  }

  // ---- What follows the messages ----

  lemma {:induction false} SwitchesStart(ts: seq<Token>, c: Cursor, id: CanId, ss: seq<DbcSignal>, dlc: nat, q: nat)
    requires Ended(ts) && (forall k | 0 <= k < |ss| :: GoodSignal(ss[k], dlc))
    requires Lies(ts, c.at, SwitchesGlyphs(id, ss), q) && Over(ts, To(c, q))
    ensures Over(ts, c)
    decreases |ss|
  {
    if ss == [] {
      assert Lie(ts, c.at, [], q);
    } else {
      var front, last := ss[..|ss| - 1], ss[|ss| - 1];
      var p := Split(ts, c.at, SwitchesGlyphs(id, front), SwitchGlyphs(id, last), q);
      SwitchStartsOver(ts, To(c, p), id, last, dlc, q);
      SwitchesStart(ts, c, id, front, dlc, p);
    }
  }

  lemma SwitchStartsOver(ts: seq<Token>, c: Cursor, id: CanId, s: DbcSignal, dlc: nat, q: nat)
    requires Ended(ts) && GoodSignal(s, dlc) && Lies(ts, c.at, SwitchGlyphs(id, s), q) && Over(ts, To(c, q))
    ensures Over(ts, c)
  {
    if s.ranges == [] {
      assert Lie(ts, c.at, [], q);
    } else {
      var d := SwitchLineParses(ts, c, id, s, q);
    }
  }

  lemma {:induction false} AllSwitchesStart(ts: seq<Token>, c: Cursor, ms: seq<DbcMessage>, q: nat)
    requires Ended(ts) && (forall k | 0 <= k < |ms| :: GoodMessage(ms[k])) && Lies(ts, c.at, AllSwitches(ms), q) && Over(ts, To(c, q))
    ensures Over(ts, c)
    decreases |ms|
  {
    if ms == [] {
      assert Lie(ts, c.at, [], q);
    } else {
      var front, last := ms[..|ms| - 1], ms[|ms| - 1];
      var p := Split(ts, c.at, AllSwitches(front), SwitchesGlyphs(last.id, last.signals), q);
      SwitchesStart(ts, To(c, p), last.id, last.signals, last.dlc, q);
      AllSwitchesStart(ts, c, front, p);
    }
  }

  lemma {:induction false} FirstMessage(ms: seq<DbcMessage>)
    requires ms != []
    ensures MessagesGlyphs(ms) != [] && MessagesGlyphs(ms)[0] == Word("BO_")
  {
    if |ms| > 1 {
      FirstMessage(ms[..|ms| - 1]);
    } else {
      assert ms[..0] == [];
    }
  }

  /// The messages begin a line, if there are any.
  lemma MessagesLead(ts: seq<Token>, c: Cursor, ms: seq<DbcMessage>, q: nat, next: bool)
    requires Ended(ts) && Lays(ts, c.at, true, DatabaseGlyphs(ms), q, next) && |ts| == q + 1
    ensures var t := Current(ts, c); !t.kind.Comma? && (t.kind.Identifier? ==> t.first)
  {
    var gs := DatabaseGlyphs(ms);
    if ms == [] {
      assert Lay(ts, c.at, true, [], q, next);
    } else {
      FirstMessage(ms);
      assert gs == [gs[0]] + gs[1..];
      KeywordLeads(ts, c.at, true, gs[0], gs[1..], q, next);
      OnToken(ts, c, gs[0]);
    }
  }

  // ---- The whole ----

  lemma MessagesRestore(ts: seq<Token>, h: Preamble, c: Cursor, ms: seq<DbcMessage>, n: nat)
    requires Ended(ts) && GoodDatabase(ms) && Lies(ts, c.at, DatabaseGlyphs(ms), n) && |ts| == n + 1
    ensures Run(ts, c, h, []) == Finished(h, ms, To(c, n).WarningIf(DanglingIn(ms, |ms|)))
  {
    var p := Split(ts, c.at, MessagesGlyphs(ms), AllSwitches(ms), n);
    AllSwitchesStart(ts, To(c, p), ms, n);
    assert ms[..|ms|] == ms && Half(ms, |ms|, 0) == ms;
    MessagesRun(ts, h, c, ms, |ms|, p);
    var end := AllSwitchesRun(ts, h, To(c, p), ms, |ms|, n);
    assert Warns(To(c, p), ms, |ms|, end);
    ReachesOn(ts, h, c, [], To(c, p), Half(ms, 0, 0), end, ms);
    assert Continues(ts, h, c, [], end, ms);
  }

  lemma TokensRestore(ts: seq<Token>, h: Preamble, ms: seq<DbcMessage>, n: nat, next: bool)
    requires Ended(ts) && GoodPreamble(h) && GoodDatabase(ms) && Lays(ts, 0, true, FileGlyphs(h, ms), n, next) && |ts| == n + 1
    ensures Run(ts, Cursor(0, false, false), EMPTY, []) == Finished(h, ms, Cursor(n, false, DanglingIn(ms, |ms|)))
  {
    var start := Cursor(0, false, false);
    var p, lead := Cut(ts, 0, true, PreambleGlyphs(h), DatabaseGlyphs(ms), n, next);
    PreambleEndsLine(ts, h, p, lead);
    MessagesLead(ts, To(start, p), ms, n, next);
    PreambleParses(ts, start, h, p, lead, []);
    LaysLies(ts, p, lead, DatabaseGlyphs(ms), n, next);
    MessagesRestore(ts, h, To(start, p), ms, n);
  }

  lemma PreambleEndsLine(ts: seq<Token>, h: Preamble, q: nat, next: bool)
    requires Lays(ts, 0, true, PreambleGlyphs(h), q, next)
    ensures next
  {
    var g := VersionGlyphs(h.version) + SymbolsGlyphs(h.symbols) + TimingGlyphs(h.timing);
    var p, lead := Cut(ts, 0, true, g, NodesGlyphs(h.nodes), q, next);
    var r, last := NodesShown(ts, p, lead, NodeGlyphs(h.nodes), q, next);
  }

  lemma {:induction false} DanglingFound(ss: seq<DbcSignal>, j: nat)
    requires j <= |ss|
    ensures DanglingUpTo(ss, j) <==> exists k :: 0 <= k < j && Dangling(ss[k], ss)
  {
    if j > 0 {
      DanglingFound(ss, j - 1);
    }
  }

  lemma {:induction false} DanglingMessageFound(ms: seq<DbcMessage>, i: nat)
    requires i <= |ms|
    ensures DanglingIn(ms, i) <==> exists m, k :: 0 <= m < i && 0 <= k < |ms[m].signals| && Dangling(ms[m].signals[k], ms[m].signals)
  {
    if i > 0 {
      DanglingMessageFound(ms, i - 1);
      DanglingFound(ms[i - 1].signals, |ms[i - 1].signals|);
    }
  }

  /// Some signal is switched by one that its message does not have.
  ghost predicate Dangles(ms: seq<DbcMessage>) {
    exists m, k :: 0 <= m < |ms| && 0 <= k < |ms[m].signals| && Dangling(ms[m].signals[k], ms[m].signals)
  }

  lemma TextTokens(gs: seq<Glyph>, text: string, x: Lexed) returns (n: nat, next: bool)
    requires Separated(gs, '\0') && text == Render(gs) && x == Lex(text, 0, true)
    ensures x.ok && Ended(x.tokens) && |x.tokens| == n + 1 && Lays(x.tokens, 0, true, gs, n, next)
  {
    assert x.tokens[0..] == x.tokens;
    LexRender(text, 0, gs, true, x.tokens, 0);
    n, next := Tokens(gs), LeadsAfter(gs, true);
    Laid(x.tokens, 0, true, gs, n, next);
  }

  /// Scanning and parsing what was written restores the database without an error; there is a warning exactly
  /// if some signal is switched by one that its message does not have.
  lemma RoundTrip(h: Preamble, ms: seq<DbcMessage>, text: string, x: Lexed)
    requires GoodPreamble(h) && GoodDatabase(ms) && text == Render(FileGlyphs(h, ms)) && x == Lex(text, 0, true)
    ensures x.ok && Ended(x.tokens)
    ensures var r := Run(x.tokens, Cursor(0, false, false), EMPTY, []);
            r.Finished? && r.preamble == h && r.messages == ms && !r.cursor.errors && (r.cursor.warnings <==> Dangles(ms))
  {
    FileSeparated(h, ms);
    var n, next := TextTokens(FileGlyphs(h, ms), text, x);
    TokensRestore(x.tokens, h, ms, n, next);
    DanglingMessageFound(ms, |ms|);
  }
}
