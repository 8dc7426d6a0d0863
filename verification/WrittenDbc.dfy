/// The databases that a DBC file can hold, and that a scanner finds the end of everything written about them.
module WrittenDbc {
  import opened Text
  import opened Lexer
  import opened Glyphs
  import opened Frame
  import opened DbcWriter
  import opened DbcParser
  import Multiplexing
  import Signal

  // ---- What can be written and read back ----

  predicate IsNumber(n: Number) {
    IsLiteral(n.literal)
  }

  predicate IsNode(name: string) {
    IsName(name) && name != NO_NODE
  }

  predicate Switchable(s: DbcSignal) {
    s.role.Multiplexed? || s.role.Both?
  }

  predicate IsRange(r: Multiplexing.MuxRange) {
    r.low <= r.high < WORD32
  }

  /// A signal of a message of `dlc` bytes that a database can hold.
  predicate GoodSignal(s: DbcSignal, dlc: nat) {
    && IsName(s.name)
    && s.muxValue < WORD32 && (!Switchable(s) ==> s.muxValue == 0)
    && s.layout.startBit <= 511 && s.layout.Fits(dlc)
    && IsNumber(s.factor) && !IsZero(s.factor) && IsNumber(s.offset) && IsNumber(s.minimum) && IsNumber(s.maximum)
    && (forall k | 0 <= k < |s.receivers| :: IsNode(s.receivers[k]))
    && (forall k | 0 <= k < |s.ranges| :: IsRange(s.ranges[k]))
    && (if s.ranges == [] then s.switchName == "" else IsName(s.switchName) && Switchable(s))
  }

  predicate GoodSignals(ss: seq<DbcSignal>, dlc: nat) {
    && (forall k | 0 <= k < |ss| :: GoodSignal(ss[k], dlc))
    && (forall j, k | 0 <= j < k < |ss| :: ss[j].name != ss[k].name)
  }

  predicate GoodMessage(m: DbcMessage) {
    && IsName(m.name) && (m.transmitter == "" || IsNode(m.transmitter))
    && m.dlc <= 64 && (m.fd <==> m.dlc > 8)
    && GoodSignals(m.signals, m.dlc)
  }

  predicate GoodDatabase(ms: seq<DbcMessage>) {
    && (forall k | 0 <= k < |ms| :: GoodMessage(ms[k]))
    && (forall j, k | 0 <= j < k < |ms| :: ms[j].id != ms[k].id)
  }

  predicate GoodTiming(t: BusTiming) {
    t.BusTiming? ==> t.baudrate < WORD32 && t.btr1 < WORD32 && t.btr2 < WORD32
  }

  predicate GoodPreamble(h: Preamble) {
    && (forall k | 0 <= k < |h.symbols| :: IsName(h.symbols[k]) && h.symbols[k] != "BS_")
    && GoodTiming(h.timing)
    && (forall k | 0 <= k < |h.nodes| :: IsNode(h.nodes[k]))
    && (forall j, k | 0 <= j < k < |h.nodes| :: h.nodes[j] != h.nodes[k])
  }

  // ---- The glyphs keep apart ----

  predicate Solid(g: Glyph) {
    !g.Mark? && !g.Blank?
  }

  predicate Formed(g: Glyph) {
    match g
    case Word(w) => IsName(w)
    case Count(n) => n <= LARGEST
    case Literal(l) => IsLiteral(l)
    case Quotation(_) => true
    case Mark(c) => IsMark(c)
    case Blank(c) => IsSpacing(c)
  }

  predicate NeatAt(gs: seq<Glyph>, k: int) {
    0 <= k < |gs| ==> Formed(gs[k]) && (0 < k && Solid(gs[k]) ==> !Solid(gs[k - 1]))
  }

  /// Well-formed glyphs, no two solid ones side by side.
  ghost predicate Neat(gs: seq<Glyph>) {
    forall k :: NeatAt(gs, k)
  }

  predicate Opens(gs: seq<Glyph>) {
    gs != [] && !Solid(gs[0])
  }

  predicate Closes(gs: seq<Glyph>) {
    gs != [] && !Solid(gs[|gs| - 1])
  }

  lemma NeatConcat(a: seq<Glyph>, b: seq<Glyph>)
    requires Neat(a) && Neat(b) && (a == [] || b == [] || Closes(a) || Opens(b))
    ensures Neat(a + b)
    ensures Opens(a) ==> Opens(a + b)
    ensures Closes(b) ==> Closes(a + b)
  {
    forall k
      ensures NeatAt(a + b, k)
    {
      assert NeatAt(a, k) && NeatAt(b, k - |a|);
    }
  }

  /// Neat, and whatever follows it keeps apart.
  ghost predicate Tidy(gs: seq<Glyph>) {
    Neat(gs) && (gs == [] || Closes(gs))
  }

  lemma TidyConcat(a: seq<Glyph>, b: seq<Glyph>)
    requires Tidy(a) && Tidy(b)
    ensures Tidy(a + b)
  {
    NeatConcat(a, b);
    assert b == [] ==> a + b == a;
  }

  lemma {:induction false} NeatSeparated(gs: seq<Glyph>, next: char)
    requires Neat(gs) && Stops(next) && next != '"'
    ensures Separated(gs, next)
    decreases |gs|
  {
    if gs != [] {
      var rest := gs[1..];
      assert NeatAt(gs, 0) && NeatAt(gs, 1);
      forall k
        ensures NeatAt(rest, k)
      {
        assert NeatAt(gs, k + 1);
      }
      NeatSeparated(rest, next);
      if rest != [] && !Solid(rest[0]) {
        assert Shape(rest[0])[0] == Render(rest)[0];
      }
    }
  }

  lemma WordsAreNames(n: nat)
    requires n < WORD32
    ensures IsName("m" + Decimal(n)) && IsName("m" + Decimal(n) + "M")
  {
    DecimalReads(n);
  }

  lemma RoleNeat(s: DbcSignal)
    requires s.muxValue < WORD32
    ensures Neat(RoleGlyphs(s)) && (RoleGlyphs(s) == [] || Opens(RoleGlyphs(s)))
  {
    WordsAreNames(s.muxValue);
  }

  lemma PairNeat(open: char, a: Number, between: char, b: Number, close: char)
    requires IsMark(open) && IsMark(between) && IsMark(close) && IsNumber(a) && IsNumber(b)
    ensures var gs := PairGlyphs(open, a, between, b, close); Neat(gs) && Opens(gs) && Closes(gs)
  {
    var g1 := [Mark(open)];
    var g2 := g1 + NumberGlyphs(a);
    var g3 := g2 + [Mark(between)];
    NeatConcat(g1, NumberGlyphs(a));
    NeatConcat(g2, [Mark(between)]);
    NeatConcat(g3, NumberGlyphs(b));
    NeatConcat(g3 + NumberGlyphs(b), [Mark(close)]);
  }

  lemma ScalingNeat(s: DbcSignal, dlc: nat)
    requires GoodSignal(s, dlc)
    ensures Neat(ScalingGlyphs(s)) && Opens(ScalingGlyphs(s)) && Closes(ScalingGlyphs(s))
  {
    var a, b := PairGlyphs('(', s.factor, ',', s.offset, ')'), PairGlyphs('[', s.minimum, '|', s.maximum, ']');
    PairNeat('(', s.factor, ',', s.offset, ')');
    PairNeat('[', s.minimum, '|', s.maximum, ']');
    NeatConcat(a, [SPACE]);
    NeatConcat(a + [SPACE], b);
  }

  lemma {:induction false} ListedNeat(names: seq<string>)
    requires names != [] && forall k | 0 <= k < |names| :: IsName(names[k])
    ensures Neat(Listed(names))
  {
    if |names| > 1 {
      ListedNeat(names[..|names| - 1]);
      NeatConcat(Listed(names[..|names| - 1]), [Mark(','), Word(names[|names| - 1])]);
    }
  }

  lemma FrontNeat(name: seq<Glyph>, role: seq<Glyph>, colon: seq<Glyph>, layout: seq<Glyph>)
    requires Neat(name) && Neat(role) && Neat(colon) && Neat(layout)
    requires Opens(name) && (role == [] || Opens(role)) && Opens(colon) && Closes(colon) && Closes(layout)
    ensures var gs := name + role + colon + layout; Neat(gs) && Opens(gs) && Closes(gs)
  {
    NeatConcat(name, role);
    NeatConcat(name + role, colon);
    NeatConcat(name + role + colon, layout);
  }

  lemma BackNeat(front: seq<Glyph>, scaling: seq<Glyph>, unit: seq<Glyph>, names: seq<Glyph>)
    requires Neat(front) && Neat(scaling) && Neat(unit) && Neat(names)
    requires Opens(front) && Closes(front) && Closes(scaling) && Opens(unit) && Closes(unit)
    ensures var gs := front + [SPACE] + scaling + unit + names + [NEWLINE]; Neat(gs) && Opens(gs) && Closes(gs)
  {
    NeatConcat(front, [SPACE]);
    NeatConcat(front + [SPACE], scaling);
    NeatConcat(front + [SPACE] + scaling, unit);
    NeatConcat(front + [SPACE] + scaling + unit, names);
    NeatConcat(front + [SPACE] + scaling + unit + names, [NEWLINE]);
  }

  lemma LayoutNeat(s: DbcSignal, dlc: nat)
    requires GoodSignal(s, dlc)
    ensures Neat(LayoutGlyphs(s)) && Closes(LayoutGlyphs(s))
  {
  }

  lemma SignalNeat(s: DbcSignal, dlc: nat)
    requires GoodSignal(s, dlc)
    ensures Tidy(SignalGlyphs(s))
  {
    var name, colon, unit := [SPACE, Word("SG_"), SPACE, Word(s.name)], [SPACE, Mark(':'), SPACE], [SPACE, Quotation(s.unit), SPACE];
    RoleNeat(s);
    LayoutNeat(s, dlc);
    FrontNeat(name, RoleGlyphs(s), colon, LayoutGlyphs(s));
    ScalingNeat(s, dlc);
    NamesNeat(s.receivers);
    BackNeat(name + RoleGlyphs(s) + colon + LayoutGlyphs(s), ScalingGlyphs(s), unit, NameGlyphs(s.receivers));
  }

  lemma NamesNeat(names: seq<string>)
    requires forall k | 0 <= k < |names| :: IsName(names[k])
    ensures Neat(NameGlyphs(names))
  {
    if names != [] {
      ListedNeat(names);
    }
  }

  lemma {:induction false} SignalsNeat(ss: seq<DbcSignal>, dlc: nat)
    requires forall k | 0 <= k < |ss| :: GoodSignal(ss[k], dlc)
    ensures Tidy(SignalsGlyphs(ss))
  {
    if ss != [] {
      SignalsNeat(ss[..|ss| - 1], dlc);
      SignalNeat(ss[|ss| - 1], dlc);
      TidyConcat(SignalsGlyphs(ss[..|ss| - 1]), SignalGlyphs(ss[|ss| - 1]));
    }
  }

  lemma MessageNeat(m: DbcMessage)
    requires GoodMessage(m)
    ensures Tidy(MessageGlyphs(m))
  {
    HeadNeat(m);
    SignalsNeat(m.signals, m.dlc);
    TidyConcat(HeadGlyphs(m), SignalsGlyphs(m.signals));
    TidyConcat(HeadGlyphs(m) + SignalsGlyphs(m.signals), [NEWLINE]);
  }

  lemma HeadNeat(m: DbcMessage)
    requires GoodMessage(m)
    ensures Tidy(HeadGlyphs(m))
  {
    var node := if m.transmitter == "" then NO_NODE else m.transmitter;
    var a, b := [Word("BO_"), SPACE, Count(WireId(m.id)), SPACE], [Word(m.name), Mark(':'), SPACE, Count(m.dlc)];
    NeatConcat(a, b);
    NeatConcat(a + b, [SPACE, Word(node), NEWLINE]);
  }

  lemma {:induction false} MessagesNeat(ms: seq<DbcMessage>)
    requires forall k | 0 <= k < |ms| :: GoodMessage(ms[k])
    ensures Tidy(MessagesGlyphs(ms))
  {
    if ms != [] {
      MessagesNeat(ms[..|ms| - 1]);
      MessageNeat(ms[|ms| - 1]);
      TidyConcat(MessagesGlyphs(ms[..|ms| - 1]), MessageGlyphs(ms[|ms| - 1]));
    }
  }

  lemma {:induction false} RangesNeat(rs: seq<Multiplexing.MuxRange>)
    requires rs != [] && forall k | 0 <= k < |rs| :: IsRange(rs[k])
    ensures Neat(RangesGlyphs(rs))
  {
    if |rs| > 1 {
      var front := RangesGlyphs(rs[..|rs| - 1]);
      RangesNeat(rs[..|rs| - 1]);
      NeatConcat(front, [Mark(','), SPACE]);
      NeatConcat(front + [Mark(','), SPACE], RangeGlyphs(rs[|rs| - 1]));
    }
  }

  lemma SwitchNeat(id: CanId, s: DbcSignal, dlc: nat)
    requires GoodSignal(s, dlc)
    ensures Tidy(SwitchGlyphs(id, s))
  {
    if s.ranges != [] {
      var a, b := [Word("SG_MUL_VAL_"), SPACE, Count(WireId(id)), SPACE], [Word(s.name), SPACE, Word(s.switchName), SPACE];
      RangesNeat(s.ranges);
      SwitchLineNeat(a, b, RangesGlyphs(s.ranges));
    }
  }

  lemma SwitchLineNeat(a: seq<Glyph>, b: seq<Glyph>, ranges: seq<Glyph>)
    requires Tidy(a) && Tidy(b) && b != [] && Neat(ranges)
    ensures Tidy(a + b + ranges + [Mark(';'), NEWLINE])
  {
    TidyConcat(a, b);
    NeatConcat(a + b, ranges);
    NeatConcat(a + b + ranges, [Mark(';'), NEWLINE]);
  }

  lemma {:induction false} SwitchesNeat(id: CanId, ss: seq<DbcSignal>, dlc: nat)
    requires forall k | 0 <= k < |ss| :: GoodSignal(ss[k], dlc)
    ensures Tidy(SwitchesGlyphs(id, ss))
  {
    if ss != [] {
      SwitchesNeat(id, ss[..|ss| - 1], dlc);
      SwitchNeat(id, ss[|ss| - 1], dlc);
      TidyConcat(SwitchesGlyphs(id, ss[..|ss| - 1]), SwitchGlyphs(id, ss[|ss| - 1]));
    }
  }

  lemma {:induction false} AllSwitchesNeat(ms: seq<DbcMessage>)
    requires forall k | 0 <= k < |ms| :: GoodMessage(ms[k])
    ensures Tidy(AllSwitches(ms))
  {
    if ms != [] {
      var m := ms[|ms| - 1];
      AllSwitchesNeat(ms[..|ms| - 1]);
      SwitchesNeat(m.id, m.signals, m.dlc);
      TidyConcat(AllSwitches(ms[..|ms| - 1]), SwitchesGlyphs(m.id, m.signals));
    }
  }

  // ---- The preamble ----

  lemma {:induction false} EntriesNeat(ss: seq<string>)
    requires forall k | 0 <= k < |ss| :: IsName(ss[k])
    ensures Tidy(SymbolGlyphs(ss))
  {
    if ss != [] {
      EntriesNeat(ss[..|ss| - 1]);
      TidyConcat(SymbolGlyphs(ss[..|ss| - 1]), [TAB, Word(ss[|ss| - 1]), NEWLINE]);
    }
  }

  lemma SymbolsNeat(ss: seq<string>)
    requires forall k | 0 <= k < |ss| :: IsName(ss[k])
    ensures Tidy(SymbolsGlyphs(ss))
  {
    var a, b := [Word("NS_"), SPACE, Mark(':')], [SPACE, NEWLINE];
    EntriesNeat(ss);
    TidyConcat(a, b);
    TidyConcat(a + b, SymbolGlyphs(ss));
    TidyConcat(a + b + SymbolGlyphs(ss), [NEWLINE]);
  }

  lemma RegistersNeat(t: BusTiming)
    requires GoodTiming(t)
    ensures Neat(RegisterGlyphs(t)) && (t.BusTiming? ==> Opens(RegisterGlyphs(t)))
  {
    if t.BusTiming? {
      NeatConcat([SPACE, Count(t.baudrate), SPACE, Mark(':')], [SPACE, Count(t.btr1), Mark(','), Count(t.btr2)]);
    }
  }

  lemma TimingNeat(t: BusTiming)
    requires GoodTiming(t)
    ensures Tidy(TimingGlyphs(t))
  {
    var a, b := [Word("BS_"), Mark(':')], [NEWLINE, NEWLINE];
    RegistersNeat(t);
    NeatConcat(a, RegisterGlyphs(t));
    NeatConcat(a + RegisterGlyphs(t), b);
  }

  lemma {:induction false} NodeNamesNeat(ns: seq<string>)
    requires forall k | 0 <= k < |ns| :: IsName(ns[k])
    ensures Neat(NodeGlyphs(ns))
  {
    if ns != [] {
      NodeNamesNeat(ns[..|ns| - 1]);
      NeatConcat(NodeGlyphs(ns[..|ns| - 1]), [SPACE, Word(ns[|ns| - 1])]);
    }
  }

  lemma NodesNeat(ns: seq<string>)
    requires forall k | 0 <= k < |ns| :: IsName(ns[k])
    ensures Tidy(NodesGlyphs(ns))
  {
    var a, b := [Word("BU_"), Mark(':')], [NEWLINE, NEWLINE];
    NodeNamesNeat(ns);
    NeatConcat(a, NodeGlyphs(ns));
    NeatConcat(a + NodeGlyphs(ns), b);
  }

  lemma VersionNeat(version: string)
    ensures Tidy(VersionGlyphs(version))
  {
    NeatConcat([Word("VERSION"), SPACE, Quotation(version)], [NEWLINE, NEWLINE, NEWLINE]);
  }

  lemma PreambleNeat(h: Preamble)
    requires GoodPreamble(h)
    ensures Tidy(PreambleGlyphs(h))
  {
    var a, b, c, d := VersionGlyphs(h.version), SymbolsGlyphs(h.symbols), TimingGlyphs(h.timing), NodesGlyphs(h.nodes);
    VersionNeat(h.version);
    SymbolsNeat(h.symbols);
    TimingNeat(h.timing);
    NodesNeat(h.nodes);
    TidyConcat(a, b);
    TidyConcat(a + b, c);
    TidyConcat(a + b + c, d);
  }

  lemma DatabaseNeat(ms: seq<DbcMessage>)
    requires GoodDatabase(ms)
    ensures Tidy(DatabaseGlyphs(ms))
  {
    MessagesNeat(ms);
    AllSwitchesNeat(ms);
    TidyConcat(MessagesGlyphs(ms), AllSwitches(ms));
  }

  lemma FileNeat(h: Preamble, ms: seq<DbcMessage>)
    requires GoodPreamble(h) && GoodDatabase(ms)
    ensures Tidy(FileGlyphs(h, ms))
  {
    PreambleNeat(h);
    DatabaseNeat(ms);
    TidyConcat(PreambleGlyphs(h), DatabaseGlyphs(ms));
  }

  /// A scanner finds the end of every glyph of a written file.
  lemma FileSeparated(h: Preamble, ms: seq<DbcMessage>)
    requires GoodPreamble(h) && GoodDatabase(ms)
    ensures Separated(FileGlyphs(h, ms), '\0')
  {
    FileNeat(h, ms);
    NeatSeparated(FileGlyphs(h, ms), '\0');
  }

  // ---- The usual symbols ----

  predicate Capital(c: char) {
    'A' <= c <= 'Z' || c == '_'
  }

  predicate Capitals(s: string) {
    s != "" && s != "BS_" && forall k | 0 <= k < |s| :: Capital(s[k])
  }

  lemma SectionCapitals()
    ensures forall k | 0 <= k < |SECTION_SYMBOLS| :: Capitals(SECTION_SYMBOLS[k])
  {
  }

  lemma RelationCapitals()
    ensures forall k | 0 <= k < |RELATION_SYMBOLS| :: Capitals(RELATION_SYMBOLS[k])
  {
  }

  lemma DefaultCapitals(all: seq<string>)
    requires all == DEFAULT_SYMBOLS
    ensures forall k | 0 <= k < |all| :: Capitals(all[k])
  {
    SectionCapitals();
    RelationCapitals();
  }

  /// Announcing the usual symbols keeps a preamble well formed.
  lemma AnnouncedGood(h: Preamble, synthesise: bool)
    requires GoodPreamble(h)
    ensures GoodPreamble(h.(symbols := Announced(h.symbols, synthesise)))
  {
    DefaultCapitals(DEFAULT_SYMBOLS);
  }
}
