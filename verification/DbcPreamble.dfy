/// What the parser makes of a written preamble: the version, the symbols, the bit timing and the nodes that were
/// written. Symbols and nodes are told apart from what follows them by where lines begin.
module DbcPreamble {
  import opened Lexer
  import opened Glyphs
  import opened DbcWriter
  import opened DbcParser
  import opened WrittenDbc
  import opened DbcReading

  // ---- Lines ----

  predicate Lay(ts: seq<Token>, p: nat, lead: bool, gs: seq<Glyph>, q: nat, next: bool) {
    Lie(ts, p, gs, q) && Leads(ts, p, gs, lead) && next == LeadsAfter(gs, lead)
  }

  /// `Lies`, for tokens that also know whether they begin a line: the first does if `lead`, and the one behind
  /// them will if `next`.
  ghost predicate Lays(ts: seq<Token>, p: nat, lead: bool, gs: seq<Glyph>, q: nat, next: bool) {
    forall hs: seq<Glyph> :: hs == gs ==> Lay(ts, p, lead, hs, q, next)
  }

  lemma Laid(ts: seq<Token>, p: nat, lead: bool, gs: seq<Glyph>, q: nat, next: bool)
    requires Shows(ts, p, gs) && Leads(ts, p, gs, lead) && q == p + Tokens(gs) && next == LeadsAfter(gs, lead)
    ensures Lays(ts, p, lead, gs, q, next)
  {
  }

  lemma LaysLies(ts: seq<Token>, p: nat, lead: bool, gs: seq<Glyph>, q: nat, next: bool)
    requires Lays(ts, p, lead, gs, q, next)
    ensures Lies(ts, p, gs, q)
  {
    assert Lay(ts, p, lead, gs, q, next);
  }

  lemma Cut(ts: seq<Token>, p: nat, lead: bool, a: seq<Glyph>, b: seq<Glyph>, r: nat, next: bool) returns (q: nat, between: bool)
    requires Lays(ts, p, lead, a + b, r, next)
    ensures Lays(ts, p, lead, a, q, between) && Lays(ts, q, between, b, r, next)
  {
    assert Lay(ts, p, lead, a + b, r, next);
    ShowsConcat(ts, p, a, b);
    LeadsConcat(ts, p, a, b, lead);
    q, between := p + Tokens(a), LeadsAfter(a, lead);
  }

  lemma LaysOne(ts: seq<Token>, p: nat, lead: bool, g: Glyph, q: nat, next: bool)
    requires Lays(ts, p, lead, [g], q, next)
    ensures Shown(ts, p, g) && q == p + Width(g) && (!g.Blank? ==> ts[p].first == lead) && next == NextLeads(g, lead)
  {
    assert Lay(ts, p, lead, [g], q, next);
    LaysLies(ts, p, lead, [g], q, next);
    LiesOne(ts, p, g, q);
    assert [g][1..] == [];
    assert LeadsAfter([g], lead) == LeadsAfter([g][1..], NextLeads(g, lead));
  }

  lemma NewlineLeads(ts: seq<Token>, p: nat, lead: bool, q: nat, next: bool)
    requires Lays(ts, p, lead, [NEWLINE], q, next)
    ensures q == p && next
  {
    LaysOne(ts, p, lead, NEWLINE, q, next);
    assert Shape(NEWLINE)[0] == '\n';
  }

  lemma NewlinesLead(ts: seq<Token>, p: nat, lead: bool, q: nat, next: bool)
    requires Lays(ts, p, lead, [NEWLINE, NEWLINE], q, next)
    ensures q == p && next
  {
    assert [NEWLINE, NEWLINE] == [NEWLINE] + [NEWLINE];
    var r, between := Cut(ts, p, lead, [NEWLINE], [NEWLINE], q, next);
    NewlineLeads(ts, p, lead, r, between);
    NewlineLeads(ts, r, between, q, next);
  }

  lemma NamesStay(w: string)
    requires IsName(w)
    ensures !Breaks(Word(w))
  {
  }

  // ---- The version ----

  lemma VersionParses(ts: seq<Token>, c: Cursor, version: string, q: nat)
    requires Ended(ts) && Lies(ts, c.at, VersionGlyphs(version), q)
    ensures Current(ts, c).IsWord("VERSION")
    ensures forall was :: ParseVersion(ts, Bump(ts, c), was) == (version, To(c, q))
  {
    var p := Split(ts, c.at, [Word("VERSION"), SPACE, Quotation(version)], [NEWLINE, NEWLINE, NEWLINE], q);
    LiesThree(ts, c.at, Word("VERSION"), SPACE, Quotation(version), p);
    LiesThree(ts, p, NEWLINE, NEWLINE, NEWLINE, q);
    OnToken(ts, c, Word("VERSION"));
    OnToken(ts, To(c, c.at + 1), Quotation(version));
  }

  // ---- The symbols ----

  /// Parsing at `c` gives `ss`, and what may follow them at `d`.
  ghost predicate EntriesUpTo(ts: seq<Token>, c: Cursor, ss: seq<string>, d: Cursor)
    requires Ended(ts)
  {
    ParseEntries(ts, c).0 == ss + ParseEntries(ts, d).0 && ParseEntries(ts, c).1 == ParseEntries(ts, d).1
  }

  lemma EntryShown(ts: seq<Token>, p: nat, lead: bool, name: string, q: nat, next: bool)
    requires Lays(ts, p, lead, [TAB, Word(name), NEWLINE], q, next)
    ensures Shown(ts, p, Word(name)) && q == p + 1 && ts[p].first == lead && next
  {
    assert [TAB, Word(name), NEWLINE] == [TAB] + [Word(name)] + [NEWLINE];
    var p2, l2 := Cut(ts, p, lead, [TAB] + [Word(name)], [NEWLINE], q, next);
    var p1, l1 := Cut(ts, p, lead, [TAB], [Word(name)], p2, l2);
    LaysOne(ts, p, lead, TAB, p1, l1);
    LaysOne(ts, p1, l1, Word(name), p2, l2);
    NewlineLeads(ts, p2, l2, q, next);
    assert Shape(TAB) == ['\t'];
  }

  lemma EntryAdded(ts: seq<Token>, c: Cursor, front: seq<string>, d: Cursor, name: string, q: nat)
    requires Ended(ts) && EntriesUpTo(ts, c, front, d) && Shown(ts, d.at, Word(name)) && name != "BS_"
    requires q == d.at + 1 < |ts| && ts[q].first
    ensures EntriesUpTo(ts, c, front + [name], To(d, q))
  {
    OnToken(ts, d, Word(name));
  }

  lemma {:induction false} EntriesParse(ts: seq<Token>, c: Cursor, ss: seq<string>, q: nat, next: bool)
    requires Ended(ts) && (forall k | 0 <= k < |ss| :: ss[k] != "BS_") && Lays(ts, c.at, true, SymbolGlyphs(ss), q, next)
    requires q < |ts| && (next ==> ts[q].first)
    ensures next && EntriesUpTo(ts, c, ss, To(c, q))
    decreases |ss|
  {
    if ss == [] {
      assert Lay(ts, c.at, true, [], q, next);
    } else {
      var front, last := ss[..|ss| - 1], ss[|ss| - 1];
      var p, lead := Cut(ts, c.at, true, SymbolGlyphs(front), [TAB, Word(last), NEWLINE], q, next);
      EntryShown(ts, p, lead, last, q, next);
      EntriesParse(ts, c, front, p, lead);
      EntryAdded(ts, c, front, To(c, p), last, q);
      assert ss == front + [last];
    }
  }

  lemma SymbolsShown(ts: seq<Token>, p: nat, lead: bool, entries: seq<Glyph>, q: nat, next: bool) returns (r: nat, last: bool)
    requires Lays(ts, p, lead, [Word("NS_"), SPACE, Mark(':')] + [SPACE, NEWLINE] + entries + [NEWLINE], q, next)
    ensures Lies(ts, p, [Word("NS_"), SPACE, Mark(':')], r) && Lays(ts, r, true, entries, q, last) && next
  {
    var a, b := [Word("NS_"), SPACE, Mark(':')], [SPACE, NEWLINE];
    assert b == [SPACE] + [NEWLINE];
    var p3, l3 := Cut(ts, p, lead, a + b + entries, [NEWLINE], q, next);
    var p2, l2 := Cut(ts, p, lead, a + b, entries, p3, l3);
    var p1, l1 := Cut(ts, p, lead, a, b, p2, l2);
    var p0, l0 := Cut(ts, p1, l1, [SPACE], [NEWLINE], p2, l2);
    LaysOne(ts, p1, l1, SPACE, p0, l0);
    NewlineLeads(ts, p0, l0, p2, l2);
    NewlineLeads(ts, p3, l3, q, next);
    LaysLies(ts, p, lead, a, p1, l1);
    r, last := p1, l3;
  }

  lemma SymbolsParse(ts: seq<Token>, c: Cursor, lead: bool, ss: seq<string>, q: nat, next: bool)
    requires Ended(ts) && (forall k | 0 <= k < |ss| :: ss[k] != "BS_") && Lays(ts, c.at, lead, SymbolsGlyphs(ss), q, next)
    requires q < |ts| && ts[q].first && Current(ts, To(c, q)).IsWord("BS_")
    ensures next && Current(ts, c).IsWord("NS_")
    ensures ParseSymbols(ts, Bump(ts, c)).0 == ss && ParseSymbols(ts, Bump(ts, c)).1 == To(c, q)
  {
    var r, last := SymbolsShown(ts, c.at, lead, SymbolGlyphs(ss), q, next);
    LiesThree(ts, c.at, Word("NS_"), SPACE, Mark(':'), r);
    OnToken(ts, c, Word("NS_"));
    OnToken(ts, To(c, c.at + 1), Mark(':'));
    EntriesParse(ts, To(c, r), ss, q, last);
  }

  // ---- The bit timing ----

  lemma RegisterParses(ts: seq<Token>, c: Cursor, n: nat)
    requires Ended(ts) && Shown(ts, c.at, Count(n)) && n < WORD32
    ensures Current(ts, c).kind.Integer? && ParseRegister(ts, c) == (n, To(c, c.at + 1))
  {
    CountParses(ts, c, n);
    OnToken(ts, c, Count(n));
  }

  lemma RegistersParse(ts: seq<Token>, c: Cursor, t: BusTiming, q: nat)
    requires Ended(ts) && t.BusTiming? && GoodTiming(t) && Lies(ts, c.at, RegisterGlyphs(t), q)
    ensures Current(ts, c).kind.Integer? && ParseRegister(ts, c) == (t.baudrate, To(c, c.at + 1))
    ensures ParseRegisters(ts, To(c, c.at + 1)) == (t.btr1, t.btr2, To(c, q))
  {
    var a, b := [SPACE, Count(t.baudrate), SPACE, Mark(':')], [SPACE, Count(t.btr1), Mark(','), Count(t.btr2)];
    var p := Split(ts, c.at, a, b, q);
    LiesFour(ts, c.at, SPACE, Count(t.baudrate), SPACE, Mark(':'), p);
    LiesFour(ts, p, SPACE, Count(t.btr1), Mark(','), Count(t.btr2), q);
    RegisterParses(ts, c, t.baudrate);
    OnToken(ts, To(c, c.at + 1), Mark(':'));
    RegisterParses(ts, To(c, p), t.btr1);
    OnToken(ts, To(c, p + 1), Mark(','));
    RegisterParses(ts, To(c, p + 2), t.btr2);
  }

  lemma TimingParses(ts: seq<Token>, c: Cursor, t: BusTiming, q: nat)
    requires Ended(ts) && GoodTiming(t) && Lies(ts, c.at, TimingGlyphs(t), q) && !Current(ts, To(c, q)).kind.Integer?
    ensures Current(ts, c).IsWord("BS_") && ParseTiming(ts, Bump(ts, c), Unset) == (t, To(c, q))
  {
    var a, b := [Word("BS_"), Mark(':')], [NEWLINE, NEWLINE];
    var p2 := Split(ts, c.at, a + RegisterGlyphs(t), b, q);
    var p1 := Split(ts, c.at, a, RegisterGlyphs(t), p2);
    LiesTwo(ts, c.at, Word("BS_"), Mark(':'), p1);
    LiesTwo(ts, p2, NEWLINE, NEWLINE, q);
    OnToken(ts, c, Word("BS_"));
    OnToken(ts, To(c, c.at + 1), Mark(':'));
    if t.BusTiming? {
      RegistersParse(ts, To(c, p1), t, p2);
    } else {
      assert Lie(ts, p1, [], p2);
    }
  }

  // ---- The nodes ----

  lemma NodeShown(ts: seq<Token>, p: nat, name: string, q: nat, next: bool)
    requires Lays(ts, p, false, [SPACE, Word(name)], q, next) && IsName(name)
    ensures Shown(ts, p, Word(name)) && q == p + 1 && !ts[p].first && !next
  {
    assert [SPACE, Word(name)] == [SPACE] + [Word(name)];
    var r, between := Cut(ts, p, false, [SPACE], [Word(name)], q, next);
    LaysOne(ts, p, false, SPACE, r, between);
    assert Shape(SPACE) == [' '];
    LaysOne(ts, r, between, Word(name), q, next);
    NamesStay(name);
  }

  lemma NodeAdded(ts: seq<Token>, c: Cursor, front: seq<string>, d: Cursor, name: string, q: nat)
    requires Ended(ts) && ParseNodeNames(ts, c, []) == ParseNodeNames(ts, d, front) && name != NO_NODE && name !in front
    requires Shown(ts, d.at, Word(name)) && !ts[d.at].first && q == d.at + 1 && !Current(ts, To(d, q)).kind.Comma?
    ensures ParseNodeNames(ts, c, []) == ParseNodeNames(ts, To(d, q), front + [name])
  {
    OnToken(ts, d, Word(name));
  }

  lemma {:induction false} NodeNamesParse(ts: seq<Token>, c: Cursor, ns: seq<string>, j: nat, q: nat, next: bool)
    requires Ended(ts) && (forall k | 0 <= k < |ns| :: IsNode(ns[k])) && (forall i, k | 0 <= i < k < |ns| :: ns[i] != ns[k])
    requires j <= |ns| && Lays(ts, c.at, false, NodeGlyphs(ns[..j]), q, next) && !Current(ts, To(c, q)).kind.Comma?
    ensures !next && ParseNodeNames(ts, c, []) == ParseNodeNames(ts, To(c, q), ns[..j])
    decreases j
  {
    if j == 0 {
      assert Lay(ts, c.at, false, [], q, next);
    } else {
      var front, last := ns[..j - 1], ns[j - 1];
      assert ns[..j] == front + [last] && ns[..j][..j - 1] == front;
      var p, lead := Cut(ts, c.at, false, NodeGlyphs(front), [SPACE, Word(last)], q, next);
      NodeFollows(ts, p, lead, last, q, next);
      OnToken(ts, To(c, p), Word(last));
      NodeNamesParse(ts, c, ns, j - 1, p, lead);
      NodeShown(ts, p, last, q, next);
      NodeAdded(ts, c, front, To(c, p), last, q);
    }
  }

  lemma NodeFollows(ts: seq<Token>, p: nat, lead: bool, name: string, q: nat, next: bool)
    requires Lays(ts, p, lead, [SPACE, Word(name)], q, next)
    ensures Shown(ts, p, Word(name))
  {
    LaysLies(ts, p, lead, [SPACE, Word(name)], q, next);
    LiesTwo(ts, p, SPACE, Word(name), q);
  }

  lemma NodesShown(ts: seq<Token>, p: nat, lead: bool, names: seq<Glyph>, q: nat, next: bool) returns (r: nat, last: bool)
    requires Lays(ts, p, lead, [Word("BU_"), Mark(':')] + names + [NEWLINE, NEWLINE], q, next)
    ensures Lies(ts, p, [Word("BU_"), Mark(':')], r) && Lays(ts, r, false, names, q, last) && next
  {
    var a, b := [Word("BU_"), Mark(':')], [NEWLINE, NEWLINE];
    assert a == [Word("BU_")] + [Mark(':')];
    var p2, l2 := Cut(ts, p, lead, a + names, b, q, next);
    var p1, l1 := Cut(ts, p, lead, a, names, p2, l2);
    var p0, l0 := Cut(ts, p, lead, [Word("BU_")], [Mark(':')], p1, l1);
    LaysOne(ts, p0, l0, Mark(':'), p1, l1);
    assert Shape(Mark(':')) == [':'];
    NewlinesLead(ts, p2, l2, q, next);
    LaysLies(ts, p, lead, a, p1, l1);
    r, last := p1, l2;
  }

  lemma NodesParse(ts: seq<Token>, c: Cursor, lead: bool, ns: seq<string>, q: nat, next: bool)
    requires Ended(ts) && (forall k | 0 <= k < |ns| :: IsNode(ns[k])) && (forall i, k | 0 <= i < k < |ns| :: ns[i] != ns[k])
    requires Lays(ts, c.at, lead, NodesGlyphs(ns), q, next)
    requires var t := Current(ts, To(c, q)); !t.kind.Comma? && (t.kind.Identifier? ==> t.first)
    ensures next && Current(ts, c).IsWord("BU_") && ParseNodes(ts, Bump(ts, c), []) == (ns, To(c, q))
  {
    var r, last := NodesShown(ts, c.at, lead, NodeGlyphs(ns), q, next);
    LiesTwo(ts, c.at, Word("BU_"), Mark(':'), r);
    OnToken(ts, c, Word("BU_"));
    OnToken(ts, To(c, c.at + 1), Mark(':'));
    assert ns[..|ns|] == ns;
    NodeNamesParse(ts, To(c, r), ns, |ns|, q, last);
  }

  // ---- The whole ----

  lemma RunsPreamble(ts: seq<Token>, c: Cursor, h: Preamble, d: Cursor, e: Preamble, db: seq<DbcMessage>)
    requires Ended(ts) && OfPreamble(Current(ts, c)) && ParsePreamble(ts, c, h).0 == e && ParsePreamble(ts, c, h).1 == d
    ensures Run(ts, c, h, db) == Run(ts, d, e, db)
  {
  }

  lemma PreambleShown(ts: seq<Token>, p: nat, a: seq<Glyph>, b: seq<Glyph>, c: seq<Glyph>, d: seq<Glyph>, q: nat, next: bool)
    returns (p1: nat, l1: bool, p2: nat, l2: bool, p3: nat, l3: bool)
    requires Lays(ts, p, true, a + b + c + d, q, next)
    ensures Lays(ts, p, true, a, p1, l1) && Lays(ts, p1, l1, b, p2, l2) && Lays(ts, p2, l2, c, p3, l3) && Lays(ts, p3, l3, d, q, next)
  {
    p3, l3 := Cut(ts, p, true, a + b + c, d, q, next);
    p2, l2 := Cut(ts, p, true, a + b, c, p3, l3);
    p1, l1 := Cut(ts, p, true, a, b, p2, l2);
  }

  /// The first token of a line knows that it is.
  lemma KeywordLeads(ts: seq<Token>, p: nat, lead: bool, g: Glyph, rest: seq<Glyph>, q: nat, next: bool)
    requires Lays(ts, p, lead, [g] + rest, q, next) && !g.Blank?
    ensures p < |ts| && ts[p].first == lead && Matches(ts[p], g)
  {
    var r, between := Cut(ts, p, lead, [g], rest, q, next);
    LaysOne(ts, p, lead, g, r, between);
  }

  lemma TimingLeads(ts: seq<Token>, c: Cursor, lead: bool, t: BusTiming, q: nat, next: bool)
    requires Ended(ts) && Lays(ts, c.at, lead, TimingGlyphs(t), q, next)
    ensures c.at < |ts| && ts[c.at].first == lead && Current(ts, c).IsWord("BS_") && Lies(ts, c.at, TimingGlyphs(t), q)
  {
    LaysLies(ts, c.at, lead, TimingGlyphs(t), q, next);
    assert TimingGlyphs(t) == [Word("BS_")] + ([Mark(':')] + RegisterGlyphs(t) + [NEWLINE, NEWLINE]);
    KeywordLeads(ts, c.at, lead, Word("BS_"), [Mark(':')] + RegisterGlyphs(t) + [NEWLINE, NEWLINE], q, next);
  }

  /// A written preamble is read back, when nothing but a new line follows it.
  lemma PreambleParses(ts: seq<Token>, c: Cursor, h: Preamble, q: nat, next: bool, db: seq<DbcMessage>)
    requires Ended(ts) && GoodPreamble(h) && Lays(ts, c.at, true, PreambleGlyphs(h), q, next)
    requires var t := Current(ts, To(c, q)); !t.kind.Comma? && (t.kind.Identifier? ==> t.first)
    ensures Run(ts, c, EMPTY, db) == Run(ts, To(c, q), h, db)
  {
    var p1, l1, p2, l2, p3, l3 := PreambleShown(ts, c.at, VersionGlyphs(h.version), SymbolsGlyphs(h.symbols), TimingGlyphs(h.timing),
                                                NodesGlyphs(h.nodes), q, next);
    LaysLies(ts, c.at, true, VersionGlyphs(h.version), p1, l1);
    NodesParse(ts, To(c, p3), l3, h.nodes, q, next);
    TimingLeads(ts, To(c, p2), l2, h.timing, p3, l3);
    TimingParses(ts, To(c, p2), h.timing, p3);
    SymbolsLead(ts, p1, l1, h.symbols, p2, l2);
    SymbolsParse(ts, To(c, p1), l1, h.symbols, p2, l2);
    VersionParses(ts, c, h.version, p1);
    PreambleRuns(ts, c, h, To(c, p1), To(c, p2), To(c, p3), To(c, q), db);
  }

  lemma PreambleRuns(ts: seq<Token>, c: Cursor, h: Preamble, c1: Cursor, c2: Cursor, c3: Cursor, d: Cursor, db: seq<DbcMessage>)
    requires Ended(ts)
    requires Current(ts, c).IsWord("VERSION") && ParseVersion(ts, Bump(ts, c), "") == (h.version, c1)
    requires Current(ts, c1).IsWord("NS_")
    requires ParseSymbols(ts, Bump(ts, c1)).0 == h.symbols && ParseSymbols(ts, Bump(ts, c1)).1 == c2
    requires Current(ts, c2).IsWord("BS_") && ParseTiming(ts, Bump(ts, c2), Unset) == (h.timing, c3)
    requires Current(ts, c3).IsWord("BU_") && ParseNodes(ts, Bump(ts, c3), []) == (h.nodes, d)
    ensures Run(ts, c, EMPTY, db) == Run(ts, d, h, db)
  {
    var h1 := EMPTY.(version := h.version);
    var h2 := h1.(symbols := h.symbols);
    var h3 := h2.(timing := h.timing);
    RunsPreamble(ts, c, EMPTY, c1, h1, db);
    RunsPreamble(ts, c1, h1, c2, h2, db);
    RunsPreamble(ts, c2, h2, c3, h3, db);
    RunsPreamble(ts, c3, h3, d, h, db);
  }

  lemma SymbolsLead(ts: seq<Token>, p: nat, lead: bool, ss: seq<string>, q: nat, next: bool)
    requires Lays(ts, p, lead, SymbolsGlyphs(ss), q, next)
    ensures next
  {
    var r, last := SymbolsShown(ts, p, lead, SymbolGlyphs(ss), q, next);
  }
}
