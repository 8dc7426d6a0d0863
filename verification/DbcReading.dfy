/// What the parser makes of the tokens of one written line: the values that were written, and a cursor behind
/// them.
module DbcReading {
  import opened Text
  import opened Lexer
  import opened Glyphs
  import opened Frame
  import opened DbcWriter
  import opened DbcParser
  import opened WrittenDbc
  import Multiplexing
  import Signal

  // ---- Glyph by glyph ----

  function Width(g: Glyph): nat {
    if g.Blank? then 0 else 1
  }

  predicate Shown(ts: seq<Token>, p: nat, g: Glyph) {
    !g.Blank? ==> p < |ts| && Matches(ts[p], g)
  }

  lemma ShowsTwo(ts: seq<Token>, p: nat, a: Glyph, b: Glyph)
    ensures Shows(ts, p, [a, b]) ==> Shown(ts, p, a) && Shown(ts, p + Width(a), b)
    ensures Tokens([a, b]) == Width(a) + Width(b)
  {
    assert [a, b] == [a] + [b];
    ShowsConcat(ts, p, [a], [b]);
  }

  predicate Lie(ts: seq<Token>, p: nat, gs: seq<Glyph>, q: nat) {
    Shows(ts, p, gs) && q == p + Tokens(gs)
  }

  /// The tokens from `p` up to `q` are those of the glyphs. Quantified over glyphs that are the same, so that
  /// it is only looked into where `Lie` is asked for.
  ghost predicate Lies(ts: seq<Token>, p: nat, gs: seq<Glyph>, q: nat) {
    forall hs: seq<Glyph> :: hs == gs ==> Lie(ts, p, hs, q)
  }

  lemma Split(ts: seq<Token>, p: nat, a: seq<Glyph>, b: seq<Glyph>, r: nat) returns (q: nat)
    requires Lies(ts, p, a + b, r)
    ensures Lies(ts, p, a, q) && Lies(ts, q, b, r)
  {
    assert Lie(ts, p, a + b, r);
    ShowsConcat(ts, p, a, b);
    q := p + Tokens(a);
  }

  lemma LiesOne(ts: seq<Token>, p: nat, a: Glyph, q: nat)
    requires Lies(ts, p, [a], q)
    ensures Shown(ts, p, a) && q == p + Width(a)
  {
    assert Lie(ts, p, [a], q);
    assert [a][1..] == [];
    assert Tokens([a]) == Width(a) + Tokens([a][1..]);
  }

  lemma LiesTwo(ts: seq<Token>, p: nat, a: Glyph, b: Glyph, q: nat)
    requires Lies(ts, p, [a, b], q)
    ensures Shown(ts, p, a) && Shown(ts, p + Width(a), b) && q == p + Width(a) + Width(b)
  {
    assert Lie(ts, p, [a, b], q);
    ShowsTwo(ts, p, a, b);
  }

  lemma LiesThree(ts: seq<Token>, p: nat, a: Glyph, b: Glyph, c: Glyph, q: nat)
    requires Lies(ts, p, [a, b, c], q)
    ensures Shown(ts, p, a) && Shown(ts, p + Width(a), b) && Shown(ts, p + Width(a) + Width(b), c)
    ensures q == p + Width(a) + Width(b) + Width(c)
  {
    assert [a, b, c] == [a, b] + [c];
    var r := Split(ts, p, [a, b], [c], q);
    LiesTwo(ts, p, a, b, r);
    LiesOne(ts, r, c, q);
  }

  lemma LiesFour(ts: seq<Token>, p: nat, a: Glyph, b: Glyph, c: Glyph, d: Glyph, q: nat)
    requires Lies(ts, p, [a, b, c, d], q)
    ensures Shown(ts, p, a) && Shown(ts, p + Width(a), b)
    ensures Shown(ts, p + Width(a) + Width(b), c) && Shown(ts, p + Width(a) + Width(b) + Width(c), d)
    ensures q == p + Width(a) + Width(b) + Width(c) + Width(d)
  {
    assert [a, b, c, d] == [a, b] + [c, d];
    var r := Split(ts, p, [a, b], [c, d], q);
    LiesTwo(ts, p, a, b, r);
    LiesTwo(ts, r, c, d, q);
  }

  /// `c`, at another token.
  function To(c: Cursor, q: nat): Cursor {
    c.(at := q)
  }

  /// A token that a glyph stands for is not the last.
  lemma OnToken(ts: seq<Token>, c: Cursor, g: Glyph)
    requires Ended(ts) && !g.Blank? && Shown(ts, c.at, g)
    ensures Current(ts, c) == ts[c.at] && Matches(ts[c.at], g) && Bump(ts, c) == To(c, c.at + 1)
  {
  }

  // ---- Numbers and lists ----

  lemma NumberParses(ts: seq<Token>, c: Cursor, n: Number, q: nat)
    requires Ended(ts) && Lies(ts, c.at, NumberGlyphs(n), q) && IsNumber(n)
    ensures ParseNumber(ts, c) == Next(n, To(c, q))
  {
    if n.negative {
      LiesTwo(ts, c.at, Mark('-'), Literal(n.literal), q);
      OnToken(ts, c, Mark('-'));
      OnToken(ts, To(c, c.at + 1), Literal(n.literal));
    } else {
      LiesOne(ts, c.at, Literal(n.literal), q);
      OnToken(ts, c, Literal(n.literal));
    }
  }

  /// A mark where one is expected.
  lemma MarkExpected(ts: seq<Token>, c: Cursor, m: char, q: nat)
    requires Ended(ts) && Lies(ts, c.at, [Mark(m)], q)
    ensures Expect(ts, c, Punctuation(m)) == To(c, q)
  {
    LiesOne(ts, c.at, Mark(m), q);
    OnToken(ts, c, Mark(m));
  }

  lemma CountParses(ts: seq<Token>, c: Cursor, n: nat)
    requires Ended(ts) && Shown(ts, c.at, Count(n)) && n <= LARGEST
    ensures ParseUnsigned(ts, c) == Next(n, To(c, c.at + 1))
  {
    OnToken(ts, c, Count(n));
    UnsignedReads(n);
  }

  lemma PairParses(ts: seq<Token>, c: Cursor, open: char, a: Number, between: char, b: Number, close: char,
                   k1: Kind, k2: Kind, k3: Kind, q: nat)
    requires Ended(ts) && IsNumber(a) && IsNumber(b) && Lies(ts, c.at, PairGlyphs(open, a, between, b, close), q)
    requires k1 == Punctuation(open) && k2 == Punctuation(between) && k3 == Punctuation(close)
    ensures ParsePair(ts, c, k1, k2, k3) == Next((a, b), To(c, q))
  {
    var g1 := [Mark(open)];
    var g2 := g1 + NumberGlyphs(a);
    var g3 := g2 + [Mark(between)];
    var p4 := Split(ts, c.at, g3 + NumberGlyphs(b), [Mark(close)], q);
    var p3 := Split(ts, c.at, g3, NumberGlyphs(b), p4);
    var p2 := Split(ts, c.at, g2, [Mark(between)], p3);
    var p1 := Split(ts, c.at, g1, NumberGlyphs(a), p2);
    MarkExpected(ts, c, open, p1);
    NumberParses(ts, To(c, p1), a, p2);
    MarkExpected(ts, To(c, p2), between, p3);
    NumberParses(ts, To(c, p3), b, p4);
    MarkExpected(ts, To(c, p4), close, q);
  }

  /// What a comma makes of a list of names.
  function MoreNames(ts: seq<Token>, c: Cursor): (seq<string>, Cursor)
    requires Ended(ts)
  {
    if Current(ts, c).kind.Comma? then ParseNames(ts, Bump(ts, c)) else ([], c)
  }

  /// Parsing at `c` gives `names`, and what may follow them at `d`.
  ghost predicate NamesUpTo(ts: seq<Token>, c: Cursor, names: seq<string>, d: Cursor)
    requires Ended(ts)
  {
    ParseNames(ts, c).0 == names + MoreNames(ts, d).0 && ParseNames(ts, c).1 == MoreNames(ts, d).1
  }

  lemma NameParses(ts: seq<Token>, c: Cursor, name: string)
    requires Ended(ts) && Shown(ts, c.at, Word(name)) && name != NO_NODE
    ensures NamesUpTo(ts, c, [name], To(c, c.at + 1))
  {
    OnToken(ts, c, Word(name));
  }

  lemma NameAdded(ts: seq<Token>, c: Cursor, front: seq<string>, d: Cursor, last: string, q: nat)
    requires Ended(ts) && NamesUpTo(ts, c, front, d) && Lies(ts, d.at, [Mark(','), Word(last)], q) && last != NO_NODE
    ensures NamesUpTo(ts, c, front + [last], To(d, q))
  {
    LiesTwo(ts, d.at, Mark(','), Word(last), q);
    OnToken(ts, d, Mark(','));
    NameParses(ts, To(d, d.at + 1), last);
  }

  lemma {:induction false} ListedParses(ts: seq<Token>, c: Cursor, names: seq<string>, q: nat)
    requires Ended(ts) && names != [] && (forall k | 0 <= k < |names| :: names[k] != NO_NODE) && Lies(ts, c.at, Listed(names), q)
    ensures NamesUpTo(ts, c, names, To(c, q))
    decreases |names|
  {
    var front, last := names[..|names| - 1], names[|names| - 1];
    if |names| == 1 {
      LiesOne(ts, c.at, Word(last), q);
      NameParses(ts, c, last);
      assert names == [last];
    } else {
      var p := Split(ts, c.at, Listed(front), [Mark(','), Word(last)], q);
      ListedParses(ts, c, front, p);
      NameAdded(ts, c, front, To(c, p), last, q);
      assert names == front + [last];
    }
  }

  lemma NamesParse(ts: seq<Token>, c: Cursor, names: seq<string>, q: nat)
    requires Ended(ts) && (forall k | 0 <= k < |names| :: names[k] != NO_NODE) && Lies(ts, c.at, NameGlyphs(names), q)
    requires !Current(ts, To(c, q)).kind.Comma?
    ensures ParseNames(ts, c).0 == names && ParseNames(ts, c).1 == To(c, q)
  {
    if names == [] {
      LiesOne(ts, c.at, Word(NO_NODE), q);
      OnToken(ts, c, Word(NO_NODE));
    } else {
      ListedParses(ts, c, names, q);
    }
  }

  // ---- Signals ----

  lemma DigitsBehind(d: string, text: string, tail: string)
    requires d != "" && (forall k | 0 <= k < |d| :: IsDigit(d[k])) && text == "m" + d + tail && !IsDigit(Peek(tail, 0))
    ensures var e := 1 + |d|; DigitsEnd(text, 1) == e <= |text| && text[1..e] == d && Peek(text, e) == Peek(tail, 0)
  {
    DigitsAll(d, 0);
    DigitsAt(text, 1, d, 0);
  }

  lemma IndicatorReads(n: nat, text: string, tail: string)
    requires n < WORD32 && text == "m" + Decimal(n) + tail && (tail == "" || tail == "M")
    ensures Indicator(text) == Indication(if tail == "M" then Multiplexing.Both else Multiplexing.Multiplexed, n)
  {
    DecimalReads(n);
    UnsignedReads(n);
    DigitsBehind(Decimal(n), text, tail);
  }

  lemma IndicatorParses(ts: seq<Token>, c: Cursor, w: string, i: Indication, q: nat)
    requires Ended(ts) && w != "" && w[0] != 'S' && i.Indication? && Indicator(w) == i && Lies(ts, c.at, [SPACE, Word(w)], q)
    ensures ParseRole(ts, c).0 == i && ParseRole(ts, c).1 == To(c, q)
  {
    LiesTwo(ts, c.at, SPACE, Word(w), q);
    OnToken(ts, c, Word(w));
  }

  lemma RoleParses(ts: seq<Token>, c: Cursor, s: DbcSignal, q: nat)
    requires Ended(ts) && s.muxValue < WORD32 && (!Switchable(s) ==> s.muxValue == 0) && Lies(ts, c.at, RoleGlyphs(s), q)
    requires Current(ts, To(c, q)).kind.Colon?
    ensures ParseRole(ts, c).0 == Indication(s.role, s.muxValue) && ParseRole(ts, c).1 == To(c, q)
  {
    match s.role
    case Plain => assert Lie(ts, c.at, [], q);
    case Multiplexor => IndicatorParses(ts, c, "M", Indication(s.role, 0), q);
    case Multiplexed =>
      assert "m" + Decimal(s.muxValue) == "m" + Decimal(s.muxValue) + "";
      IndicatorReads(s.muxValue, "m" + Decimal(s.muxValue), "");
      IndicatorParses(ts, c, "m" + Decimal(s.muxValue), Indication(s.role, s.muxValue), q);
    case Both =>
      IndicatorReads(s.muxValue, "m" + Decimal(s.muxValue) + "M", "M");
      IndicatorParses(ts, c, "m" + Decimal(s.muxValue) + "M", Indication(s.role, s.muxValue), q);
  }

  lemma PlaceParses(ts: seq<Token>, c: Cursor, l: Signal.Layout, q: nat)
    requires Ended(ts) && l.startBit <= 511 && 1 <= l.length <= 64
    requires Lies(ts, c.at, [Count(l.startBit), Mark('|'), Count(l.length)], q)
    ensures ParsePlace(ts, c) == Next((l.startBit, l.length), To(c, q))
  {
    LiesThree(ts, c.at, Count(l.startBit), Mark('|'), Count(l.length), q);
    CountParses(ts, c, l.startBit);
    OnToken(ts, To(c, c.at + 1), Mark('|'));
    CountParses(ts, To(c, c.at + 2), l.length);
  }

  lemma OrderParses(ts: seq<Token>, c: Cursor, order: Signal.ByteOrder, signed: bool, q: nat)
    requires Ended(ts)
    requires Lies(ts, c.at, [Mark('@'), Count(if order.Intel? then 1 else 0), Mark(if signed then '-' else '+')], q)
    ensures ParseOrder(ts, c) == Next((order, signed), To(c, q))
  {
    var n, m := if order.Intel? then 1 else 0, if signed then '-' else '+';
    LiesThree(ts, c.at, Mark('@'), Count(n), Mark(m), q);
    OnToken(ts, c, Mark('@'));
    CountParses(ts, To(c, c.at + 1), n);
    OnToken(ts, To(c, c.at + 2), Mark(m));
  }

  lemma LayoutParses(ts: seq<Token>, c: Cursor, s: DbcSignal, q: nat)
    requires Ended(ts) && s.layout.startBit <= 511 && 1 <= s.layout.length <= 64 && Lies(ts, c.at, LayoutGlyphs(s), q)
    ensures ParseLayout(ts, c) == Next((s.layout, s.signed), To(c, q))
  {
    var n, m := if s.layout.order.Intel? then 1 else 0, if s.signed then '-' else '+';
    var p := Split(ts, c.at, [Count(s.layout.startBit), Mark('|'), Count(s.layout.length)], [Mark('@'), Count(n), Mark(m)], q);
    PlaceParses(ts, c, s.layout, p);
    OrderParses(ts, To(c, p), s.layout.order, s.signed, q);
  }

  /// The signal without what its SG_MUL_VAL_ line says.
  function Bare(s: DbcSignal): DbcSignal {
    s.(switchName := "", ranges := [])
  }

  lemma KeywordParses(ts: seq<Token>, c: Cursor, name: string, q: nat)
    requires Ended(ts) && Lies(ts, c.at, [SPACE, Word("SG_"), SPACE, Word(name)], q)
    ensures Current(ts, c).IsWord("SG_") && ParseName(ts, Bump(ts, c)) == Next(name, To(c, q))
  {
    LiesFour(ts, c.at, SPACE, Word("SG_"), SPACE, Word(name), q);
    OnToken(ts, c, Word("SG_"));
    OnToken(ts, To(c, c.at + 1), Word(name));
  }

  lemma ColonExpected(ts: seq<Token>, c: Cursor, q: nat)
    requires Ended(ts) && Lies(ts, c.at, [SPACE, Mark(':'), SPACE], q)
    ensures Current(ts, c).kind.Colon? && Expect(ts, c, Colon) == To(c, q)
  {
    LiesThree(ts, c.at, SPACE, Mark(':'), SPACE, q);
    OnToken(ts, c, Mark(':'));
  }

  lemma UnitParses(ts: seq<Token>, c: Cursor, unit: string, q: nat)
    requires Ended(ts) && Lies(ts, c.at, [SPACE, Quotation(unit), SPACE], q)
    ensures ParseText(ts, c) == Next(unit, To(c, q))
  {
    LiesThree(ts, c.at, SPACE, Quotation(unit), SPACE, q);
    OnToken(ts, c, Quotation(unit));
  }

  predicate Placed(s: DbcSignal) {
    s.muxValue < WORD32 && (!Switchable(s) ==> s.muxValue == 0) && s.layout.startBit <= 511 && 1 <= s.layout.length <= 64
  }

  /// A signal's line up to its layout.
  lemma FrontParses(ts: seq<Token>, c: Cursor, s: DbcSignal, name: seq<Glyph>, colon: seq<Glyph>, q: nat)
    requires Ended(ts) && Placed(s) && name == [SPACE, Word("SG_"), SPACE, Word(s.name)] && colon == [SPACE, Mark(':'), SPACE]
    requires Lies(ts, c.at, name + RoleGlyphs(s) + colon + LayoutGlyphs(s), q)
    ensures Current(ts, c).IsWord("SG_")
    ensures ParseFront(ts, Bump(ts, c)) ==
            Next(DbcSignal(s.name, s.role, s.muxValue, s.layout, s.signed, ONE, ONE, ONE, ONE, "", [], "", []), To(c, q))
  {
    var p3 := Split(ts, c.at, name + RoleGlyphs(s) + colon, LayoutGlyphs(s), q);
    var p2 := Split(ts, c.at, name + RoleGlyphs(s), colon, p3);
    var p1 := Split(ts, c.at, name, RoleGlyphs(s), p2);
    KeywordParses(ts, c, s.name, p1);
    ColonExpected(ts, To(c, p2), p3);
    RoleParses(ts, To(c, p1), s, p2);
    LayoutParses(ts, To(c, p3), s, q);
  }

  predicate Scaled(s: DbcSignal) {
    IsNumber(s.factor) && IsNumber(s.offset) && IsNumber(s.minimum) && IsNumber(s.maximum)
  }

  lemma SpaceShown(ts: seq<Token>, p: nat, a: seq<Glyph>, b: seq<Glyph>, q: nat) returns (r: nat)
    requires Lies(ts, p, a + [SPACE] + b, q)
    ensures Lies(ts, p, a, r) && Lies(ts, r, b, q)
  {
    var r2 := Split(ts, p, a + [SPACE], b, q);
    r := Split(ts, p, a, [SPACE], r2);
    LiesOne(ts, r, SPACE, r2);
  }

  lemma Brackets()
    ensures Punctuation('(') == LParen && Punctuation(',') == Comma && Punctuation(')') == RParen
    ensures Punctuation('[') == LBracket && Punctuation('|') == Pipe && Punctuation(']') == RBracket
  {
  }

  lemma ScalingParses(ts: seq<Token>, c: Cursor, s: DbcSignal, q: nat) returns (p: nat)
    requires Ended(ts) && Scaled(s) && Lies(ts, c.at, ScalingGlyphs(s), q)
    ensures ParsePair(ts, c, LParen, Comma, RParen) == Next((s.factor, s.offset), To(c, p))
    ensures ParsePair(ts, To(c, p), LBracket, Pipe, RBracket) == Next((s.minimum, s.maximum), To(c, q))
  {
    var a, b := PairGlyphs('(', s.factor, ',', s.offset, ')'), PairGlyphs('[', s.minimum, '|', s.maximum, ']');
    Brackets();
    p := SpaceShown(ts, c.at, a, b, q);
    PairParses(ts, c, '(', s.factor, ',', s.offset, ')', LParen, Comma, RParen, p);
    PairParses(ts, To(c, p), '[', s.minimum, '|', s.maximum, ']', LBracket, Pipe, RBracket, q);
  }

  /// The rest of its line, without the newline.
  lemma BackParses(ts: seq<Token>, c: Cursor, s: DbcSignal, front: DbcSignal, unit: seq<Glyph>, q: nat)
    requires Ended(ts) && Scaled(s) && (forall k | 0 <= k < |s.receivers| :: s.receivers[k] != NO_NODE)
    requires unit == [SPACE, Quotation(s.unit), SPACE] && !Current(ts, To(c, q)).kind.Comma?
    requires Lies(ts, c.at, ScalingGlyphs(s) + unit + NameGlyphs(s.receivers), q)
    ensures ParseBack(ts, c, front) == Next(front.(factor := s.factor, offset := s.offset, minimum := s.minimum, maximum := s.maximum,
                                                   unit := s.unit, receivers := s.receivers), To(c, q))
  {
    var p3 := Split(ts, c.at, ScalingGlyphs(s) + unit, NameGlyphs(s.receivers), q);
    var p2 := Split(ts, c.at, ScalingGlyphs(s), unit, p3);
    var p1 := ScalingParses(ts, c, s, p2);
    UnitParses(ts, To(c, p2), s.unit, p3);
    NamesParse(ts, To(c, p3), s.receivers, q);
  }

  lemma LineShown(ts: seq<Token>, p: nat, front: seq<Glyph>, a: seq<Glyph>, b: seq<Glyph>, e: seq<Glyph>, q: nat) returns (r: nat)
    requires Lies(ts, p, front + [SPACE] + a + b + e + [NEWLINE], q)
    ensures Lies(ts, p, front, r) && Lies(ts, r, a + b + e, q)
  {
    assert front + [SPACE] + a + b + e + [NEWLINE] == front + [SPACE] + (a + b + e) + [NEWLINE];
    var p3 := Split(ts, p, front + [SPACE] + (a + b + e), [NEWLINE], q);
    var p2 := Split(ts, p, front + [SPACE], a + b + e, p3);
    r := Split(ts, p, front, [SPACE], p2);
    LiesOne(ts, r, SPACE, p2);
    LiesOne(ts, p3, NEWLINE, q);
  }

  lemma SignalSteps(ts: seq<Token>, c: Cursor, s: DbcSignal, q: nat)
    requires Ended(ts) && Placed(s) && Scaled(s) && (forall k | 0 <= k < |s.receivers| :: s.receivers[k] != NO_NODE)
    requires Lies(ts, c.at, SignalGlyphs(s), q) && !Current(ts, To(c, q)).kind.Comma?
    ensures Current(ts, c).IsWord("SG_")
    ensures var r := ParseFront(ts, Bump(ts, c)); r.Next? && ParseBack(ts, r.cursor, r.value) == Next(Bare(s), To(c, q))
  {
    var name, colon, unit := [SPACE, Word("SG_"), SPACE, Word(s.name)], [SPACE, Mark(':'), SPACE], [SPACE, Quotation(s.unit), SPACE];
    var front := name + RoleGlyphs(s) + colon + LayoutGlyphs(s);
    var r := LineShown(ts, c.at, front, ScalingGlyphs(s), unit, NameGlyphs(s.receivers), q);
    FrontParses(ts, c, s, name, colon, r);
    var half := DbcSignal(s.name, s.role, s.muxValue, s.layout, s.signed, ONE, ONE, ONE, ONE, "", [], "", []);
    BackParses(ts, To(c, r), s, half, unit, q);
  }

  /// A written signal is read back, but for its ranges.
  lemma SignalParses(ts: seq<Token>, c: Cursor, s: DbcSignal, dlc: nat, q: nat)
    requires Ended(ts) && GoodSignal(s, dlc) && Lies(ts, c.at, SignalGlyphs(s), q) && !Current(ts, To(c, q)).kind.Comma?
    ensures Current(ts, c).IsWord("SG_") && ParseSignal(ts, Bump(ts, c), dlc) == Next(Bare(s), To(c, q))
  {
    SignalSteps(ts, c, s, q);
  }

  // ---- Messages ----

  lemma IdReads(id: CanId, c: Cursor)
    ensures MessageId(WireId(id), c) == (id, c) && WireId(id) < WORD32
  {
  }

  lemma HeadStarts(ts: seq<Token>, c: Cursor, id: CanId, q: nat)
    requires Ended(ts) && Lies(ts, c.at, [Word("BO_"), SPACE, Count(WireId(id)), SPACE], q)
    ensures Current(ts, c).IsWord("BO_") && ParseUnsigned(ts, Bump(ts, c)) == Next(WireId(id), To(c, q))
  {
    LiesFour(ts, c.at, Word("BO_"), SPACE, Count(WireId(id)), SPACE, q);
    OnToken(ts, c, Word("BO_"));
    CountParses(ts, To(c, c.at + 1), WireId(id));
  }

  lemma HeadContinues(ts: seq<Token>, c: Cursor, name: string, dlc: nat, q: nat)
    requires Ended(ts) && dlc <= 64 && Lies(ts, c.at, [Word(name), Mark(':'), SPACE, Count(dlc)], q)
    ensures var r := ParseName(ts, c);
            r.Next? && r.value == name && ParseUnsigned(ts, Expect(ts, r.cursor, Colon)) == Next(dlc, To(c, q))
  {
    LiesFour(ts, c.at, Word(name), Mark(':'), SPACE, Count(dlc), q);
    OnToken(ts, c, Word(name));
    OnToken(ts, To(c, c.at + 1), Mark(':'));
    CountParses(ts, To(c, c.at + 2), dlc);
  }

  lemma HeadEnds(ts: seq<Token>, c: Cursor, node: string, q: nat)
    requires Ended(ts) && Lies(ts, c.at, [SPACE, Word(node), NEWLINE], q)
    ensures Current(ts, c).IsWord(node) && Bump(ts, c) == To(c, q)
  {
    LiesThree(ts, c.at, SPACE, Word(node), NEWLINE, q);
    OnToken(ts, c, Word(node));
  }

  lemma HeadParses(ts: seq<Token>, c: Cursor, m: DbcMessage, q: nat)
    requires Ended(ts) && Lies(ts, c.at, HeadGlyphs(m), q) && m.transmitter != NO_NODE && m.dlc <= 64 && (m.fd <==> m.dlc > 8)
    ensures Current(ts, c).IsWord("BO_")
    ensures ParseHead(ts, Bump(ts, c)) == Next(m.(signals := []), To(c, q))
  {
    var node := if m.transmitter == "" then NO_NODE else m.transmitter;
    var a, b, e := [Word("BO_"), SPACE, Count(WireId(m.id)), SPACE], [Word(m.name), Mark(':'), SPACE, Count(m.dlc)],
                   [SPACE, Word(node), NEWLINE];
    var p2 := Split(ts, c.at, a + b, e, q);
    var p1 := Split(ts, c.at, a, b, p2);
    HeadStarts(ts, c, m.id, p1);
    IdReads(m.id, To(c, p1));
    HeadContinues(ts, To(c, p1), m.name, m.dlc, p2);
    HeadEnds(ts, To(c, p2), node, q);
  }

  // ---- Extended multiplexing ----

  function MoreRanges(ts: seq<Token>, c: Cursor): (seq<Multiplexing.MuxRange>, Cursor)
    requires Ended(ts)
  {
    if Current(ts, c).kind.Comma? then ParseRanges(ts, Bump(ts, c)) else ([], c)
  }

  /// Parsing at `c` gives `rs`, and what may follow them at `d`.
  ghost predicate RangesUpTo(ts: seq<Token>, c: Cursor, rs: seq<Multiplexing.MuxRange>, d: Cursor)
    requires Ended(ts)
  {
    ParseRanges(ts, c).0 == rs + MoreRanges(ts, d).0 && ParseRanges(ts, c).1 == MoreRanges(ts, d).1
  }

  lemma CountShown(ts: seq<Token>, c: Cursor, n: nat)
    requires Ended(ts) && Shown(ts, c.at, Count(n)) && n < WORD32
    ensures Current(ts, c).kind.Integer? && Unsigned(Current(ts, c).text) % WORD32 == n && Bump(ts, c) == To(c, c.at + 1)
  {
    OnToken(ts, c, Count(n));
    UnsignedReads(n);
  }

  lemma RangeShown(ts: seq<Token>, c: Cursor, r: Multiplexing.MuxRange, q: nat)
    requires Ended(ts) && IsRange(r) && Lies(ts, c.at, RangeGlyphs(r), q)
    ensures Shown(ts, c.at, Count(r.low)) && Shown(ts, c.at + 2, Count(r.high)) && q == c.at + 3
    ensures Past(ts, To(c, c.at + 1), Minus) == To(c, c.at + 2) && Current(ts, To(c, c.at + 1)).kind.Minus?
  {
    LiesThree(ts, c.at, Count(r.low), Mark('-'), Count(r.high), q);
    OnToken(ts, To(c, c.at + 1), Mark('-'));
  }

  lemma CommaPassed(ts: seq<Token>, c: Cursor, q: nat)
    requires Ended(ts) && Lies(ts, c.at, [Mark(','), SPACE], q)
    ensures Current(ts, c).kind.Comma? && Bump(ts, c) == To(c, q)
  {
    LiesTwo(ts, c.at, Mark(','), SPACE, q);
    OnToken(ts, c, Mark(','));
  }

  lemma OneRange(ts: seq<Token>, c: Cursor, r: Multiplexing.MuxRange, q: nat)
    requires Ended(ts) && IsRange(r) && Lies(ts, c.at, RangeGlyphs(r), q)
    ensures Current(ts, c).kind.Integer? && ParseRange(ts, c).0 == [r] && ParseRange(ts, c).1 == To(c, q)
  {
    RangeShown(ts, c, r, q);
    CountShown(ts, c, r.low);
    CountShown(ts, To(c, c.at + 2), r.high);
  }

  lemma RangeParses(ts: seq<Token>, c: Cursor, r: Multiplexing.MuxRange, q: nat)
    requires Ended(ts) && IsRange(r) && Lies(ts, c.at, RangeGlyphs(r), q)
    ensures RangesUpTo(ts, c, [r], To(c, q))
  {
    OneRange(ts, c, r, q);
  }

  lemma RangeAdded(ts: seq<Token>, c: Cursor, front: seq<Multiplexing.MuxRange>, d: Cursor, last: Multiplexing.MuxRange, p: nat, q: nat)
    requires Ended(ts) && RangesUpTo(ts, c, front, d) && IsRange(last)
    requires Lies(ts, d.at, [Mark(','), SPACE], p) && Lies(ts, p, RangeGlyphs(last), q)
    ensures RangesUpTo(ts, c, front + [last], To(d, q))
  {
    CommaPassed(ts, d, p);
    RangeParses(ts, To(d, p), last, q);
  }

  lemma {:induction false} RangesParse(ts: seq<Token>, c: Cursor, rs: seq<Multiplexing.MuxRange>, q: nat)
    requires Ended(ts) && rs != [] && (forall k | 0 <= k < |rs| :: IsRange(rs[k])) && Lies(ts, c.at, RangesGlyphs(rs), q)
    ensures RangesUpTo(ts, c, rs, To(c, q))
    decreases |rs|
  {
    var front, last := rs[..|rs| - 1], rs[|rs| - 1];
    if |rs| == 1 {
      RangeParses(ts, c, last, q);
      assert rs == [last];
    } else {
      var p2 := Split(ts, c.at, RangesGlyphs(front) + [Mark(','), SPACE], RangeGlyphs(last), q);
      var p1 := Split(ts, c.at, RangesGlyphs(front), [Mark(','), SPACE], p2);
      RangesParse(ts, c, front, p1);
      RangeAdded(ts, c, front, To(c, p1), last, p2, q);
      assert rs == front + [last];
    }
  }

  lemma SwitchStarts(ts: seq<Token>, c: Cursor, id: CanId, q: nat)
    requires Ended(ts) && Lies(ts, c.at, [Word("SG_MUL_VAL_"), SPACE, Count(WireId(id)), SPACE], q)
    ensures Current(ts, c).IsWord("SG_MUL_VAL_") && ParseUnsigned(ts, Bump(ts, c)) == Next(WireId(id), To(c, q))
  {
    LiesFour(ts, c.at, Word("SG_MUL_VAL_"), SPACE, Count(WireId(id)), SPACE, q);
    OnToken(ts, c, Word("SG_MUL_VAL_"));
    CountParses(ts, To(c, c.at + 1), WireId(id));
  }

  lemma SwitchContinues(ts: seq<Token>, c: Cursor, name: string, switchName: string, q: nat)
    requires Ended(ts) && Lies(ts, c.at, [Word(name), SPACE, Word(switchName), SPACE], q)
    ensures var r := ParseName(ts, c); r.Next? && r.value == name && ParseName(ts, r.cursor) == Next(switchName, To(c, q))
  {
    LiesFour(ts, c.at, Word(name), SPACE, Word(switchName), SPACE, q);
    OnToken(ts, c, Word(name));
    OnToken(ts, To(c, c.at + 1), Word(switchName));
  }

  lemma SwitchEnds(ts: seq<Token>, c: Cursor, q: nat)
    requires Ended(ts) && Lies(ts, c.at, [Mark(';'), NEWLINE], q)
    ensures Current(ts, c).kind.Semicolon? && Past(ts, c, Semicolon) == To(c, q)
  {
    LiesTwo(ts, c.at, Mark(';'), NEWLINE, q);
    OnToken(ts, c, Mark(';'));
  }

  /// A written SG_MUL_VAL_ line is read back.
  lemma SwitchLineParses(ts: seq<Token>, c: Cursor, id: CanId, s: DbcSignal, q: nat) returns (d: Cursor)
    requires Ended(ts) && s.ranges != [] && (forall k | 0 <= k < |s.ranges| :: IsRange(s.ranges[k]))
    requires Lies(ts, c.at, SwitchGlyphs(id, s), q)
    ensures Current(ts, c).IsWord("SG_MUL_VAL_")
    ensures ParseSwitchHead(ts, Bump(ts, c)) == Next(SwitchLine(WireId(id), s.name, s.switchName), d)
    ensures ParseRanges(ts, d).0 == s.ranges && Past(ts, ParseRanges(ts, d).1, Semicolon) == To(c, q)
  {
    var a, b := [Word("SG_MUL_VAL_"), SPACE, Count(WireId(id)), SPACE], [Word(s.name), SPACE, Word(s.switchName), SPACE];
    var p3 := Split(ts, c.at, a + b + RangesGlyphs(s.ranges), [Mark(';'), NEWLINE], q);
    var p2 := Split(ts, c.at, a + b, RangesGlyphs(s.ranges), p3);
    var p1 := Split(ts, c.at, a, b, p2);
    d := To(c, p2);
    SwitchStarts(ts, c, id, p1);
    SwitchContinues(ts, To(c, p1), s.name, s.switchName, p2);
    SwitchEnds(ts, To(c, p3), q);
    RangesParse(ts, d, s.ranges, p3);
  }
}
