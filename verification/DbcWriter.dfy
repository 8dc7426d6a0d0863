/// What a DBC database says first, its messages, and how dbc/src/Writer.cpp writes them: the VERSION, NS_, BS_,
/// BU_, BO_, SG_ and SG_MUL_VAL_ lines as glyphs, and the loops that put them down as text.
module DbcWriter {
  import opened Text
  import opened Glyphs
  import opened Frame
  import Multiplexing
  import Signal

  /// A number, exactly as it is spelled.
  datatype Number = Number(negative: bool, literal: string)

  datatype DbcSignal = DbcSignal(name: string, role: Multiplexing.Role, muxValue: nat, layout: Signal.Layout, signed: bool,
                                 factor: Number, offset: Number, minimum: Number, maximum: Number, unit: string,
                                 receivers: seq<string>, switchName: string, ranges: seq<Multiplexing.MuxRange>)

  datatype DbcMessage = DbcMessage(id: CanId, name: string, dlc: nat, fd: bool, transmitter: string, signals: seq<DbcSignal>)

  datatype BusTiming = Unset | BusTiming(baudrate: nat, btr1: nat, btr2: nat)

  /// What stands in front of the messages.
  datatype Preamble = Preamble(version: string, symbols: seq<string>, timing: BusTiming, nodes: seq<string>)

  const NO_NODE: string := "Vector__XXX"

  // ---- Lines as glyphs ----

  const SPACE: Glyph := Blank(' ')
  const NEWLINE: Glyph := Blank('\n')

  function RoleGlyphs(s: DbcSignal): seq<Glyph> {
    match s.role
    case Plain => []
    case Multiplexor => [SPACE, Word("M")]
    case Multiplexed => [SPACE, Word("m" + Decimal(s.muxValue))]
    case Both => [SPACE, Word("m" + Decimal(s.muxValue) + "M")]
  }

  function LayoutGlyphs(s: DbcSignal): seq<Glyph> {
    [Count(s.layout.startBit), Mark('|'), Count(s.layout.length)]
    + [Mark('@'), Count(if s.layout.order.Intel? then 1 else 0), Mark(if s.signed then '-' else '+')]
  }

  function NumberGlyphs(n: Number): seq<Glyph> {
    if n.negative then [Mark('-'), Literal(n.literal)] else [Literal(n.literal)]
  }

  /// Two numbers in brackets.
  function PairGlyphs(open: char, a: Number, between: char, b: Number, close: char): seq<Glyph> {
    [Mark(open)] + NumberGlyphs(a) + [Mark(between)] + NumberGlyphs(b) + [Mark(close)]
  }

  function ScalingGlyphs(s: DbcSignal): seq<Glyph> {
    PairGlyphs('(', s.factor, ',', s.offset, ')') + [SPACE] + PairGlyphs('[', s.minimum, '|', s.maximum, ']')
  }

  function Listed(names: seq<string>): seq<Glyph>
    requires names != []
  {
    if |names| == 1 then [Word(names[0])] else Listed(names[..|names| - 1]) + [Mark(','), Word(names[|names| - 1])]
  }

  function NameGlyphs(names: seq<string>): seq<Glyph> {
    if names == [] then [Word(NO_NODE)] else Listed(names)
  }

  function SignalGlyphs(s: DbcSignal): seq<Glyph> {
    [SPACE, Word("SG_"), SPACE, Word(s.name)] + RoleGlyphs(s) + [SPACE, Mark(':'), SPACE] + LayoutGlyphs(s) + [SPACE]
    + ScalingGlyphs(s) + [SPACE, Quotation(s.unit), SPACE] + NameGlyphs(s.receivers) + [NEWLINE]
  }

  function SignalsGlyphs(ss: seq<DbcSignal>): seq<Glyph> {
    if ss == [] then [] else SignalsGlyphs(ss[..|ss| - 1]) + SignalGlyphs(ss[|ss| - 1])
  }

  /// `wire_id`: bit 31 marks an extended identifier.
  function WireId(id: CanId): nat {
    id.Packed()
  }

  function HeadGlyphs(m: DbcMessage): seq<Glyph> {
    [Word("BO_"), SPACE, Count(WireId(m.id)), SPACE] + [Word(m.name), Mark(':'), SPACE, Count(m.dlc)]
    + [SPACE, Word(if m.transmitter == "" then NO_NODE else m.transmitter), NEWLINE]
  }

  function MessageGlyphs(m: DbcMessage): seq<Glyph> {
    HeadGlyphs(m) + SignalsGlyphs(m.signals) + [NEWLINE]
  }

  function MessagesGlyphs(ms: seq<DbcMessage>): seq<Glyph> {
    if ms == [] then [] else MessagesGlyphs(ms[..|ms| - 1]) + MessageGlyphs(ms[|ms| - 1])
  }

  function RangeGlyphs(r: Multiplexing.MuxRange): seq<Glyph> {
    [Count(r.low), Mark('-'), Count(r.high)]
  }

  function RangesGlyphs(rs: seq<Multiplexing.MuxRange>): seq<Glyph>
    requires rs != []
  {
    if |rs| == 1 then RangeGlyphs(rs[0]) else RangesGlyphs(rs[..|rs| - 1]) + [Mark(','), SPACE] + RangeGlyphs(rs[|rs| - 1])
  }

  /// The SG_MUL_VAL_ line of a signal, if it has ranges.
  function SwitchGlyphs(id: CanId, s: DbcSignal): seq<Glyph> {
    if s.ranges == [] then []
    else
      [Word("SG_MUL_VAL_"), SPACE, Count(WireId(id)), SPACE] + [Word(s.name), SPACE, Word(s.switchName), SPACE]
      + RangesGlyphs(s.ranges) + [Mark(';'), NEWLINE]
  }

  function SwitchesGlyphs(id: CanId, ss: seq<DbcSignal>): seq<Glyph> {
    if ss == [] then [] else SwitchesGlyphs(id, ss[..|ss| - 1]) + SwitchGlyphs(id, ss[|ss| - 1])
  }

  function AllSwitches(ms: seq<DbcMessage>): seq<Glyph> {
    if ms == [] then [] else AllSwitches(ms[..|ms| - 1]) + SwitchesGlyphs(ms[|ms| - 1].id, ms[|ms| - 1].signals)
  }

  /// Everything `write_string` writes about messages and their signals.
  function DatabaseGlyphs(ms: seq<DbcMessage>): seq<Glyph> {
    MessagesGlyphs(ms) + AllSwitches(ms)
  }

  // ---- The preamble ----

  const TAB: Glyph := Blank('\t')

  const SECTION_SYMBOLS: seq<string> := [
    "NS_DESC_", "CM_", "BA_DEF_", "BA_", "VAL_", "CAT_DEF_", "CAT_", "FILTER", "BA_DEF_DEF_", "EV_DATA_", "ENVVAR_DATA_", "SGTYPE_",
    "SGTYPE_VAL_", "BA_DEF_SGTYPE_"
  ]

  const RELATION_SYMBOLS: seq<string> := [
    "BA_SGTYPE_", "SIG_TYPE_REF_", "VAL_TABLE_", "SIG_GROUP_", "SIG_VALTYPE_", "SIGTYPE_VALTYPE_", "BO_TX_BU_", "BA_DEF_REL_",
    "BA_REL_", "BA_DEF_DEF_REL_", "BU_SG_REL_", "BU_EV_REL_", "BU_BO_REL_", "SG_MUL_VAL_"
  ]

  /// `kDefaultNewSymbols`.
  const DEFAULT_SYMBOLS: seq<string> := SECTION_SYMBOLS + RELATION_SYMBOLS

  /// The symbols that are announced: on request the usual ones if there are none.
  function Announced(symbols: seq<string>, synthesise: bool): seq<string> {
    if symbols == [] && synthesise then DEFAULT_SYMBOLS else symbols
  }

  function VersionGlyphs(version: string): seq<Glyph> {
    [Word("VERSION"), SPACE, Quotation(version)] + [NEWLINE, NEWLINE, NEWLINE]
  }

  function SymbolGlyphs(symbols: seq<string>): seq<Glyph> {
    if symbols == [] then [] else SymbolGlyphs(symbols[..|symbols| - 1]) + [TAB, Word(symbols[|symbols| - 1]), NEWLINE]
  }

  function SymbolsGlyphs(symbols: seq<string>): seq<Glyph> {
    [Word("NS_"), SPACE, Mark(':')] + [SPACE, NEWLINE] + SymbolGlyphs(symbols) + [NEWLINE]
  }

  function RegisterGlyphs(t: BusTiming): seq<Glyph> {
    if t.Unset? then []
    else [SPACE, Count(t.baudrate), SPACE, Mark(':')] + [SPACE, Count(t.btr1), Mark(','), Count(t.btr2)]
  }

  function TimingGlyphs(t: BusTiming): seq<Glyph> {
    [Word("BS_"), Mark(':')] + RegisterGlyphs(t) + [NEWLINE, NEWLINE]
  }

  function NodeGlyphs(nodes: seq<string>): seq<Glyph> {
    if nodes == [] then [] else NodeGlyphs(nodes[..|nodes| - 1]) + [SPACE, Word(nodes[|nodes| - 1])]
  }

  function NodesGlyphs(nodes: seq<string>): seq<Glyph> {
    [Word("BU_"), Mark(':')] + NodeGlyphs(nodes) + [NEWLINE, NEWLINE]
  }

  function PreambleGlyphs(h: Preamble): seq<Glyph> {
    VersionGlyphs(h.version) + SymbolsGlyphs(h.symbols) + TimingGlyphs(h.timing) + NodesGlyphs(h.nodes)
  }

  /// Everything `write_string` writes about a database of these parts, with `h.symbols` as announced.
  function FileGlyphs(h: Preamble, ms: seq<DbcMessage>): seq<Glyph> {
    PreambleGlyphs(h) + DatabaseGlyphs(ms)
  }

  // ---- Lines as text ----

  lemma RenderOne(a: Glyph)
    ensures Render([a]) == Shape(a)
  {
    assert [a][1..] == [];
  }

  lemma RenderTwo(a: Glyph, b: Glyph)
    ensures Render([a, b]) == Shape(a) + Shape(b)
  {
    assert [a, b][1..] == [b];
    RenderOne(b);
  }

  lemma RenderThree(a: Glyph, b: Glyph, c: Glyph)
    ensures Render([a, b, c]) == Shape(a) + (Shape(b) + Shape(c))
  {
    assert [a, b, c][1..] == [b, c];
    RenderTwo(b, c);
  }

  lemma RenderFour(a: Glyph, b: Glyph, c: Glyph, d: Glyph)
    ensures Render([a, b, c, d]) == Shape(a) + (Shape(b) + (Shape(c) + Shape(d)))
  {
    assert [a, b, c, d][1..] == [b, c, d];
    RenderThree(b, c, d);
  }

  lemma Regroup(a: seq<Glyph>, b: seq<Glyph>, c: seq<Glyph>)
    ensures a + b + c == a + (b + c)
  {
  }

  /// A writer's stream, which remembers the glyphs it has been given.
  class Stream {
    var text: string
    ghost var glyphs: seq<Glyph>

    ghost predicate Valid()
      reads this
    {
      text == Render(glyphs)
    }

    constructor ()
      ensures Valid() && glyphs == []
    {
      text, glyphs := "", [];
    }

    method Put(piece: string, ghost gs: seq<Glyph>)
      requires Valid() && piece == Render(gs)
      modifies this
      ensures Valid() && glyphs == old(glyphs) + gs
    {
      RenderConcat(glyphs, gs);
      text, glyphs := text + piece, glyphs + gs;
    }

    method PutOne(piece: string, ghost g: Glyph)
      requires Valid() && piece == Shape(g)
      modifies this
      ensures Valid() && glyphs == old(glyphs) + [g]
    {
      RenderOne(g);
      Put(piece, [g]);
    }

    method PutNumber(n: Number)
      requires Valid()
      modifies this
      ensures Valid() && glyphs == old(glyphs) + NumberGlyphs(n)
    {
      if n.negative {
        RenderTwo(Mark('-'), Literal(n.literal));
        Put(['-'] + n.literal, NumberGlyphs(n));
      } else {
        PutOne(n.literal, Literal(n.literal));
      }
    }

    method PutPair(open: char, a: Number, between: char, b: Number, close: char)
      requires Valid()
      modifies this
      ensures Valid() && glyphs == old(glyphs) + PairGlyphs(open, a, between, b, close)
    {
      ghost var was, g1 := glyphs, [Mark(open)];
      ghost var g2 := g1 + NumberGlyphs(a);
      ghost var g3 := g2 + [Mark(between)];
      ghost var g4 := g3 + NumberGlyphs(b);
      PutOne([open], Mark(open));
      PutNumber(a);
      Regroup(was, g1, NumberGlyphs(a));
      PutOne([between], Mark(between));
      Regroup(was, g2, [Mark(between)]);
      PutNumber(b);
      Regroup(was, g3, NumberGlyphs(b));
      PutOne([close], Mark(close));
      Regroup(was, g4, [Mark(close)]);
    }

    method PutScaling(s: DbcSignal)
      requires Valid()
      modifies this
      ensures Valid() && glyphs == old(glyphs) + ScalingGlyphs(s)
    {
      ghost var was, g1 := glyphs, PairGlyphs('(', s.factor, ',', s.offset, ')');
      PutPair('(', s.factor, ',', s.offset, ')');
      PutOne(" ", SPACE);
      Regroup(was, g1, [SPACE]);
      PutPair('[', s.minimum, '|', s.maximum, ']');
      Regroup(was, g1 + [SPACE], PairGlyphs('[', s.minimum, '|', s.maximum, ']'));
    }

    method PutNames(names: seq<string>)
      requires Valid()
      modifies this
      ensures Valid() && glyphs == old(glyphs) + NameGlyphs(names)
    {
      if names == [] {
        PutOne(NO_NODE, Word(NO_NODE));
        return;
      }
      ghost var was := glyphs;
      PutOne(names[0], Word(names[0]));
      assert names[..1] == [names[0]];
      for i := 1 to |names|
        invariant Valid() && glyphs == was + Listed(names[..i])
      {
        assert names[..i + 1][..i] == names[..i];
        RenderTwo(Mark(','), Word(names[i]));
        Put([','] + names[i], [Mark(','), Word(names[i])]);
        Regroup(was, Listed(names[..i]), [Mark(','), Word(names[i])]);
      }
      assert names[..|names|] == names;
    }

    method PutRole(s: DbcSignal)
      requires Valid()
      modifies this
      ensures Valid() && glyphs == old(glyphs) + RoleGlyphs(s)
    {
      match s.role
      case Plain =>
      case Multiplexor =>
        RenderTwo(SPACE, Word("M"));
        Put(" M", [SPACE, Word("M")]);
      case Multiplexed =>
        RenderTwo(SPACE, Word("m" + Decimal(s.muxValue)));
        Put([' '] + ("m" + Decimal(s.muxValue)), RoleGlyphs(s));
      case Both =>
        RenderTwo(SPACE, Word("m" + Decimal(s.muxValue) + "M"));
        Put([' '] + ("m" + Decimal(s.muxValue) + "M"), RoleGlyphs(s));
    }

    method PutLayout(s: DbcSignal)
      requires Valid()
      modifies this
      ensures Valid() && glyphs == old(glyphs) + LayoutGlyphs(s)
    {
      var order, sign := if s.layout.order.Intel? then 1 else 0, if s.signed then '-' else '+';
      ghost var was := glyphs;
      ghost var a, b := [Count(s.layout.startBit), Mark('|'), Count(s.layout.length)], [Mark('@'), Count(order), Mark(sign)];
      RenderThree(Count(s.layout.startBit), Mark('|'), Count(s.layout.length));
      Put(Decimal(s.layout.startBit) + (['|'] + Decimal(s.layout.length)), a);
      RenderThree(Mark('@'), Count(order), Mark(sign));
      Put(['@'] + (Decimal(order) + [sign]), b);
      Regroup(was, a, b);
    }

    /// `write_signal`.
    method WriteSignal(s: DbcSignal)
      requires Valid()
      modifies this
      ensures Valid() && glyphs == old(glyphs) + SignalGlyphs(s)
    {
      ghost var was, a := glyphs, [SPACE, Word("SG_"), SPACE, Word(s.name)];
      ghost var b, c := [SPACE, Mark(':'), SPACE], [SPACE, Quotation(s.unit), SPACE];
      ghost var g1 := a + RoleGlyphs(s);
      ghost var g2 := g1 + b;
      ghost var g3 := g2 + LayoutGlyphs(s);
      ghost var g4 := g3 + [SPACE];
      ghost var g5 := g4 + ScalingGlyphs(s);
      ghost var g6 := g5 + c;
      ghost var g7 := g6 + NameGlyphs(s.receivers);
      RenderFour(SPACE, Word("SG_"), SPACE, Word(s.name));
      Put([' '] + ("SG_" + ([' '] + s.name)), a);
      PutRole(s);
      Regroup(was, a, RoleGlyphs(s));
      RenderThree(SPACE, Mark(':'), SPACE);
      Put([' '] + ([':'] + [' ']), b);
      Regroup(was, g1, b);
      PutLayout(s);
      Regroup(was, g2, LayoutGlyphs(s));
      PutOne(" ", SPACE);
      Regroup(was, g3, [SPACE]);
      PutScaling(s);
      Regroup(was, g4, ScalingGlyphs(s));
      var unit := QuoteText(s.unit);
      RenderThree(SPACE, Quotation(s.unit), SPACE);
      Put([' '] + (unit + [' ']), c);
      Regroup(was, g5, c);
      PutNames(s.receivers);
      Regroup(was, g6, NameGlyphs(s.receivers));
      PutOne("\n", NEWLINE);
      Regroup(was, g7, [NEWLINE]);
    }

    method WriteHead(m: DbcMessage)
      requires Valid()
      modifies this
      ensures Valid() && glyphs == old(glyphs) + HeadGlyphs(m)
    {
      var node := if m.transmitter == "" then NO_NODE else m.transmitter;
      ghost var was := glyphs;
      ghost var a, b, c := [Word("BO_"), SPACE, Count(WireId(m.id)), SPACE], [Word(m.name), Mark(':'), SPACE, Count(m.dlc)],
                           [SPACE, Word(node), NEWLINE];
      RenderFour(Word("BO_"), SPACE, Count(WireId(m.id)), SPACE);
      Put("BO_" + ([' '] + (Decimal(WireId(m.id)) + [' '])), a);
      RenderFour(Word(m.name), Mark(':'), SPACE, Count(m.dlc));
      Put(m.name + ([':'] + ([' '] + Decimal(m.dlc))), b);
      Regroup(was, a, b);
      RenderThree(SPACE, Word(node), NEWLINE);
      Put([' '] + (node + ['\n']), c);
      Regroup(was, a + b, c);
    }

    method WriteSignals(ss: seq<DbcSignal>)
      requires Valid()
      modifies this
      ensures Valid() && glyphs == old(glyphs) + SignalsGlyphs(ss)
    {
      ghost var was := glyphs;
      assert was + SignalsGlyphs(ss[..0]) == was;
      for i := 0 to |ss|
        invariant Valid() && glyphs == was + SignalsGlyphs(ss[..i])
      {
        assert ss[..i + 1][..i] == ss[..i];
        WriteSignal(ss[i]);
        Regroup(was, SignalsGlyphs(ss[..i]), SignalGlyphs(ss[i]));
      }
      assert ss[..|ss|] == ss;
    }

    method WriteMessage(m: DbcMessage)
      requires Valid()
      modifies this
      ensures Valid() && glyphs == old(glyphs) + MessageGlyphs(m)
    {
      ghost var was := glyphs;
      WriteHead(m);
      WriteSignals(m.signals);
      Regroup(was, HeadGlyphs(m), SignalsGlyphs(m.signals));
      PutOne("\n", NEWLINE);
      Regroup(was, HeadGlyphs(m) + SignalsGlyphs(m.signals), [NEWLINE]);
    }

    method PutRange(r: Multiplexing.MuxRange)
      requires Valid()
      modifies this
      ensures Valid() && glyphs == old(glyphs) + RangeGlyphs(r)
    {
      RenderThree(Count(r.low), Mark('-'), Count(r.high));
      Put(Decimal(r.low) + (['-'] + Decimal(r.high)), RangeGlyphs(r));
    }

    method PutRanges(rs: seq<Multiplexing.MuxRange>)
      requires Valid() && rs != []
      modifies this
      ensures Valid() && glyphs == old(glyphs) + RangesGlyphs(rs)
    {
      ghost var was := glyphs;
      PutRange(rs[0]);
      assert rs[..1] == [rs[0]];
      for i := 1 to |rs|
        invariant Valid() && glyphs == was + RangesGlyphs(rs[..i])
      {
        assert rs[..i + 1][..i] == rs[..i];
        ghost var part := RangesGlyphs(rs[..i]);
        RenderTwo(Mark(','), SPACE);
        Put([','] + [' '], [Mark(','), SPACE]);
        Regroup(was, part, [Mark(','), SPACE]);
        PutRange(rs[i]);
        Regroup(was, part + [Mark(','), SPACE], RangeGlyphs(rs[i]));
      }
      assert rs[..|rs|] == rs;
    }

    method WriteSwitch(id: CanId, s: DbcSignal)
      requires Valid()
      modifies this
      ensures Valid() && glyphs == old(glyphs) + SwitchGlyphs(id, s)
    {
      if s.ranges == [] {
        return;
      }
      ghost var was := glyphs;
      ghost var a, b := [Word("SG_MUL_VAL_"), SPACE, Count(WireId(id)), SPACE], [Word(s.name), SPACE, Word(s.switchName), SPACE];
      RenderFour(Word("SG_MUL_VAL_"), SPACE, Count(WireId(id)), SPACE);
      Put("SG_MUL_VAL_" + ([' '] + (Decimal(WireId(id)) + [' '])), a);
      RenderFour(Word(s.name), SPACE, Word(s.switchName), SPACE);
      Put(s.name + ([' '] + (s.switchName + [' '])), b);
      Regroup(was, a, b);
      PutRanges(s.ranges);
      Regroup(was, a + b, RangesGlyphs(s.ranges));
      RenderTwo(Mark(';'), NEWLINE);
      Put([';'] + ['\n'], [Mark(';'), NEWLINE]);
      Regroup(was, a + b + RangesGlyphs(s.ranges), [Mark(';'), NEWLINE]);
    }

    method WriteSwitches(id: CanId, ss: seq<DbcSignal>)
      requires Valid()
      modifies this
      ensures Valid() && glyphs == old(glyphs) + SwitchesGlyphs(id, ss)
    {
      ghost var was := glyphs;
      assert was + SwitchesGlyphs(id, ss[..0]) == was;
      for i := 0 to |ss|
        invariant Valid() && glyphs == was + SwitchesGlyphs(id, ss[..i])
      {
        assert ss[..i + 1][..i] == ss[..i];
        WriteSwitch(id, ss[i]);
        Regroup(was, SwitchesGlyphs(id, ss[..i]), SwitchGlyphs(id, ss[i]));
      }
      assert ss[..|ss|] == ss;
    }

    method WriteMessageList(ms: seq<DbcMessage>)
      requires Valid()
      modifies this
      ensures Valid() && glyphs == old(glyphs) + MessagesGlyphs(ms)
    {
      ghost var was := glyphs;
      assert was + MessagesGlyphs(ms[..0]) == was;
      for i := 0 to |ms|
        invariant Valid() && glyphs == was + MessagesGlyphs(ms[..i])
      {
        assert ms[..i + 1][..i] == ms[..i];
        WriteMessage(ms[i]);
        Regroup(was, MessagesGlyphs(ms[..i]), MessageGlyphs(ms[i]));
      }
      assert ms[..|ms|] == ms;
    }

    method WriteAllSwitches(ms: seq<DbcMessage>)
      requires Valid()
      modifies this
      ensures Valid() && glyphs == old(glyphs) + AllSwitches(ms)
    {
      ghost var was := glyphs;
      assert was + AllSwitches(ms[..0]) == was;
      for i := 0 to |ms|
        invariant Valid() && glyphs == was + AllSwitches(ms[..i])
      {
        assert ms[..i + 1][..i] == ms[..i];
        WriteSwitches(ms[i].id, ms[i].signals);
        Regroup(was, AllSwitches(ms[..i]), SwitchesGlyphs(ms[i].id, ms[i].signals));
      }
      assert ms[..|ms|] == ms;
    }

    method WriteVersion(version: string)
      requires Valid()
      modifies this
      ensures Valid() && glyphs == old(glyphs) + VersionGlyphs(version)
    {
      ghost var was, a, b := glyphs, [Word("VERSION"), SPACE, Quotation(version)], [NEWLINE, NEWLINE, NEWLINE];
      var text := QuoteText(version);
      RenderThree(Word("VERSION"), SPACE, Quotation(version));
      Put("VERSION" + ([' '] + text), a);
      RenderThree(NEWLINE, NEWLINE, NEWLINE);
      Put(['\n'] + (['\n'] + ['\n']), b);
      Regroup(was, a, b);
    }

    method WriteSymbols(symbols: seq<string>)
      requires Valid()
      modifies this
      ensures Valid() && glyphs == old(glyphs) + SymbolGlyphs(symbols)
    {
      ghost var was := glyphs;
      assert was + SymbolGlyphs(symbols[..0]) == was;
      for i := 0 to |symbols|
        invariant Valid() && glyphs == was + SymbolGlyphs(symbols[..i])
      {
        assert symbols[..i + 1][..i] == symbols[..i];
        RenderThree(TAB, Word(symbols[i]), NEWLINE);
        Put(['\t'] + (symbols[i] + ['\n']), [TAB, Word(symbols[i]), NEWLINE]);
        Regroup(was, SymbolGlyphs(symbols[..i]), [TAB, Word(symbols[i]), NEWLINE]);
      }
      assert symbols[..|symbols|] == symbols;
    }

    method WriteNewSymbols(symbols: seq<string>, synthesise: bool)
      requires Valid()
      modifies this
      ensures Valid() && glyphs == old(glyphs) + SymbolsGlyphs(Announced(symbols, synthesise))
    {
      ghost var was, a, b := glyphs, [Word("NS_"), SPACE, Mark(':')], [SPACE, NEWLINE];
      ghost var c := SymbolGlyphs(Announced(symbols, synthesise));
      RenderThree(Word("NS_"), SPACE, Mark(':'));
      Put("NS_" + ([' '] + [':']), a);
      RenderTwo(SPACE, NEWLINE);
      Put([' '] + ['\n'], b);
      Regroup(was, a, b);
      WriteSymbols(if symbols == [] && synthesise then DEFAULT_SYMBOLS else symbols);
      Regroup(was, a + b, c);
      PutOne("\n", NEWLINE);
      Regroup(was, a + b + c, [NEWLINE]);
    }

    method WriteRegisters(t: BusTiming)
      requires Valid()
      modifies this
      ensures Valid() && glyphs == old(glyphs) + RegisterGlyphs(t)
    {
      if t.BusTiming? {
        ghost var was := glyphs;
        ghost var a, b := [SPACE, Count(t.baudrate), SPACE, Mark(':')], [SPACE, Count(t.btr1), Mark(','), Count(t.btr2)];
        RenderFour(SPACE, Count(t.baudrate), SPACE, Mark(':'));
        Put([' '] + (Decimal(t.baudrate) + ([' '] + [':'])), a);
        RenderFour(SPACE, Count(t.btr1), Mark(','), Count(t.btr2));
        Put([' '] + (Decimal(t.btr1) + ([','] + Decimal(t.btr2))), b);
        Regroup(was, a, b);
      }
    }

    method WriteTiming(t: BusTiming)
      requires Valid()
      modifies this
      ensures Valid() && glyphs == old(glyphs) + TimingGlyphs(t)
    {
      ghost var was, a, b := glyphs, [Word("BS_"), Mark(':')], [NEWLINE, NEWLINE];
      RenderTwo(Word("BS_"), Mark(':'));
      Put("BS_" + [':'], a);
      WriteRegisters(t);
      Regroup(was, a, RegisterGlyphs(t));
      RenderTwo(NEWLINE, NEWLINE);
      Put(['\n'] + ['\n'], b);
      Regroup(was, a + RegisterGlyphs(t), b);
    }

    method WriteNodeNames(nodes: seq<string>)
      requires Valid()
      modifies this
      ensures Valid() && glyphs == old(glyphs) + NodeGlyphs(nodes)
    {
      ghost var was := glyphs;
      assert was + NodeGlyphs(nodes[..0]) == was;
      for i := 0 to |nodes|
        invariant Valid() && glyphs == was + NodeGlyphs(nodes[..i])
      {
        assert nodes[..i + 1][..i] == nodes[..i];
        RenderTwo(SPACE, Word(nodes[i]));
        Put([' '] + nodes[i], [SPACE, Word(nodes[i])]);
        Regroup(was, NodeGlyphs(nodes[..i]), [SPACE, Word(nodes[i])]);
      }
      assert nodes[..|nodes|] == nodes;
    }

    method WriteNodes(nodes: seq<string>)
      requires Valid()
      modifies this
      ensures Valid() && glyphs == old(glyphs) + NodesGlyphs(nodes)
    {
      ghost var was, a, b := glyphs, [Word("BU_"), Mark(':')], [NEWLINE, NEWLINE];
      RenderTwo(Word("BU_"), Mark(':'));
      Put("BU_" + [':'], a);
      WriteNodeNames(nodes);
      Regroup(was, a, NodeGlyphs(nodes));
      RenderTwo(NEWLINE, NEWLINE);
      Put(['\n'] + ['\n'], b);
      Regroup(was, a + NodeGlyphs(nodes), b);
    }

    method WritePreamble(h: Preamble, synthesise: bool)
      requires Valid()
      modifies this
      ensures Valid() && glyphs == old(glyphs) + PreambleGlyphs(h.(symbols := Announced(h.symbols, synthesise)))
    {
      ghost var was, symbols := glyphs, Announced(h.symbols, synthesise);
      ghost var g1 := VersionGlyphs(h.version);
      ghost var g2 := g1 + SymbolsGlyphs(symbols);
      WriteVersion(h.version);
      WriteNewSymbols(h.symbols, synthesise);
      Regroup(was, g1, SymbolsGlyphs(symbols));
      WriteTiming(h.timing);
      Regroup(was, g2, TimingGlyphs(h.timing));
      WriteNodes(h.nodes);
      Regroup(was, g2 + TimingGlyphs(h.timing), NodesGlyphs(h.nodes));
    }
  }

  /// `quoted`.
  method QuoteText(s: string) returns (out: string)
    ensures out == Quoted(s)
  {
    var body := "";
    assert s[0..] == s;
    for i := 0 to |s|
      invariant Escaped(s) == body + Escaped(s[i..])
    {
      var piece := if s[i] == '"' || s[i] == '\\' then ['\\', s[i]] else [s[i]];
      EscapedNext(s, i, piece);
      RegroupText(body, piece, Escaped(s[i + 1..]));
      body := body + piece;
    }
    assert s[|s|..] == [] && body + [] == body;
    out := ['"'] + (body + ['"']);
  }

  lemma EscapedNext(s: string, i: nat, piece: string)
    requires i < |s| && piece == if s[i] == '"' || s[i] == '\\' then ['\\', s[i]] else [s[i]]
    ensures Escaped(s[i..]) == piece + Escaped(s[i + 1..])
  {
    assert s[i..][1..] == s[i + 1..];
  }

  lemma RegroupText(a: string, b: string, c: string)
    ensures a + (b + c) == a + b + c
  {
  }

  /// `write_string`, up to the line ends.
  method WriteFile(h: Preamble, ms: seq<DbcMessage>, synthesise: bool) returns (text: string)
    ensures text == Render(FileGlyphs(h.(symbols := Announced(h.symbols, synthesise)), ms))
  {
    var os := new Stream();
    ghost var g := PreambleGlyphs(h.(symbols := Announced(h.symbols, synthesise)));
    os.WritePreamble(h, synthesise);
    assert [] + g == g;
    os.WriteMessageList(ms);
    os.WriteAllSwitches(ms);
    Regroup(g, MessagesGlyphs(ms), AllSwitches(ms));
    text := os.text;
  }
}
