/// The lines of a DBC file, character by character.
module DbcText {
  import opened Text
  import opened Glyphs
  import opened Frame
  import opened DbcWriter
  import Multiplexing

  // ---- Pieces ----

  lemma RenderFront(a: seq<Glyph>, b: seq<Glyph>, ta: string, tb: string)
    requires Render(a) == ta && Render(b) == tb
    ensures Render(a + b) == ta + tb
  {
    RenderConcat(a, b);
  }

  function NumberText(n: Number): string {
    if n.negative then "-" + n.literal else n.literal
  }

  lemma NumberWritten(n: Number)
    ensures Render(NumberGlyphs(n)) == NumberText(n)
  {
    if n.negative {
      RenderTwo(Mark('-'), Literal(n.literal));
    } else {
      RenderOne(Literal(n.literal));
    }
  }

  lemma PairWritten(open: char, a: Number, between: char, b: Number, close: char)
    ensures Render(PairGlyphs(open, a, between, b, close)) == [open] + NumberText(a) + [between] + NumberText(b) + [close]
  {
    var g1, t1 := [Mark(open)], [open];
    RenderOne(Mark(open));
    RenderOne(Mark(between));
    RenderOne(Mark(close));
    NumberWritten(a);
    NumberWritten(b);
    RenderFront(g1, NumberGlyphs(a), t1, NumberText(a));
    RenderFront(g1 + NumberGlyphs(a), [Mark(between)], t1 + NumberText(a), [between]);
    RenderFront(g1 + NumberGlyphs(a) + [Mark(between)], NumberGlyphs(b), t1 + NumberText(a) + [between], NumberText(b));
    RenderFront(g1 + NumberGlyphs(a) + [Mark(between)] + NumberGlyphs(b), [Mark(close)],
                t1 + NumberText(a) + [between] + NumberText(b), [close]);
  }

  /// The names, with commas between them.
  function Joined(names: seq<string>): string
    requires names != []
  {
    if |names| == 1 then names[0] else Joined(names[..|names| - 1]) + "," + names[|names| - 1]
  }

  lemma {:induction false} ListWritten(names: seq<string>)
    requires names != []
    ensures Render(Listed(names)) == Joined(names)
  {
    var front, last := names[..|names| - 1], names[|names| - 1];
    if |names| == 1 {
      RenderOne(Word(last));
    } else {
      ListWritten(front);
      RenderTwo(Mark(','), Word(last));
      RenderFront(Listed(front), [Mark(','), Word(last)], Joined(front), "," + last);
    }
  }

  lemma NamesWritten(names: seq<string>)
    ensures Render(NameGlyphs(names)) == if names == [] then "Vector__XXX" else Joined(names)
  {
    if names == [] {
      RenderOne(Word(NO_NODE));
    } else {
      ListWritten(names);
    }
  }

  /// The indicator of a signal's part in multiplexing.
  function RoleText(s: DbcSignal): string {
    match s.role
    case Plain => ""
    case Multiplexor => " M"
    case Multiplexed => " m" + Decimal(s.muxValue)
    case Both => " m" + Decimal(s.muxValue) + "M"
  }

  lemma RoleWritten(s: DbcSignal)
    ensures Render(RoleGlyphs(s)) == RoleText(s)
  {
    if !s.role.Plain? {
      RenderTwo(SPACE, RoleGlyphs(s)[1]);
      assert RoleGlyphs(s) == [SPACE, RoleGlyphs(s)[1]];
    }
  }

  /// Start bit, length, byte order and sign: 1 for Intel, - for signed.
  function LayoutText(s: DbcSignal): string {
    Decimal(s.layout.startBit) + "|" + Decimal(s.layout.length) + "@" + (if s.layout.order.Intel? then "1" else "0")
    + (if s.signed then "-" else "+")
  }

  lemma LayoutWritten(s: DbcSignal)
    ensures Render(LayoutGlyphs(s)) == LayoutText(s)
  {
    var n, m := if s.layout.order.Intel? then 1 else 0, if s.signed then '-' else '+';
    var a, b := [Count(s.layout.startBit), Mark('|'), Count(s.layout.length)], [Mark('@'), Count(n), Mark(m)];
    RenderThree(Count(s.layout.startBit), Mark('|'), Count(s.layout.length));
    RenderThree(Mark('@'), Count(n), Mark(m));
    RenderConcat(a, b);
    assert Decimal(n) == if s.layout.order.Intel? then "1" else "0";
    assert [m] == if s.signed then "-" else "+";
  }

  // ---- Lines ----

  function ScalingText(s: DbcSignal): string {
    "(" + NumberText(s.factor) + "," + NumberText(s.offset) + ")" + " " + ("[" + NumberText(s.minimum) + "|" + NumberText(s.maximum) + "]")
  }

  lemma ScalingWritten(s: DbcSignal)
    ensures Render(ScalingGlyphs(s)) == ScalingText(s)
  {
    var a, b := PairGlyphs('(', s.factor, ',', s.offset, ')'), PairGlyphs('[', s.minimum, '|', s.maximum, ']');
    var ta := "(" + NumberText(s.factor) + "," + NumberText(s.offset) + ")";
    PairWritten('(', s.factor, ',', s.offset, ')');
    PairWritten('[', s.minimum, '|', s.maximum, ']');
    RenderOne(SPACE);
    RenderFront(a, [SPACE], ta, " ");
    RenderFront(a + [SPACE], b, ta + " ", "[" + NumberText(s.minimum) + "|" + NumberText(s.maximum) + "]");
  }

  /// The line of a signal: its name and indicator, layout, scale and range, quoted unit, and receivers.
  function SignalText(s: DbcSignal): string {
    " SG_ " + s.name + RoleText(s) + " : " + LayoutText(s) + " " + ScalingText(s) + (" " + Quoted(s.unit) + " ")
    + (if s.receivers == [] then "Vector__XXX" else Joined(s.receivers)) + "\n"
  }

  lemma SignalStartWritten(name: string)
    ensures Render([SPACE, Word("SG_"), SPACE, Word(name)]) == " SG_ " + name
  {
    RenderFour(SPACE, Word("SG_"), SPACE, Word(name));
    assert " " + ("SG_" + (" " + name)) == " SG_ " + name;
  }

  lemma ColonWritten()
    ensures Render([SPACE, Mark(':'), SPACE]) == " : "
  {
    RenderThree(SPACE, Mark(':'), SPACE);
  }

  lemma UnitWritten(unit: string)
    ensures Render([SPACE, Quotation(unit), SPACE]) == " " + Quoted(unit) + " "
  {
    RenderThree(SPACE, Quotation(unit), SPACE);
    assert " " + (Quoted(unit) + " ") == " " + Quoted(unit) + " ";
  }

  lemma SignalWritten(s: DbcSignal)
    ensures Render(SignalGlyphs(s)) == SignalText(s)
  {
    var a, b, c := [SPACE, Word("SG_"), SPACE, Word(s.name)], [SPACE, Mark(':'), SPACE], [SPACE, Quotation(s.unit), SPACE];
    var g1, t1 := a + RoleGlyphs(s), " SG_ " + s.name + RoleText(s);
    SignalStartWritten(s.name);
    RoleWritten(s);
    RenderFront(a, RoleGlyphs(s), " SG_ " + s.name, RoleText(s));
    ColonWritten();
    RenderFront(g1, b, t1, " : ");
    LayoutWritten(s);
    RenderFront(g1 + b, LayoutGlyphs(s), t1 + " : ", LayoutText(s));
    SignalRestWritten(s, g1 + b + LayoutGlyphs(s), t1 + " : " + LayoutText(s), c);
  }

  lemma SignalRestWritten(s: DbcSignal, g: seq<Glyph>, t: string, c: seq<Glyph>)
    requires Render(g) == t && c == [SPACE, Quotation(s.unit), SPACE]
    ensures Render(g + [SPACE] + ScalingGlyphs(s) + c + NameGlyphs(s.receivers) + [NEWLINE])
         == t + " " + ScalingText(s) + (" " + Quoted(s.unit) + " ") + (if s.receivers == [] then "Vector__XXX" else Joined(s.receivers)) + "\n"
  {
    var names := if s.receivers == [] then "Vector__XXX" else Joined(s.receivers);
    var g1, t1 := g + [SPACE] + ScalingGlyphs(s), t + " " + ScalingText(s);
    RenderOne(SPACE);
    RenderOne(NEWLINE);
    ScalingWritten(s);
    UnitWritten(s.unit);
    NamesWritten(s.receivers);
    RenderFront(g, [SPACE], t, " ");
    RenderFront(g + [SPACE], ScalingGlyphs(s), t + " ", ScalingText(s));
    RenderFront(g1, c, t1, " " + Quoted(s.unit) + " ");
    RenderFront(g1 + c, NameGlyphs(s.receivers), t1 + (" " + Quoted(s.unit) + " "), names);
    RenderFront(g1 + c + NameGlyphs(s.receivers), [NEWLINE], t1 + (" " + Quoted(s.unit) + " ") + names, "\n");
  }

  /// An identifier in a file: an extended one has bit 31 set.
  function IdText(id: CanId): string {
    Decimal(if id.Extended? then id.value + 0x8000_0000 else id.value)
  }

  /// The line of a message.
  function HeadText(m: DbcMessage): string {
    "BO_ " + IdText(m.id) + " " + m.name + ": " + Decimal(m.dlc) + " " + (if m.transmitter == "" then "Vector__XXX" else m.transmitter) + "\n"
  }

  lemma HeadWritten(m: DbcMessage)
    ensures Render(HeadGlyphs(m)) == HeadText(m)
  {
    var node := if m.transmitter == "" then NO_NODE else m.transmitter;
    var a, b, e := [Word("BO_"), SPACE, Count(WireId(m.id)), SPACE], [Word(m.name), Mark(':'), SPACE, Count(m.dlc)],
                   [SPACE, Word(node), NEWLINE];
    RenderFour(Word("BO_"), SPACE, Count(WireId(m.id)), SPACE);
    RenderFour(Word(m.name), Mark(':'), SPACE, Count(m.dlc));
    RenderThree(SPACE, Word(node), NEWLINE);
    RenderConcat(a, b);
    RenderConcat(a + b, e);
    assert WireId(m.id) == if m.id.Extended? then m.id.value + 0x8000_0000 else m.id.value;
    HeadRegrouped(IdText(m.id), m.name, Decimal(m.dlc), node);
  }

  lemma HeadRegrouped(id: string, name: string, dlc: string, node: string)
    ensures "BO_" + (" " + (id + " ")) + (name + (":" + (" " + dlc))) + (" " + (node + "\n"))
         == "BO_ " + id + " " + name + ": " + dlc + " " + node + "\n"
  {
  }

  // ---- Extended multiplexing ----

  /// Ranges, low and high with a dash between them, and commas and blanks between the ranges.
  function RangesText(rs: seq<Multiplexing.MuxRange>): string
    requires rs != []
  {
    var r := rs[|rs| - 1];
    var last := Decimal(r.low) + "-" + Decimal(r.high);
    if |rs| == 1 then last else RangesText(rs[..|rs| - 1]) + ", " + last
  }

  lemma {:induction false} RangesWritten(rs: seq<Multiplexing.MuxRange>)
    requires rs != []
    ensures Render(RangesGlyphs(rs)) == RangesText(rs)
  {
    var front, r := rs[..|rs| - 1], rs[|rs| - 1];
    var last := Decimal(r.low) + "-" + Decimal(r.high);
    RenderThree(Count(r.low), Mark('-'), Count(r.high));
    assert Decimal(r.low) + ("-" + Decimal(r.high)) == last;
    if |rs| > 1 {
      RangesWritten(front);
      RenderTwo(Mark(','), SPACE);
      RenderFront(RangesGlyphs(front), [Mark(','), SPACE], RangesText(front), ", ");
      RenderFront(RangesGlyphs(front) + [Mark(','), SPACE], RangeGlyphs(r), RangesText(front) + ", ", last);
    }
  }

  /// The SG_MUL_VAL_ line of a signal.
  function SwitchText(id: CanId, s: DbcSignal): string
    requires s.ranges != []
  {
    "SG_MUL_VAL_ " + IdText(id) + " " + s.name + " " + s.switchName + " " + RangesText(s.ranges) + ";\n"
  }

  lemma SwitchWritten(id: CanId, s: DbcSignal)
    requires s.ranges != []
    ensures Render(SwitchGlyphs(id, s)) == SwitchText(id, s)
  {
    var a, b := [Word("SG_MUL_VAL_"), SPACE, Count(WireId(id)), SPACE], [Word(s.name), SPACE, Word(s.switchName), SPACE];
    RenderFour(Word("SG_MUL_VAL_"), SPACE, Count(WireId(id)), SPACE);
    RenderFour(Word(s.name), SPACE, Word(s.switchName), SPACE);
    RangesWritten(s.ranges);
    RenderTwo(Mark(';'), NEWLINE);
    RenderConcat(a, b);
    RenderConcat(a + b, RangesGlyphs(s.ranges));
    RenderConcat(a + b + RangesGlyphs(s.ranges), [Mark(';'), NEWLINE]);
    assert WireId(id) == if id.Extended? then id.value + 0x8000_0000 else id.value;
    SwitchRegrouped(IdText(id), s.name, s.switchName, RangesText(s.ranges));
  }

  lemma SwitchRegrouped(id: string, name: string, switchName: string, ranges: string)
    ensures "SG_MUL_VAL_" + (" " + (id + " ")) + (name + (" " + (switchName + " "))) + ranges + (";" + "\n")
         == "SG_MUL_VAL_ " + id + " " + name + " " + switchName + " " + ranges + ";\n"
  {
  }

  // ---- The preamble ----

  function EntriesText(symbols: seq<string>): string {
    if symbols == [] then "" else EntriesText(symbols[..|symbols| - 1]) + "\t" + symbols[|symbols| - 1] + "\n"
  }

  lemma {:induction false} EntriesWritten(symbols: seq<string>)
    ensures Render(SymbolGlyphs(symbols)) == EntriesText(symbols)
  {
    if symbols != [] {
      var front, last := symbols[..|symbols| - 1], symbols[|symbols| - 1];
      EntriesWritten(front);
      RenderThree(TAB, Word(last), NEWLINE);
      RenderConcat(SymbolGlyphs(front), [TAB, Word(last), NEWLINE]);
      assert EntriesText(front) + ("\t" + (last + "\n")) == EntriesText(front) + "\t" + last + "\n";
    }
  }

  function NodesText(nodes: seq<string>): string {
    if nodes == [] then "" else NodesText(nodes[..|nodes| - 1]) + " " + nodes[|nodes| - 1]
  }

  lemma {:induction false} NodesWritten(nodes: seq<string>)
    ensures Render(NodeGlyphs(nodes)) == NodesText(nodes)
  {
    if nodes != [] {
      var front, last := nodes[..|nodes| - 1], nodes[|nodes| - 1];
      NodesWritten(front);
      RenderTwo(SPACE, Word(last));
      RenderConcat(NodeGlyphs(front), [SPACE, Word(last)]);
      assert NodesText(front) + (" " + last) == NodesText(front) + " " + last;
    }
  }

  function TimingText(t: BusTiming): string {
    match t
    case Unset => ""
    case BusTiming(baudrate, btr1, btr2) => " " + Decimal(baudrate) + " : " + Decimal(btr1) + "," + Decimal(btr2)
  }

  lemma TimingWritten(t: BusTiming)
    ensures Render(RegisterGlyphs(t)) == TimingText(t)
  {
    if t.BusTiming? {
      var x, y, z := Decimal(t.baudrate), Decimal(t.btr1), Decimal(t.btr2);
      RenderFour(SPACE, Count(t.baudrate), SPACE, Mark(':'));
      RenderFour(SPACE, Count(t.btr1), Mark(','), Count(t.btr2));
      RenderConcat([SPACE, Count(t.baudrate), SPACE, Mark(':')], [SPACE, Count(t.btr1), Mark(','), Count(t.btr2)]);
      assert " " + (x + (" " + ":")) + (" " + (y + ("," + z))) == " " + x + " : " + y + "," + z;
    }
  }

  /// Everything in front of the messages.
  function PreambleText(h: Preamble): string {
    ("VERSION " + Quoted(h.version) + "\n\n\n") + ("NS_ : \n" + EntriesText(h.symbols) + "\n") + ("BS_:" + TimingText(h.timing) + "\n\n")
    + ("BU_:" + NodesText(h.nodes) + "\n\n")
  }

  lemma VersionWritten(version: string)
    ensures Render(VersionGlyphs(version)) == "VERSION " + Quoted(version) + "\n\n\n"
  {
    RenderThree(Word("VERSION"), SPACE, Quotation(version));
    RenderThree(NEWLINE, NEWLINE, NEWLINE);
    RenderConcat([Word("VERSION"), SPACE, Quotation(version)], [NEWLINE, NEWLINE, NEWLINE]);
    assert "VERSION" + (" " + Quoted(version)) + ("\n" + ("\n" + "\n")) == "VERSION " + Quoted(version) + "\n\n\n";
  }

  lemma SymbolsWritten(symbols: seq<string>)
    ensures Render(SymbolsGlyphs(symbols)) == "NS_ : \n" + EntriesText(symbols) + "\n"
  {
    var a, b := [Word("NS_"), SPACE, Mark(':')], [SPACE, NEWLINE];
    RenderThree(Word("NS_"), SPACE, Mark(':'));
    RenderTwo(SPACE, NEWLINE);
    RenderOne(NEWLINE);
    EntriesWritten(symbols);
    RenderConcat(a, b);
    RenderConcat(a + b, SymbolGlyphs(symbols));
    RenderConcat(a + b + SymbolGlyphs(symbols), [NEWLINE]);
    assert "NS_" + (" " + ":") + (" " + "\n") == "NS_ : \n";
  }

  lemma BusTimingWritten(t: BusTiming)
    ensures Render(TimingGlyphs(t)) == "BS_:" + TimingText(t) + "\n\n"
  {
    RenderTwo(Word("BS_"), Mark(':'));
    RenderTwo(NEWLINE, NEWLINE);
    TimingWritten(t);
    RenderConcat([Word("BS_"), Mark(':')], RegisterGlyphs(t));
    RenderConcat([Word("BS_"), Mark(':')] + RegisterGlyphs(t), [NEWLINE, NEWLINE]);
    assert "BS_" + ":" == "BS_:" && "\n" + "\n" == "\n\n";
  }

  lemma NodeListWritten(nodes: seq<string>)
    ensures Render(NodesGlyphs(nodes)) == "BU_:" + NodesText(nodes) + "\n\n"
  {
    RenderTwo(Word("BU_"), Mark(':'));
    RenderTwo(NEWLINE, NEWLINE);
    NodesWritten(nodes);
    RenderConcat([Word("BU_"), Mark(':')], NodeGlyphs(nodes));
    RenderConcat([Word("BU_"), Mark(':')] + NodeGlyphs(nodes), [NEWLINE, NEWLINE]);
    assert "BU_" + ":" == "BU_:" && "\n" + "\n" == "\n\n";
  }

  lemma PreambleWritten(h: Preamble)
    ensures Render(PreambleGlyphs(h)) == PreambleText(h)
  {
    var a, b, c, d := VersionGlyphs(h.version), SymbolsGlyphs(h.symbols), TimingGlyphs(h.timing), NodesGlyphs(h.nodes);
    VersionWritten(h.version);
    SymbolsWritten(h.symbols);
    BusTimingWritten(h.timing);
    NodeListWritten(h.nodes);
    RenderConcat(a, b);
    RenderConcat(a + b, c);
    RenderConcat(a + b + c, d);
  }

  // ---- The file ----

  function SignalsText(ss: seq<DbcSignal>): string {
    if ss == [] then "" else SignalsText(ss[..|ss| - 1]) + SignalText(ss[|ss| - 1])
  }

  function MessagesText(ms: seq<DbcMessage>): string {
    if ms == [] then ""
    else
      var m := ms[|ms| - 1];
      MessagesText(ms[..|ms| - 1]) + (HeadText(m) + SignalsText(m.signals) + "\n")
  }

  function SwitchesText(id: CanId, ss: seq<DbcSignal>): string {
    if ss == [] then ""
    else
      var s := ss[|ss| - 1];
      SwitchesText(id, ss[..|ss| - 1]) + if s.ranges == [] then "" else SwitchText(id, s)
  }

  function AllSwitchesText(ms: seq<DbcMessage>): string {
    if ms == [] then "" else AllSwitchesText(ms[..|ms| - 1]) + SwitchesText(ms[|ms| - 1].id, ms[|ms| - 1].signals)
  }

  lemma {:induction false} SignalsWritten(ss: seq<DbcSignal>)
    ensures Render(SignalsGlyphs(ss)) == SignalsText(ss)
  {
    if ss != [] {
      SignalsWritten(ss[..|ss| - 1]);
      SignalWritten(ss[|ss| - 1]);
      RenderConcat(SignalsGlyphs(ss[..|ss| - 1]), SignalGlyphs(ss[|ss| - 1]));
    }
  }

  lemma {:induction false} MessagesWritten(ms: seq<DbcMessage>)
    ensures Render(MessagesGlyphs(ms)) == MessagesText(ms)
  {
    if ms != [] {
      MessagesWritten(ms[..|ms| - 1]);
      MessageWritten(ms[|ms| - 1]);
      RenderConcat(MessagesGlyphs(ms[..|ms| - 1]), MessageGlyphs(ms[|ms| - 1]));
    }
  }

  lemma MessageWritten(m: DbcMessage)
    ensures Render(MessageGlyphs(m)) == HeadText(m) + SignalsText(m.signals) + "\n"
  {
    HeadWritten(m);
    SignalsWritten(m.signals);
    RenderOne(NEWLINE);
    RenderFront(HeadGlyphs(m), SignalsGlyphs(m.signals), HeadText(m), SignalsText(m.signals));
    RenderFront(HeadGlyphs(m) + SignalsGlyphs(m.signals), [NEWLINE], HeadText(m) + SignalsText(m.signals), "\n");
  }

  lemma {:induction false} SwitchesWritten(id: CanId, ss: seq<DbcSignal>)
    ensures Render(SwitchesGlyphs(id, ss)) == SwitchesText(id, ss)
  {
    if ss != [] {
      var s := ss[|ss| - 1];
      SwitchesWritten(id, ss[..|ss| - 1]);
      if s.ranges != [] {
        SwitchWritten(id, s);
      }
      RenderConcat(SwitchesGlyphs(id, ss[..|ss| - 1]), SwitchGlyphs(id, s));
    }
  }

  lemma {:induction false} AllSwitchesWritten(ms: seq<DbcMessage>)
    ensures Render(AllSwitches(ms)) == AllSwitchesText(ms)
  {
    if ms != [] {
      var m := ms[|ms| - 1];
      AllSwitchesWritten(ms[..|ms| - 1]);
      SwitchesWritten(m.id, m.signals);
      RenderConcat(AllSwitches(ms[..|ms| - 1]), SwitchesGlyphs(m.id, m.signals));
    }
  }

  /// A file, character by character.
  lemma FileWritten(h: Preamble, ms: seq<DbcMessage>)
    ensures Render(FileGlyphs(h, ms)) == PreambleText(h) + (MessagesText(ms) + AllSwitchesText(ms))
  {
    PreambleWritten(h);
    MessagesWritten(ms);
    AllSwitchesWritten(ms);
    RenderConcat(MessagesGlyphs(ms), AllSwitches(ms));
    RenderConcat(PreambleGlyphs(h), DatabaseGlyphs(ms));
  }
}
