/// A database as it is read from a file: what becomes of every string in it, and when nothing does.
module DbcAsRead {
  import opened Text
  import opened Lexer
  import opened Glyphs
  import opened Frame
  import opened DbcWriter
  import opened DbcParser
  import opened WrittenDbc
  import opened DbcRoundTrip
  import opened Encoding
  import opened LineEnds
  import opened DbcStrings
  import Multiplexing

  // ---- The database as it is read ----

  function NamesRead(ns: seq<string>, how: Reading): seq<string> {
    seq(|ns|, k requires 0 <= k < |ns| => NameRead(ns[k], how))
  }

  function SignalRead(s: DbcSignal, how: Reading): DbcSignal {
    s.(name := NameRead(s.name, how), unit := TextRead(s.unit, how), receivers := NamesRead(s.receivers, how),
       switchName := NameRead(s.switchName, how))
  }

  function SignalsRead(ss: seq<DbcSignal>, how: Reading): seq<DbcSignal> {
    seq(|ss|, k requires 0 <= k < |ss| => SignalRead(ss[k], how))
  }

  function MessageRead(m: DbcMessage, how: Reading): DbcMessage {
    m.(name := NameRead(m.name, how), transmitter := NameRead(m.transmitter, how), signals := SignalsRead(m.signals, how))
  }

  function MessagesRead(ms: seq<DbcMessage>, how: Reading): seq<DbcMessage> {
    seq(|ms|, k requires 0 <= k < |ms| => MessageRead(ms[k], how))
  }

  function PreambleRead(h: Preamble, how: Reading): Preamble {
    h.(version := TextRead(h.version, how), symbols := NamesRead(h.symbols, how), nodes := NamesRead(h.nodes, how))
  }

  // ---- Encodings, string by string ----

  predicate NamesValid(ns: seq<string>) {
    forall k | 0 <= k < |ns| :: ValidUtf8(ns[k])
  }

  predicate SignalValid(s: DbcSignal) {
    ValidUtf8(s.name) && ValidUtf8(s.unit) && NamesValid(s.receivers) && ValidUtf8(s.switchName)
  }

  predicate MessageValid(m: DbcMessage) {
    ValidUtf8(m.name) && ValidUtf8(m.transmitter) && forall k | 0 <= k < |m.signals| :: SignalValid(m.signals[k])
  }

  predicate PreambleValid(h: Preamble) {
    ValidUtf8(h.version) && NamesValid(h.symbols) && NamesValid(h.nodes)
  }

  /// Every string of the database is UTF-8.
  predicate AllUtf8(h: Preamble, ms: seq<DbcMessage>) {
    PreambleValid(h) && forall k | 0 <= k < |ms| :: MessageValid(ms[k])
  }

  /// The version or some unit holds a carriage return.
  predicate HasReturns(h: Preamble, ms: seq<DbcMessage>) {
    HasReturn(h.version) || exists i, j :: 0 <= i < |ms| && 0 <= j < |ms[i].signals| && HasReturn(ms[i].signals[j].unit)
  }

  // ---- Lines ----

  lemma WordAfter(front: seq<Glyph>, w: string, how: Reading)
    requires Wordless(front)
    ensures Carries(front + [Word(w)], how, front + [Word(NameRead(w, how))], ValidUtf8(w))
  {
    CarryWordless(front, how);
    CarryWord(w, how);
    CarryConcat(front, [Word(w)], how, front, [Word(NameRead(w, how))], true, ValidUtf8(w));
  }

  lemma KeywordAfter(front: seq<Glyph>, w: string, how: Reading)
    requires Wordless(front) && Ascii(w)
    ensures Carries(front + [Word(w)], how, front + [Word(w)], true)
  {
    AsciiRead(w, how);
    WordAfter(front, w, how);
  }

  /// With glyphs behind that stay what they are.
  lemma CarryOn(a: seq<Glyph>, b: seq<Glyph>, how: Reading, ha: seq<Glyph>, va: bool)
    requires Carries(a, how, ha, va) && Wordless(b)
    ensures Carries(a + b, how, ha + b, va)
  {
    CarryWordless(b, how);
    CarryConcat(a, b, how, ha, b, va, true);
  }

  lemma NamesEnd(ns: seq<string>, how: Reading)
    requires ns != []
    ensures var (front, last) := (ns[..|ns| - 1], ns[|ns| - 1]);
            && NamesRead(ns, how)[..|ns| - 1] == NamesRead(front, how)
            && NamesRead(ns, how)[|ns| - 1] == NameRead(last, how)
            && (NamesValid(ns) <==> NamesValid(front) && ValidUtf8(last))
  {
  }

  lemma {:induction false} CarryListed(ns: seq<string>, how: Reading)
    requires ns != []
    ensures Carries(Listed(ns), how, Listed(NamesRead(ns, how)), NamesValid(ns))
    decreases |ns|
  {
    var front, last := ns[..|ns| - 1], ns[|ns| - 1];
    var name := NameRead(last, how);
    NamesEnd(ns, how);
    if |ns| == 1 {
      CarryWord(last, how);
    } else {
      CarryListed(front, how);
      WordAfter([Mark(',')], last, how);
      assert [Mark(',')] + [Word(last)] == [Mark(','), Word(last)] && [Mark(',')] + [Word(name)] == [Mark(','), Word(name)];
      CarryConcat(Listed(front), [Mark(','), Word(last)], how, Listed(NamesRead(front, how)), [Mark(','), Word(name)],
                  NamesValid(front), ValidUtf8(last));
    }
  }

  lemma NoNodeAscii()
    ensures Ascii(NO_NODE)
  {
  }

  lemma CarryNames(ns: seq<string>, how: Reading)
    ensures Carries(NameGlyphs(ns), how, NameGlyphs(NamesRead(ns, how)), NamesValid(ns))
  {
    if ns == [] {
      NoNodeAscii();
      CarryKeyword(NO_NODE, how);
    } else {
      CarryListed(ns, how);
    }
  }

  lemma IndicatorAscii(n: nat)
    requires n < WORD32
    ensures Ascii("m" + Decimal(n)) && Ascii("m" + Decimal(n) + "M")
  {
    DecimalReads(n);
  }

  lemma CarryRole(s: DbcSignal, how: Reading)
    requires s.muxValue < WORD32
    ensures Carries(RoleGlyphs(s), how, RoleGlyphs(s), true)
  {
    if s.role.Plain? {
      CarryWordless([], how);
    } else {
      var w := RoleGlyphs(s)[1].word;
      IndicatorAscii(s.muxValue);
      KeywordAfter([SPACE], w, how);
      assert RoleGlyphs(s) == [SPACE] + [Word(w)];
    }
  }

  // ---- Signals ----

  lemma CarryName(s: DbcSignal, how: Reading, name: string)
    requires name == NameRead(s.name, how)
    ensures Carries([SPACE, Word("SG_"), SPACE, Word(s.name)], how, [SPACE, Word("SG_"), SPACE, Word(name)], ValidUtf8(s.name))
  {
    KeywordAfter([SPACE], "SG_", how);
    WordAfter([SPACE], s.name, how);
    assert [SPACE] + [Word("SG_")] + ([SPACE] + [Word(s.name)]) == [SPACE, Word("SG_"), SPACE, Word(s.name)];
    assert [SPACE] + [Word("SG_")] + ([SPACE] + [Word(name)]) == [SPACE, Word("SG_"), SPACE, Word(name)];
    CarryConcat([SPACE] + [Word("SG_")], [SPACE] + [Word(s.name)], how, [SPACE] + [Word("SG_")], [SPACE] + [Word(name)],
                true, ValidUtf8(s.name));
  }

  lemma ScalingWordless(s: DbcSignal)
    ensures Wordless(ScalingGlyphs(s))
  {
    PairWordless('(', s.factor, ',', s.offset, ')');
    PairWordless('[', s.minimum, '|', s.maximum, ']');
  }

  lemma PairWordless(open: char, a: Number, between: char, b: Number, close: char)
    ensures Wordless(PairGlyphs(open, a, between, b, close))
  {
  }

  /// The line up to the unit.
  lemma CarryFront(s: DbcSignal, how: Reading, name: seq<Glyph>, colon: seq<Glyph>, read: seq<Glyph>)
    requires s.muxValue < WORD32 && Carries(name, how, read, ValidUtf8(s.name)) && colon == [SPACE, Mark(':'), SPACE]
    ensures Carries(name + RoleGlyphs(s) + colon + LayoutGlyphs(s) + [SPACE] + ScalingGlyphs(s), how,
                    read + RoleGlyphs(s) + colon + LayoutGlyphs(s) + [SPACE] + ScalingGlyphs(s), ValidUtf8(s.name))
  {
    var v := ValidUtf8(s.name);
    CarryRole(s, how);
    CarryConcat(name, RoleGlyphs(s), how, read, RoleGlyphs(s), v, true);
    CarryOn(name + RoleGlyphs(s), colon, how, read + RoleGlyphs(s), v);
    CarryOn(name + RoleGlyphs(s) + colon, LayoutGlyphs(s), how, read + RoleGlyphs(s) + colon, v);
    CarryOn(name + RoleGlyphs(s) + colon + LayoutGlyphs(s), [SPACE], how, read + RoleGlyphs(s) + colon + LayoutGlyphs(s), v);
    ScalingWordless(s);
    CarryOn(name + RoleGlyphs(s) + colon + LayoutGlyphs(s) + [SPACE], ScalingGlyphs(s), how,
            read + RoleGlyphs(s) + colon + LayoutGlyphs(s) + [SPACE], v);
  }

  lemma CarryUnit(unit: string, how: Reading)
    ensures Carries([SPACE, Quotation(unit), SPACE], how, [SPACE, Quotation(TextRead(unit, how)), SPACE], ValidUtf8(unit))
  {
    var read := TextRead(unit, how);
    CarryWordless([SPACE], how);
    CarryQuotation(unit, how);
    CarryConcat([SPACE], [Quotation(unit)], how, [SPACE], [Quotation(read)], true, ValidUtf8(unit));
    CarryOn([SPACE] + [Quotation(unit)], [SPACE], how, [SPACE] + [Quotation(read)], ValidUtf8(unit));
    assert [SPACE] + [Quotation(unit)] + [SPACE] == [SPACE, Quotation(unit), SPACE];
    assert [SPACE] + [Quotation(read)] + [SPACE] == [SPACE, Quotation(read), SPACE];
  }

  lemma CarryLine(front: seq<Glyph>, unit: seq<Glyph>, names: seq<Glyph>, how: Reading, hf: seq<Glyph>, hu: seq<Glyph>, hn: seq<Glyph>,
                  vf: bool, vu: bool, vn: bool)
    requires Carries(front, how, hf, vf) && Carries(unit, how, hu, vu) && Carries(names, how, hn, vn)
    ensures Carries(front + unit + names + [NEWLINE], how, hf + hu + hn + [NEWLINE], vf && vu && vn)
  {
    CarryConcat(front, unit, how, hf, hu, vf, vu);
    CarryConcat(front + unit, names, how, hf + hu, hn, vf && vu, vn);
    CarryOn(front + unit + names, [NEWLINE], how, hf + hu + hn, vf && vu && vn);
  }

  /// The strings of a signal that its line holds are UTF-8.
  predicate LineValid(s: DbcSignal) {
    ValidUtf8(s.name) && ValidUtf8(s.unit) && NamesValid(s.receivers)
  }

  lemma CarrySignal(s: DbcSignal, how: Reading)
    requires s.muxValue < WORD32
    ensures Carries(SignalGlyphs(s), how, SignalGlyphs(SignalRead(s, how)), LineValid(s))
  {
    var t := SignalRead(s, how);
    var name, read := [SPACE, Word("SG_"), SPACE, Word(s.name)], [SPACE, Word("SG_"), SPACE, Word(t.name)];
    var colon, unit, hu := [SPACE, Mark(':'), SPACE], [SPACE, Quotation(s.unit), SPACE], [SPACE, Quotation(t.unit), SPACE];
    CarryName(s, how, t.name);
    CarryFront(s, how, name, colon, read);
    CarryUnit(s.unit, how);
    CarryNames(s.receivers, how);
    SameShape(s, how);
    CarryLine(name + RoleGlyphs(s) + colon + LayoutGlyphs(s) + [SPACE] + ScalingGlyphs(s), unit, NameGlyphs(s.receivers), how,
              read + RoleGlyphs(s) + colon + LayoutGlyphs(s) + [SPACE] + ScalingGlyphs(s), hu, NameGlyphs(t.receivers),
              ValidUtf8(s.name), ValidUtf8(s.unit), NamesValid(s.receivers));
  }

  lemma SameShape(s: DbcSignal, how: Reading)
    ensures var t := SignalRead(s, how);
            RoleGlyphs(t) == RoleGlyphs(s) && LayoutGlyphs(t) == LayoutGlyphs(s) && ScalingGlyphs(t) == ScalingGlyphs(s)
  {
  }

  predicate LinesValid(ss: seq<DbcSignal>) {
    forall k | 0 <= k < |ss| :: LineValid(ss[k])
  }

  lemma SignalsEnd(ss: seq<DbcSignal>, how: Reading)
    requires ss != []
    ensures var (front, last) := (ss[..|ss| - 1], ss[|ss| - 1]);
            && SignalsRead(ss, how)[..|ss| - 1] == SignalsRead(front, how)
            && SignalsRead(ss, how)[|ss| - 1] == SignalRead(last, how)
            && (LinesValid(ss) <==> LinesValid(front) && LineValid(last))
            && (SwitchesValid(ss) <==> SwitchesValid(front) && SwitchValid(last))
  {
  }

  lemma SignalCarried(ss: seq<DbcSignal>, how: Reading, front: seq<DbcSignal>, last: DbcSignal)
    requires ss != [] && front == ss[..|ss| - 1] && last == ss[|ss| - 1] && last.muxValue < WORD32
    requires Carries(SignalsGlyphs(front), how, SignalsGlyphs(SignalsRead(front, how)), LinesValid(front))
    ensures Carries(SignalsGlyphs(ss), how, SignalsGlyphs(SignalsRead(ss, how)), LinesValid(ss))
  {
    CarrySignal(last, how);
    SignalsEnd(ss, how);
    CarryConcat(SignalsGlyphs(front), SignalGlyphs(last), how, SignalsGlyphs(SignalsRead(front, how)), SignalGlyphs(SignalRead(last, how)),
                LinesValid(front), LineValid(last));
  }

  lemma {:induction false} CarrySignals(ss: seq<DbcSignal>, how: Reading)
    requires forall k | 0 <= k < |ss| :: ss[k].muxValue < WORD32
    ensures Carries(SignalsGlyphs(ss), how, SignalsGlyphs(SignalsRead(ss, how)), LinesValid(ss))
    decreases |ss|
  {
    if ss == [] {
      CarryWordless([], how);
    } else {
      CarrySignals(ss[..|ss| - 1], how);
      SignalCarried(ss, how, ss[..|ss| - 1], ss[|ss| - 1]);
    }
  }

  // ---- Messages ----

  lemma CarryHeadName(m: DbcMessage, how: Reading, name: string)
    requires name == NameRead(m.name, how)
    ensures Carries([Word(m.name), Mark(':'), SPACE, Count(m.dlc)], how, [Word(name), Mark(':'), SPACE, Count(m.dlc)], ValidUtf8(m.name))
  {
    CarryWord(m.name, how);
    CarryOn([Word(m.name)], [Mark(':'), SPACE, Count(m.dlc)], how, [Word(name)], ValidUtf8(m.name));
    assert [Word(m.name)] + [Mark(':'), SPACE, Count(m.dlc)] == [Word(m.name), Mark(':'), SPACE, Count(m.dlc)];
    assert [Word(name)] + [Mark(':'), SPACE, Count(m.dlc)] == [Word(name), Mark(':'), SPACE, Count(m.dlc)];
  }

  lemma CarryHeadStart(id: CanId, how: Reading)
    ensures var gs := [Word("BO_"), SPACE, Count(WireId(id)), SPACE]; Carries(gs, how, gs, true)
  {
    CarryKeyword("BO_", how);
    CarryOn([Word("BO_")], [SPACE, Count(WireId(id)), SPACE], how, [Word("BO_")], true);
    assert [Word("BO_")] + [SPACE, Count(WireId(id)), SPACE] == [Word("BO_"), SPACE, Count(WireId(id)), SPACE];
  }

  lemma CarryNode(node: string, how: Reading, read: string)
    requires read == NameRead(node, how)
    ensures Carries([SPACE, Word(node), NEWLINE], how, [SPACE, Word(read), NEWLINE], ValidUtf8(node))
  {
    WordAfter([SPACE], node, how);
    CarryOn([SPACE] + [Word(node)], [NEWLINE], how, [SPACE] + [Word(read)], ValidUtf8(node));
    assert [SPACE] + [Word(node)] + [NEWLINE] == [SPACE, Word(node), NEWLINE];
    assert [SPACE] + [Word(read)] + [NEWLINE] == [SPACE, Word(read), NEWLINE];
  }

  /// The node that is written for a transmitter.
  lemma TransmitterRead(node: string, how: Reading)
    ensures (NameRead(node, how) == "" <==> node == "") && (node == "" ==> ValidUtf8(node))
    ensures NameRead(NO_NODE, how) == NO_NODE && ValidUtf8(NO_NODE)
  {
    NoNodeAscii();
    AsciiRead(NO_NODE, how);
    AsciiIsValid("");
    TranscodedLength(node);
  }

  lemma CarryHead(m: DbcMessage, how: Reading)
    ensures Carries(HeadGlyphs(m), how, HeadGlyphs(MessageRead(m, how)), ValidUtf8(m.name) && ValidUtf8(m.transmitter))
  {
    var t := MessageRead(m, how);
    var node, read := if m.transmitter == "" then NO_NODE else m.transmitter, if t.transmitter == "" then NO_NODE else t.transmitter;
    var a, b, e := [Word("BO_"), SPACE, Count(WireId(m.id)), SPACE], [Word(m.name), Mark(':'), SPACE, Count(m.dlc)],
                   [SPACE, Word(node), NEWLINE];
    var hb, he := [Word(t.name), Mark(':'), SPACE, Count(m.dlc)], [SPACE, Word(read), NEWLINE];
    TransmitterRead(m.transmitter, how);
    CarryHeadStart(m.id, how);
    CarryHeadName(m, how, t.name);
    CarryNode(node, how, read);
    CarryConcat(a, b, how, a, hb, true, ValidUtf8(m.name));
    CarryConcat(a + b, e, how, a + hb, he, ValidUtf8(m.name), ValidUtf8(node));
  }

  predicate BlockValid(m: DbcMessage) {
    ValidUtf8(m.name) && ValidUtf8(m.transmitter) && LinesValid(m.signals)
  }

  predicate BlocksValid(ms: seq<DbcMessage>) {
    forall k | 0 <= k < |ms| :: BlockValid(ms[k])
  }

  lemma CarryMessage(m: DbcMessage, how: Reading)
    requires forall k | 0 <= k < |m.signals| :: m.signals[k].muxValue < WORD32
    ensures Carries(MessageGlyphs(m), how, MessageGlyphs(MessageRead(m, how)), BlockValid(m))
  {
    var t, vh, vs := MessageRead(m, how), ValidUtf8(m.name) && ValidUtf8(m.transmitter), LinesValid(m.signals);
    CarryHead(m, how);
    CarrySignals(m.signals, how);
    CarryConcat(HeadGlyphs(m), SignalsGlyphs(m.signals), how, HeadGlyphs(t), SignalsGlyphs(t.signals), vh, vs);
    CarryOn(HeadGlyphs(m) + SignalsGlyphs(m.signals), [NEWLINE], how, HeadGlyphs(t) + SignalsGlyphs(t.signals), vh && vs);
  }

  /// The multiplexor values of the messages fit a word.
  predicate Valued(ms: seq<DbcMessage>) {
    forall i, k :: 0 <= i < |ms| && 0 <= k < |ms[i].signals| ==> ms[i].signals[k].muxValue < WORD32
  }

  lemma MessagesEnd(ms: seq<DbcMessage>, how: Reading)
    requires ms != []
    ensures var (front, last) := (ms[..|ms| - 1], ms[|ms| - 1]);
            && MessagesRead(ms, how)[..|ms| - 1] == MessagesRead(front, how)
            && MessagesRead(ms, how)[|ms| - 1] == MessageRead(last, how)
            && (BlocksValid(ms) <==> BlocksValid(front) && BlockValid(last))
            && (AllSwitchesValid(ms) <==> AllSwitchesValid(front) && SwitchesValid(last.signals))
            && (Valued(ms) ==> Valued(front))
  {
    assert Valued(ms) ==> forall i, k :: 0 <= i < |ms| - 1 && 0 <= k < |ms[i].signals| ==> ms[i].signals[k].muxValue < WORD32;
  }

  lemma {:induction false} CarryMessages(ms: seq<DbcMessage>, how: Reading)
    requires Valued(ms)
    ensures Carries(MessagesGlyphs(ms), how, MessagesGlyphs(MessagesRead(ms, how)), BlocksValid(ms))
    decreases |ms|
  {
    if ms == [] {
      CarryWordless([], how);
    } else {
      var front, last := ms[..|ms| - 1], ms[|ms| - 1];
      MessagesEnd(ms, how);
      CarryMessages(front, how);
      CarryMessage(last, how);
      CarryConcat(MessagesGlyphs(front), MessageGlyphs(last), how, MessagesGlyphs(MessagesRead(front, how)),
                  MessageGlyphs(MessageRead(last, how)), BlocksValid(front), BlockValid(last));
    }
  }

  // ---- Extended multiplexing ----

  predicate SwitchValid(s: DbcSignal) {
    s.ranges == [] || (ValidUtf8(s.name) && ValidUtf8(s.switchName))
  }

  predicate SwitchesValid(ss: seq<DbcSignal>) {
    forall k | 0 <= k < |ss| :: SwitchValid(ss[k])
  }

  predicate AllSwitchesValid(ms: seq<DbcMessage>) {
    forall k | 0 <= k < |ms| :: SwitchesValid(ms[k].signals)
  }

  lemma {:induction false} RangesWordless(rs: seq<Multiplexing.MuxRange>)
    requires rs != []
    ensures Wordless(RangesGlyphs(rs))
  {
    if |rs| > 1 {
      RangesWordless(rs[..|rs| - 1]);
    }
  }

  lemma CarrySwitchNames(s: DbcSignal, how: Reading, name: string, switchName: string)
    requires name == NameRead(s.name, how) && switchName == NameRead(s.switchName, how)
    ensures Carries([Word(s.name), SPACE, Word(s.switchName), SPACE], how, [Word(name), SPACE, Word(switchName), SPACE],
                    ValidUtf8(s.name) && ValidUtf8(s.switchName))
  {
    var a, b, ha, hb := [Word(s.name)], [SPACE] + [Word(s.switchName)], [Word(name)], [SPACE] + [Word(switchName)];
    var v := ValidUtf8(s.name) && ValidUtf8(s.switchName);
    CarryWord(s.name, how);
    WordAfter([SPACE], s.switchName, how);
    CarryConcat(a, b, how, ha, hb, ValidUtf8(s.name), ValidUtf8(s.switchName));
    CarryOn(a + b, [SPACE], how, ha + hb, v);
    assert a + b + [SPACE] == [Word(s.name), SPACE, Word(s.switchName), SPACE];
    assert ha + hb + [SPACE] == [Word(name), SPACE, Word(switchName), SPACE];
  }

  lemma CarrySwitchStart(id: CanId, how: Reading)
    ensures var gs := [Word("SG_MUL_VAL_"), SPACE, Count(WireId(id)), SPACE]; Carries(gs, how, gs, true)
  {
    CarryKeyword("SG_MUL_VAL_", how);
    CarryOn([Word("SG_MUL_VAL_")], [SPACE, Count(WireId(id)), SPACE], how, [Word("SG_MUL_VAL_")], true);
    assert [Word("SG_MUL_VAL_")] + [SPACE, Count(WireId(id)), SPACE] == [Word("SG_MUL_VAL_"), SPACE, Count(WireId(id)), SPACE];
  }

  lemma CarrySwitch(id: CanId, s: DbcSignal, how: Reading)
    ensures Carries(SwitchGlyphs(id, s), how, SwitchGlyphs(id, SignalRead(s, how)), SwitchValid(s))
  {
    if s.ranges == [] {
      CarryWordless([], how);
    } else {
      var t, v := SignalRead(s, how), ValidUtf8(s.name) && ValidUtf8(s.switchName);
      var a, b, hb := [Word("SG_MUL_VAL_"), SPACE, Count(WireId(id)), SPACE], [Word(s.name), SPACE, Word(s.switchName), SPACE],
                      [Word(t.name), SPACE, Word(t.switchName), SPACE];
      CarrySwitchStart(id, how);
      CarrySwitchNames(s, how, t.name, t.switchName);
      CarryConcat(a, b, how, a, hb, true, v);
      RangesWordless(s.ranges);
      CarryOn(a + b, RangesGlyphs(s.ranges), how, a + hb, v);
      CarryOn(a + b + RangesGlyphs(s.ranges), [Mark(';'), NEWLINE], how, a + hb + RangesGlyphs(s.ranges), v);
    }
  }

  lemma SwitchesEnd(id: CanId, ss: seq<DbcSignal>, front: seq<DbcSignal>, last: DbcSignal)
    requires ss != [] && front == ss[..|ss| - 1] && last == ss[|ss| - 1]
    ensures SwitchesGlyphs(id, ss) == SwitchesGlyphs(id, front) + SwitchGlyphs(id, last)
  {
  }

  lemma SwitchCarried(id: CanId, ss: seq<DbcSignal>, how: Reading, front: seq<DbcSignal>, last: DbcSignal)
    requires ss != [] && front == ss[..|ss| - 1] && last == ss[|ss| - 1]
    requires Carries(SwitchesGlyphs(id, front), how, SwitchesGlyphs(id, SignalsRead(front, how)), SwitchesValid(front))
    ensures Carries(SwitchesGlyphs(id, ss), how, SwitchesGlyphs(id, SignalsRead(ss, how)), SwitchesValid(ss))
  {
    CarrySwitch(id, last, how);
    SignalsEnd(ss, how);
    SwitchesEnd(id, ss, front, last);
    SwitchesEnd(id, SignalsRead(ss, how), SignalsRead(front, how), SignalRead(last, how));
    CarryConcat(SwitchesGlyphs(id, front), SwitchGlyphs(id, last), how, SwitchesGlyphs(id, SignalsRead(front, how)),
                SwitchGlyphs(id, SignalRead(last, how)), SwitchesValid(front), SwitchValid(last));
  }

  lemma {:induction false} CarrySwitches(id: CanId, ss: seq<DbcSignal>, how: Reading)
    ensures Carries(SwitchesGlyphs(id, ss), how, SwitchesGlyphs(id, SignalsRead(ss, how)), SwitchesValid(ss))
    decreases |ss|
  {
    if ss == [] {
      CarryWordless([], how);
    } else {
      CarrySwitches(id, ss[..|ss| - 1], how);
      SwitchCarried(id, ss, how, ss[..|ss| - 1], ss[|ss| - 1]);
    }
  }

  lemma {:induction false} CarryAllSwitches(ms: seq<DbcMessage>, how: Reading)
    ensures Carries(AllSwitches(ms), how, AllSwitches(MessagesRead(ms, how)), AllSwitchesValid(ms))
    decreases |ms|
  {
    if ms == [] {
      CarryWordless([], how);
    } else {
      var front, last := ms[..|ms| - 1], ms[|ms| - 1];
      MessagesEnd(ms, how);
      CarryAllSwitches(front, how);
      CarrySwitches(last.id, last.signals, how);
      CarryConcat(AllSwitches(front), SwitchesGlyphs(last.id, last.signals), how, AllSwitches(MessagesRead(front, how)),
                  SwitchesGlyphs(last.id, SignalsRead(last.signals, how)), AllSwitchesValid(front), SwitchesValid(last.signals));
    }
  }

  lemma CarryDatabase(ms: seq<DbcMessage>, how: Reading)
    requires Valued(ms)
    ensures Carries(DatabaseGlyphs(ms), how, DatabaseGlyphs(MessagesRead(ms, how)), BlocksValid(ms) && AllSwitchesValid(ms))
  {
    var t := MessagesRead(ms, how);
    CarryMessages(ms, how);
    CarryAllSwitches(ms, how);
    CarryConcat(MessagesGlyphs(ms), AllSwitches(ms), how, MessagesGlyphs(t), AllSwitches(t), BlocksValid(ms), AllSwitchesValid(ms));
  }

  // ---- The preamble ----

  lemma CarryVersion(version: string, how: Reading)
    ensures Carries(VersionGlyphs(version), how, VersionGlyphs(TextRead(version, how)), ValidUtf8(version))
  {
    var t := TextRead(version, how);
    CarryKeyword("VERSION", how);
    CarryOn([Word("VERSION")], [SPACE], how, [Word("VERSION")], true);
    CarryQuotation(version, how);
    CarryConcat([Word("VERSION")] + [SPACE], [Quotation(version)], how, [Word("VERSION")] + [SPACE], [Quotation(t)], true, ValidUtf8(version));
    assert [Word("VERSION")] + [SPACE] + [Quotation(version)] == [Word("VERSION"), SPACE, Quotation(version)];
    assert [Word("VERSION")] + [SPACE] + [Quotation(t)] == [Word("VERSION"), SPACE, Quotation(t)];
    CarryOn([Word("VERSION"), SPACE, Quotation(version)], [NEWLINE, NEWLINE, NEWLINE], how, [Word("VERSION"), SPACE, Quotation(t)],
            ValidUtf8(version));
  }

  lemma CarryEntry(name: string, how: Reading, read: string)
    requires read == NameRead(name, how)
    ensures Carries([TAB, Word(name), NEWLINE], how, [TAB, Word(read), NEWLINE], ValidUtf8(name))
  {
    WordAfter([TAB], name, how);
    CarryOn([TAB] + [Word(name)], [NEWLINE], how, [TAB] + [Word(read)], ValidUtf8(name));
    assert [TAB] + [Word(name)] + [NEWLINE] == [TAB, Word(name), NEWLINE];
    assert [TAB] + [Word(read)] + [NEWLINE] == [TAB, Word(read), NEWLINE];
  }

  lemma {:induction false} CarryEntries(ns: seq<string>, how: Reading)
    ensures Carries(SymbolGlyphs(ns), how, SymbolGlyphs(NamesRead(ns, how)), NamesValid(ns))
    decreases |ns|
  {
    if ns == [] {
      CarryWordless([], how);
    } else {
      var front, last := ns[..|ns| - 1], ns[|ns| - 1];
      var read := NameRead(last, how);
      NamesEnd(ns, how);
      CarryEntries(front, how);
      CarryEntry(last, how, read);
      CarryConcat(SymbolGlyphs(front), [TAB, Word(last), NEWLINE], how, SymbolGlyphs(NamesRead(front, how)), [TAB, Word(read), NEWLINE],
                  NamesValid(front), ValidUtf8(last));
    }
  }

  lemma CarryHeading(w: string, rest: seq<Glyph>, gs: seq<Glyph>, how: Reading)
    requires Ascii(w) && Wordless(rest) && gs == [Word(w)] + rest
    ensures Carries(gs, how, gs, true)
  {
    CarryKeyword(w, how);
    CarryOn([Word(w)], rest, how, [Word(w)], true);
  }

  lemma CarrySymbols(ns: seq<string>, how: Reading)
    ensures Carries(SymbolsGlyphs(ns), how, SymbolsGlyphs(NamesRead(ns, how)), NamesValid(ns))
  {
    var a, b, v := [Word("NS_"), SPACE, Mark(':')], [SPACE, NEWLINE], NamesValid(ns);
    CarryHeading("NS_", [SPACE, Mark(':')], a, how);
    CarryOn(a, b, how, a, true);
    CarryEntries(ns, how);
    CarryConcat(a + b, SymbolGlyphs(ns), how, a + b, SymbolGlyphs(NamesRead(ns, how)), true, v);
    CarryOn(a + b + SymbolGlyphs(ns), [NEWLINE], how, a + b + SymbolGlyphs(NamesRead(ns, how)), v);
  }

  lemma CarryTiming(t: BusTiming, how: Reading)
    ensures Carries(TimingGlyphs(t), how, TimingGlyphs(t), true)
  {
    var a := [Word("BS_"), Mark(':')];
    CarryHeading("BS_", [Mark(':')], a, how);
    CarryOn(a, RegisterGlyphs(t), how, a, true);
    CarryOn(a + RegisterGlyphs(t), [NEWLINE, NEWLINE], how, a + RegisterGlyphs(t), true);
  }

  lemma {:induction false} CarryNodeNames(ns: seq<string>, how: Reading)
    ensures Carries(NodeGlyphs(ns), how, NodeGlyphs(NamesRead(ns, how)), NamesValid(ns))
    decreases |ns|
  {
    if ns == [] {
      CarryWordless([], how);
    } else {
      var front, last := ns[..|ns| - 1], ns[|ns| - 1];
      var read := NameRead(last, how);
      NamesEnd(ns, how);
      CarryNodeNames(front, how);
      WordAfter([SPACE], last, how);
      assert [SPACE] + [Word(last)] == [SPACE, Word(last)] && [SPACE] + [Word(read)] == [SPACE, Word(read)];
      CarryConcat(NodeGlyphs(front), [SPACE, Word(last)], how, NodeGlyphs(NamesRead(front, how)), [SPACE, Word(read)],
                  NamesValid(front), ValidUtf8(last));
    }
  }

  lemma CarryNodes(ns: seq<string>, how: Reading)
    ensures Carries(NodesGlyphs(ns), how, NodesGlyphs(NamesRead(ns, how)), NamesValid(ns))
  {
    var a, v := [Word("BU_"), Mark(':')], NamesValid(ns);
    CarryHeading("BU_", [Mark(':')], a, how);
    CarryNodeNames(ns, how);
    CarryConcat(a, NodeGlyphs(ns), how, a, NodeGlyphs(NamesRead(ns, how)), true, v);
    CarryOn(a + NodeGlyphs(ns), [NEWLINE, NEWLINE], how, a + NodeGlyphs(NamesRead(ns, how)), v);
  }

  lemma CarryPreamble(h: Preamble, how: Reading)
    ensures Carries(PreambleGlyphs(h), how, PreambleGlyphs(PreambleRead(h, how)), PreambleValid(h))
  {
    var t, vv, vs, vn := PreambleRead(h, how), ValidUtf8(h.version), NamesValid(h.symbols), NamesValid(h.nodes);
    var a, b, c, d := VersionGlyphs(h.version), SymbolsGlyphs(h.symbols), TimingGlyphs(h.timing), NodesGlyphs(h.nodes);
    var ha, hb, hd := VersionGlyphs(t.version), SymbolsGlyphs(t.symbols), NodesGlyphs(t.nodes);
    CarryVersion(h.version, how);
    CarrySymbols(h.symbols, how);
    CarryTiming(h.timing, how);
    CarryNodes(h.nodes, how);
    CarryConcat(a, b, how, ha, hb, vv, vs);
    CarryConcat(a + b, c, how, ha + hb, c, vv && vs, true);
    CarryConcat(a + b + c, d, how, ha + hb + c, hd, vv && vs, vn);
  }

  /// Reading a file gives the glyphs of the database as it is read, and it is UTF-8 if all its strings are.
  lemma CarryFile(h: Preamble, ms: seq<DbcMessage>, how: Reading)
    requires Valued(ms)
    ensures Carries(FileGlyphs(h, ms), how, FileGlyphs(PreambleRead(h, how), MessagesRead(ms, how)),
                    PreambleValid(h) && BlocksValid(ms) && AllSwitchesValid(ms))
  {
    CarryPreamble(h, how);
    CarryDatabase(ms, how);
    CarryConcat(PreambleGlyphs(h), DatabaseGlyphs(ms), how, PreambleGlyphs(PreambleRead(h, how)), DatabaseGlyphs(MessagesRead(ms, how)),
                PreambleValid(h), BlocksValid(ms) && AllSwitchesValid(ms));
  }

  // ---- What stays well formed ----

  lemma NameInjective(a: string, b: string, how: Reading)
    ensures NameRead(a, how) == NameRead(b, how) <==> a == b
  {
    if NameRead(a, how) == NameRead(b, how) && how.latin1 {
      TranscodedInjective(a, b);
    }
  }

  lemma {:induction false} CharsStay(w: string)
    requires AllNameChars(w)
    ensures AllNameChars(Transcoded(w))
  {
    if w != [] {
      CharsStay(w[..|w| - 1]);
    }
  }

  lemma NameStays(w: string, how: Reading)
    requires IsName(w)
    ensures IsName(NameRead(w, how))
  {
    CharsStay(w);
    assert w == [w[0]] + w[1..];
    TranscodedFront(w[0], w[1..]);
  }

  lemma OtherNameStays(w: string, reserved: string, how: Reading)
    requires w != reserved && Ascii(reserved)
    ensures NameRead(w, how) != reserved
  {
    AsciiRead(reserved, how);
    NameInjective(w, reserved, how);
  }

  lemma NodeStays(w: string, how: Reading)
    requires IsNode(w)
    ensures IsNode(NameRead(w, how))
  {
    NoNodeAscii();
    NameStays(w, how);
    OtherNameStays(w, NO_NODE, how);
  }

  lemma NodesStay(ns: seq<string>, how: Reading)
    requires forall k | 0 <= k < |ns| :: IsNode(ns[k])
    ensures forall k | 0 <= k < |ns| :: IsNode(NamesRead(ns, how)[k])
  {
    forall k | 0 <= k < |ns|
      ensures IsNode(NamesRead(ns, how)[k])
    {
      NodeStays(ns[k], how);
    }
  }

  lemma SignalStays(s: DbcSignal, dlc: nat, how: Reading)
    requires GoodSignal(s, dlc)
    ensures GoodSignal(SignalRead(s, how), dlc)
  {
    NameStays(s.name, how);
    NodesStay(s.receivers, how);
    if s.ranges == [] {
      TranscodedLength("");
    } else {
      NameStays(s.switchName, how);
    }
  }

  lemma MessageStays(m: DbcMessage, how: Reading)
    requires GoodMessage(m)
    ensures GoodMessage(MessageRead(m, how))
  {
    var ss := m.signals;
    NameStays(m.name, how);
    if m.transmitter != "" {
      NodeStays(m.transmitter, how);
    }
    forall k | 0 <= k < |ss|
      ensures GoodSignal(SignalRead(ss[k], how), m.dlc)
    {
      SignalStays(ss[k], m.dlc, how);
    }
    forall j, k | 0 <= j < k < |ss|
      ensures SignalRead(ss[j], how).name != SignalRead(ss[k], how).name
    {
      NameInjective(ss[j].name, ss[k].name, how);
    }
  }

  lemma DatabaseStays(ms: seq<DbcMessage>, how: Reading)
    requires GoodDatabase(ms)
    ensures GoodDatabase(MessagesRead(ms, how))
  {
    forall k | 0 <= k < |ms|
      ensures GoodMessage(MessageRead(ms[k], how))
    {
      MessageStays(ms[k], how);
    }
  }

  lemma PreambleStays(h: Preamble, how: Reading)
    requires GoodPreamble(h)
    ensures GoodPreamble(PreambleRead(h, how))
  {
    forall k | 0 <= k < |h.symbols|
      ensures IsName(NameRead(h.symbols[k], how)) && NameRead(h.symbols[k], how) != "BS_"
    {
      NameStays(h.symbols[k], how);
      OtherNameStays(h.symbols[k], "BS_", how);
    }
    NodesStay(h.nodes, how);
    forall j, k | 0 <= j < k < |h.nodes|
      ensures NameRead(h.nodes[j], how) != NameRead(h.nodes[k], how)
    {
      NameInjective(h.nodes[j], h.nodes[k], how);
    }
  }

  lemma DanglingStays(s: DbcSignal, ss: seq<DbcSignal>, how: Reading)
    ensures Dangling(SignalRead(s, how), SignalsRead(ss, how)) <==> Dangling(s, ss)
  {
    forall k | 0 <= k < |ss|
      ensures SignalsRead(ss, how)[k].name == NameRead(s.switchName, how) <==> ss[k].name == s.switchName
    {
      NameInjective(ss[k].name, s.switchName, how);
    }
  }

  lemma DanglesStay(ms: seq<DbcMessage>, how: Reading)
    ensures Dangles(MessagesRead(ms, how)) <==> Dangles(ms)
  {
    var rs := MessagesRead(ms, how);
    forall i, k | 0 <= i < |ms| && 0 <= k < |ms[i].signals|
      ensures Dangling(rs[i].signals[k], rs[i].signals) <==> Dangling(ms[i].signals[k], ms[i].signals)
    {
      DanglingStays(ms[i].signals[k], ms[i].signals, how);
    }
  }

  lemma GoodIsValued(ms: seq<DbcMessage>)
    requires GoodDatabase(ms)
    ensures Valued(ms)
  {
    forall i, k | 0 <= i < |ms| && 0 <= k < |ms[i].signals|
      ensures ms[i].signals[k].muxValue < WORD32
    {
      assert GoodMessage(ms[i]) && GoodSignal(ms[i].signals[k], ms[i].dlc);
    }
  }

  // ---- When all is kept ----

  lemma MessageValidity(m: DbcMessage)
    requires GoodMessage(m)
    ensures BlockValid(m) && SwitchesValid(m.signals) <==> MessageValid(m)
  {
    var ss := m.signals;
    AsciiIsValid("");
    forall k | 0 <= k < |ss|
      ensures LineValid(ss[k]) && SwitchValid(ss[k]) <==> SignalValid(ss[k])
    {
      assert GoodSignal(ss[k], m.dlc);
    }
  }

  /// What is written of a well-formed database holds each of its strings.
  lemma FileValidity(h: Preamble, ms: seq<DbcMessage>)
    requires GoodDatabase(ms)
    ensures PreambleValid(h) && BlocksValid(ms) && AllSwitchesValid(ms) <==> AllUtf8(h, ms)
  {
    forall k | 0 <= k < |ms|
      ensures BlockValid(ms[k]) && SwitchesValid(ms[k].signals) <==> MessageValid(ms[k])
    {
      MessageValidity(ms[k]);
    }
  }

  lemma NamesKept(ns: seq<string>, how: Reading)
    ensures NamesRead(ns, how) == ns <==> forall k | 0 <= k < |ns| :: NameRead(ns[k], how) == ns[k]
  {
    if NamesRead(ns, how) == ns {
      assert forall k | 0 <= k < |ns| :: NameRead(ns[k], how) == NamesRead(ns, how)[k] == ns[k];
    }
  }

  /// Names that come back are UTF-8, and if they are not taken for Latin-1 they do.
  lemma NamesComeBack(ns: seq<string>, how: Reading)
    ensures !how.latin1 ==> NamesRead(ns, how) == ns
    ensures how.latin1 && NamesRead(ns, how) == ns ==> NamesValid(ns)
  {
    NamesKept(ns, how);
    if how.latin1 && NamesRead(ns, how) == ns {
      forall k | 0 <= k < |ns|
        ensures ValidUtf8(ns[k])
      {
        NameComesBack(ns[k], how);
      }
    }
  }

  lemma NameComesBack(w: string, how: Reading)
    requires how.latin1 && NameRead(w, how) == w
    ensures ValidUtf8(w)
  {
    NameKept(w, how);
    AsciiIsValid(w);
  }

  lemma TextComesBack(t: string, how: Reading)
    ensures !how.latin1 ==> (TextRead(t, how) == t <==> !HasReturn(t))
    ensures how.latin1 && TextRead(t, how) == t ==> ValidUtf8(t) && !HasReturn(t)
  {
    TextKept(t, how);
    if how.latin1 && TextRead(t, how) == t {
      AsciiIsValid(t);
    }
  }

  lemma SignalComesBack(s: DbcSignal, how: Reading)
    ensures !how.latin1 ==> (SignalRead(s, how) == s <==> !HasReturn(s.unit))
    ensures how.latin1 && SignalRead(s, how) == s ==> SignalValid(s) && !HasReturn(s.unit)
  {
    var t := SignalRead(s, how);
    TextComesBack(s.unit, how);
    NamesComeBack(s.receivers, how);
    if how.latin1 && t == s {
      NameComesBack(s.name, how);
      NameComesBack(s.switchName, how);
    }
  }

  predicate UnitsReturn(m: DbcMessage) {
    exists k :: 0 <= k < |m.signals| && HasReturn(m.signals[k].unit)
  }

  lemma MessageComesBack(m: DbcMessage, how: Reading)
    ensures !how.latin1 ==> (MessageRead(m, how) == m <==> !UnitsReturn(m))
    ensures how.latin1 && MessageRead(m, how) == m ==> MessageValid(m) && !UnitsReturn(m)
  {
    var ss, rs := m.signals, SignalsRead(m.signals, how);
    forall k | 0 <= k < |ss|
      ensures !how.latin1 ==> (rs[k] == ss[k] <==> !HasReturn(ss[k].unit))
      ensures how.latin1 && rs[k] == ss[k] ==> SignalValid(ss[k]) && !HasReturn(ss[k].unit)
    {
      SignalComesBack(ss[k], how);
    }
    assert rs == ss <==> forall k | 0 <= k < |ss| :: rs[k] == ss[k];
    if how.latin1 && MessageRead(m, how) == m {
      NameComesBack(m.name, how);
      NameComesBack(m.transmitter, how);
    }
  }

  lemma MessagesComeBack(ms: seq<DbcMessage>, how: Reading)
    ensures !how.latin1 ==> (MessagesRead(ms, how) == ms <==> forall k | 0 <= k < |ms| :: !UnitsReturn(ms[k]))
    ensures how.latin1 && MessagesRead(ms, how) == ms ==> forall k | 0 <= k < |ms| :: MessageValid(ms[k]) && !UnitsReturn(ms[k])
  {
    var rs := MessagesRead(ms, how);
    forall k | 0 <= k < |ms|
      ensures !how.latin1 ==> (rs[k] == ms[k] <==> !UnitsReturn(ms[k]))
      ensures how.latin1 && rs[k] == ms[k] ==> MessageValid(ms[k]) && !UnitsReturn(ms[k])
    {
      MessageComesBack(ms[k], how);
    }
    assert rs == ms <==> forall k | 0 <= k < |ms| :: rs[k] == ms[k];
  }

  lemma PreambleComesBack(h: Preamble, how: Reading)
    ensures !how.latin1 ==> (PreambleRead(h, how) == h <==> !HasReturn(h.version))
    ensures how.latin1 && PreambleRead(h, how) == h ==> PreambleValid(h) && !HasReturn(h.version)
  {
    TextComesBack(h.version, how);
    NamesComeBack(h.symbols, how);
    NamesComeBack(h.nodes, how);
  }

  /// Read as UTF-8 if it is and as Latin-1 if not, a database comes back exactly if all its strings are UTF-8 and
  /// neither the version nor a unit holds a carriage return.
  lemma ComesBackExactly(h: Preamble, ms: seq<DbcMessage>, how: Reading)
    requires how.latin1 == !AllUtf8(h, ms)
    ensures PreambleRead(h, how) == h && MessagesRead(ms, how) == ms <==> AllUtf8(h, ms) && !HasReturns(h, ms)
  {
    PreambleComesBack(h, how);
    MessagesComeBack(ms, how);
    assert HasReturns(h, ms) <==> HasReturn(h.version) || exists i :: 0 <= i < |ms| && UnitsReturn(ms[i]);
  }
}
