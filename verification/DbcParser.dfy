/// The recursive-descent parser of dbc/src/Parser.cpp for messages, signals and extended multiplexing: what
/// it makes of a list of tokens, as functions on a cursor and as the object that moves it.
module DbcParser {
  import opened Lexer
  import opened Frame
  import opened DbcWriter
  import Multiplexing
  import Signal

  const WORD32: nat := 4294967296

  /// The scanner ends every list of tokens with the end token.
  predicate Ended(ts: seq<Token>) {
    ts != [] && ts[|ts| - 1].kind.End?
  }

  datatype Cursor = Cursor(at: nat, errors: bool, warnings: bool) {
    function Error(): Cursor {
      this.(errors := true)
    }

    function Warning(): Cursor {
      this.(warnings := true)
    }

    function ErrorIf(bad: bool): Cursor {
      this.(errors := errors || bad)
    }

    function WarningIf(odd: bool): Cursor {
      this.(warnings := warnings || odd)
    }
  }

  /// `current`: the end token again and again past the end.
  function Current(ts: seq<Token>, c: Cursor): (t: Token)
    requires Ended(ts)
    ensures !t.kind.End? ==> c.at + 1 < |ts| && t == ts[c.at]
  {
    if c.at < |ts| then ts[c.at] else ts[|ts| - 1]
  }

  function Bump(ts: seq<Token>, c: Cursor): (d: Cursor)
    ensures c.at <= d.at
  {
    if c.at + 1 < |ts| then c.(at := c.at + 1) else c
  }

  /// `match`: past a token of that kind, if it is one.
  function Past(ts: seq<Token>, c: Cursor, k: Kind): (d: Cursor)
    requires Ended(ts)
    ensures c.at <= d.at
  {
    if Current(ts, c).kind == k then Bump(ts, c) else c
  }

  /// `expect`.
  function Expect(ts: seq<Token>, c: Cursor, k: Kind): (d: Cursor)
    requires Ended(ts)
    ensures c.at <= d.at
  {
    if Current(ts, c).kind == k then Bump(ts, c) else c.Error()
  }

  const TOP_LEVEL: seq<string> := [
    "VERSION", "NS_", "BS_", "BU_", "BO_", "CM_", "BA_DEF_", "BA_DEF_DEF_", "BA_", "VAL_", "VAL_TABLE_", "SIG_VALTYPE_",
    "SG_MUL_VAL_", "BO_TX_BU_", "EV_", "BA_DEF_REL_", "BA_REL_", "BA_DEF_DEF_REL_", "SIG_GROUP_", "SGTYPE_", "ENVVAR_DATA_",
    "BU_SG_REL_", "BU_BO_REL_", "BU_EV_REL_", "CAT_DEF_", "CAT_", "FILTER", "SIG_TYPE_REF_"
  ]

  /// A keyword at the start of a line, which a section may begin with.
  predicate BeginsSection(t: Token) {
    t.first && t.kind.Identifier? && t.text in TOP_LEVEL
  }

  /// `resynchronise`: past the next semicolon, or to the next section.
  function Resync(ts: seq<Token>, c: Cursor): (d: Cursor)
    requires Ended(ts)
    ensures c.at <= d.at
    ensures !Current(ts, c).kind.End? && !BeginsSection(Current(ts, c)) ==> c.at < d.at
    decreases |ts| - c.at
  {
    var t := Current(ts, c);
    if t.kind.End? then c
    else if t.kind.Semicolon? then Bump(ts, c)
    else if BeginsSection(t) then c
    else Resync(ts, Bump(ts, c))
  }

  // ---- Values ----

  datatype Step<+T> = Stuck(cursor: Cursor) | Next(value: T, cursor: Cursor) {
    predicate IsFailure() {
      Stuck?
    }

    function PropagateFailure<U>(): Step<U>
      requires Stuck?
    {
      Stuck(cursor)
    }

    function Extract(): (T, Cursor)
      requires Next?
    {
      (value, cursor)
    }
  }

  function ParseUnsigned(ts: seq<Token>, c: Cursor): (r: Step<nat>)
    requires Ended(ts)
    ensures c.at <= r.cursor.at
  {
    if Current(ts, c).kind.Integer? then Next(Unsigned(Current(ts, c).text), Bump(ts, c)) else Stuck(c.Error())
  }

  function ParseName(ts: seq<Token>, c: Cursor): (r: Step<string>)
    requires Ended(ts)
    ensures c.at <= r.cursor.at
  {
    if Current(ts, c).kind.Identifier? then Next(Current(ts, c).text, Bump(ts, c)) else Stuck(c.Error())
  }

  function ParseText(ts: seq<Token>, c: Cursor): (r: Step<string>)
    requires Ended(ts)
    ensures c.at <= r.cursor.at
  {
    if Current(ts, c).kind.Str? then Next(Current(ts, c).value, Bump(ts, c)) else Stuck(c.Error())
  }

  /// A sign is a token of its own.
  function ParseNumber(ts: seq<Token>, c: Cursor): (r: Step<Number>)
    requires Ended(ts)
    ensures c.at <= r.cursor.at
  {
    var negative := Current(ts, c).kind.Minus?;
    var d := if negative then Bump(ts, c) else Past(ts, c, Plus);
    var t := Current(ts, d);
    if t.kind.Integer? || t.kind.Real? then Next(Number(negative, t.text), Bump(ts, d)) else Stuck(d.Error())
  }

  /// A name, unless it is the placeholder, and the comma behind it; more may follow if there is one.
  function ParseListed(ts: seq<Token>, c: Cursor): (r: (seq<string>, Cursor, bool))
    requires Ended(ts) && Current(ts, c).kind.Identifier?
    ensures c.at < r.1.at
  {
    var name, d := Current(ts, c).text, Bump(ts, c);
    (if name != NO_NODE then [name] else [], Past(ts, d, Comma), Current(ts, d).kind.Comma?)
  }

  /// `parse_name_list`.
  function ParseNames(ts: seq<Token>, c: Cursor): (r: (seq<string>, Cursor))
    requires Ended(ts)
    ensures c.at <= r.1.at
    decreases |ts| - c.at
  {
    if !Current(ts, c).kind.Identifier? then ([], c)
    else
      var (names, d, more) := ParseListed(ts, c);
      if more then
        var rest := ParseNames(ts, d);
        (names + rest.0, rest.1)
      else (names, d)
  }

  /// `parse_message_id`: an identifier too large for its format is taken for an extended one, or for 0.
  function MessageId(raw: nat, c: Cursor): (CanId, Cursor) {
    var packed := raw % WORD32;
    var id := packed % EFF_FLAG;
    if packed >= EFF_FLAG then (if id < EXTENDED_IDS then (Extended(id), c) else (Standard(0), c.Error()))
    else if id < STANDARD_IDS then (Standard(id), c)
    else if id < EXTENDED_IDS then (Extended(id), c.Warning())
    else (Standard(0), c.Error())
  }

  // ---- Signals ----

  datatype Indication = NoIndication | Indication(role: Multiplexing.Role, value: nat)

  /// The multiplexing indicator between a signal's name and the colon.
  function Indicator(text: string): Indication {
    if text == "M" then Indication(Multiplexing.Multiplexor, 0)
    else if |text| >= 2 && text[0] == 'm' then
      var digits := DigitsEnd(text, 1);
      var both := Peek(text, digits) == 'M';
      if digits > 1 && (digits == |text| || both) then
        Indication(if both then Multiplexing.Both else Multiplexing.Multiplexed, Unsigned(text[1..digits]) % WORD32)
      else NoIndication
    else NoIndication
  }

  function ParseRole(ts: seq<Token>, c: Cursor): (r: (Indication, Cursor))
    requires Ended(ts)
    ensures c.at <= r.1.at
  {
    var t := Current(ts, c);
    var i := if t.kind.Identifier? && t.text != "SG_" then Indicator(t.text) else NoIndication;
    if i.NoIndication? then (Indication(Multiplexing.Plain, 0), c) else (i, Bump(ts, c))
  }

  /// Start bit and length.
  function ParsePlace(ts: seq<Token>, c: Cursor): (r: Step<(nat, nat)>)
    requires Ended(ts)
    ensures c.at <= r.cursor.at
  {
    var (start, c1) :- ParseUnsigned(ts, c);
    var (length, c2) :- ParseUnsigned(ts, Expect(ts, c1.ErrorIf(start > 511), Pipe));
    Next((if start > 511 then 0 else start, if length < 1 then 1 else if length > 64 then 64 else length),
         c2.ErrorIf(length < 1 || length > 64))
  }

  /// Byte order and signedness.
  function ParseOrder(ts: seq<Token>, c: Cursor): (r: Step<(Signal.ByteOrder, bool)>)
    requires Ended(ts)
    ensures c.at <= r.cursor.at
  {
    var (order, c1) :- ParseUnsigned(ts, Expect(ts, c, At));
    var c2 := c1.ErrorIf(order > 1);
    var k := Current(ts, c2).kind;
    Next((if order == 0 then Signal.Motorola else Signal.Intel, k.Minus?), if k.Plus? || k.Minus? then Bump(ts, c2) else c2.Error())
  }

  function ParseLayout(ts: seq<Token>, c: Cursor): (r: Step<(Signal.Layout, bool)>)
    requires Ended(ts)
    ensures c.at <= r.cursor.at
  {
    var (place, c1) :- ParsePlace(ts, c);
    var (order, c2) :- ParseOrder(ts, c1);
    Next((Signal.Layout(place.0, place.1, order.0), order.1), c2)
  }

  function ParsePair(ts: seq<Token>, c: Cursor, open: Kind, between: Kind, close: Kind): (r: Step<(Number, Number)>)
    requires Ended(ts)
    ensures c.at <= r.cursor.at
  {
    var (a, c1) :- ParseNumber(ts, Expect(ts, c, open));
    var (b, c2) :- ParseNumber(ts, Expect(ts, c1, between));
    Next((a, b), Expect(ts, c2, close))
  }

  /// No digit but zeros before the exponent.
  predicate IsZero(n: Number) {
    forall k | 0 <= k < FractionEnd(n.literal, DigitsEnd(n.literal, 0)) :: n.literal[k] == '0' || n.literal[k] == '.'
  }

  const ONE: Number := Number(false, "1")

  /// What follows `SG_`, up to the layout.
  function ParseFront(ts: seq<Token>, c: Cursor): (r: Step<DbcSignal>)
    requires Ended(ts)
    ensures c.at <= r.cursor.at
  {
    var (name, c1) :- ParseName(ts, c);
    var (role, c2) := ParseRole(ts, c1);
    var (layout, c3) :- ParseLayout(ts, Expect(ts, c2, Colon));
    Next(DbcSignal(name, role.role, role.value, layout.0, layout.1, ONE, ONE, ONE, ONE, "", [], "", []), c3)
  }

  /// The rest of the line.
  function ParseBack(ts: seq<Token>, c: Cursor, s: DbcSignal): (r: Step<DbcSignal>)
    requires Ended(ts)
    ensures c.at <= r.cursor.at
  {
    var (scale, c1) :- ParsePair(ts, c, LParen, Comma, RParen);
    var (range, c2) :- ParsePair(ts, c1, LBracket, Pipe, RBracket);
    var (unit, c3) :- ParseText(ts, c2);
    var (receivers, c4) := ParseNames(ts, c3);
    Next(s.(factor := scale.0, offset := scale.1, minimum := range.0, maximum := range.1, unit := unit, receivers := receivers), c4)
  }

  /// A factor of zero is replaced, and a signal has to fit its message.
  function Checked(s: DbcSignal, dlc: nat, c: Cursor): (DbcSignal, Cursor) {
    (if IsZero(s.factor) then s.(factor := ONE) else s, c.WarningIf(IsZero(s.factor)).ErrorIf(!s.layout.Fits(dlc)))
  }

  /// What follows `SG_`, in a message of `dlc` bytes.
  function ParseSignal(ts: seq<Token>, c: Cursor, dlc: nat): (r: Step<DbcSignal>)
    requires Ended(ts)
    ensures c.at <= r.cursor.at
  {
    var (front, c1) :- ParseFront(ts, c);
    var (whole, c2) :- ParseBack(ts, c1, front);
    var (s, c3) := Checked(whole, dlc, c2);
    Next(s, c3)
  }

  /// The signal of a line behind `SG_`, or none and on to where parsing can go on.
  function ParseLine(ts: seq<Token>, c: Cursor, dlc: nat): (r: (seq<DbcSignal>, Cursor))
    requires Ended(ts)
    ensures c.at <= r.1.at
  {
    match ParseSignal(ts, c, dlc)
    case Stuck(d) => ([], Resync(ts, d))
    case Next(s, d) => ([s], d)
  }

  function ParseSignals(ts: seq<Token>, c: Cursor, dlc: nat): (r: (seq<DbcSignal>, Cursor))
    requires Ended(ts)
    ensures c.at <= r.1.at
    decreases |ts| - c.at
  {
    if !Current(ts, c).IsWord("SG_") then ([], c)
    else
      var line := ParseLine(ts, Bump(ts, c), dlc);
      var rest := ParseSignals(ts, line.1, dlc);
      (line.0 + rest.0, rest.1)
  }

  // ---- Messages ----

  /// What follows `BO_`, up to the signals.
  function ParseHead(ts: seq<Token>, c: Cursor): (r: Step<DbcMessage>)
    requires Ended(ts)
    ensures c.at <= r.cursor.at
  {
    var (raw, c1) :- ParseUnsigned(ts, c);
    var (id, c2) := MessageId(raw, c1);
    var (name, c3) :- ParseName(ts, c2);
    var (length, c4) :- ParseUnsigned(ts, Expect(ts, c3, Colon));
    var c5 := c4.ErrorIf(length > 64);
    var dlc := if length > 64 then 64 else length;
    var t := Current(ts, c5);
    if t.kind.Identifier? then
      Next(DbcMessage(id, name, dlc, dlc > 8, if t.text == NO_NODE then "" else t.text, []), Bump(ts, c5))
    else Next(DbcMessage(id, name, dlc, dlc > 8, "", []), c5.Warning())
  }

  function ParseMessage(ts: seq<Token>, c: Cursor, db: seq<DbcMessage>): (r: (seq<DbcMessage>, Cursor))
    requires Ended(ts)
    ensures c.at <= r.1.at
  {
    var head := ParseHead(ts, c);
    if head.Stuck? then (db, Resync(ts, head.cursor))
    else
      var rest := ParseSignals(ts, head.cursor, head.value.dlc);
      (db + [head.value.(signals := rest.0)], rest.1)
  }

  // ---- Extended multiplexing ----

  /// A range at an integer; bounds the wrong way round are swapped. None if its upper bound is missing.
  function ParseRange(ts: seq<Token>, c: Cursor): (r: (seq<Multiplexing.MuxRange>, Cursor))
    requires Ended(ts) && Current(ts, c).kind.Integer?
    ensures c.at < r.1.at
  {
    var low, c1 := Unsigned(Current(ts, c).text) % WORD32, Bump(ts, c);
    var c2 := Past(ts, c1, Minus);
    var spanned := Current(ts, c1).kind.Minus?;
    if spanned && !Current(ts, c2).kind.Integer? then ([], c2.Error())
    else
      var high := if spanned then Unsigned(Current(ts, c2).text) % WORD32 else low;
      ([if high < low then Multiplexing.MuxRange(high, low) else Multiplexing.MuxRange(low, high)],
       (if spanned then Bump(ts, c2) else c1).WarningIf(high < low))
  }

  /// A range and the comma behind it, and whether another may follow.
  function ParseElement(ts: seq<Token>, c: Cursor): (r: (seq<Multiplexing.MuxRange>, Cursor, bool))
    requires Ended(ts) && Current(ts, c).kind.Integer?
    ensures c.at < r.1.at
  {
    var (range, d) := ParseRange(ts, c);
    var more := range != [] && Current(ts, d).kind.Comma?;
    (range, if more then Bump(ts, d) else d, more)
  }

  /// The ranges, until something else comes.
  function ParseRanges(ts: seq<Token>, c: Cursor): (r: (seq<Multiplexing.MuxRange>, Cursor))
    requires Ended(ts)
    ensures c.at <= r.1.at
    decreases |ts| - c.at
  {
    if !Current(ts, c).kind.Integer? then ([], c)
    else
      var (range, d, more) := ParseElement(ts, c);
      if more then
        var rest := ParseRanges(ts, d);
        (range + rest.0, rest.1)
      else (range, d)
  }

  function FindMessage(db: seq<DbcMessage>, id: CanId, i: nat): (k: nat)
    requires i <= |db|
    ensures i <= k <= |db| && (k < |db| ==> db[k].id == id)
    decreases |db| - i
  {
    if i == |db| || db[i].id == id then i else FindMessage(db, id, i + 1)
  }

  function FindSignal(ss: seq<DbcSignal>, name: string, i: nat): (k: nat)
    requires i <= |ss|
    ensures i <= k <= |ss| && (k < |ss| ==> ss[k].name == name)
    decreases |ss| - i
  {
    if i == |ss| || ss[i].name == name then i else FindSignal(ss, name, i + 1)
  }

  /// The signal, switched in by `switchName` in `ranges`.
  function Switched(s: DbcSignal, switchName: string, ranges: seq<Multiplexing.MuxRange>): DbcSignal {
    s.(role := if s.role.Multiplexor? || s.role.Both? then Multiplexing.Both else Multiplexing.Multiplexed,
       switchName := switchName, ranges := ranges)
  }

  datatype SwitchLine = SwitchLine(raw: nat, name: string, switchName: string)

  function ParseSwitchHead(ts: seq<Token>, c: Cursor): (r: Step<SwitchLine>)
    requires Ended(ts)
    ensures c.at <= r.cursor.at
  {
    var (raw, c1) :- ParseUnsigned(ts, c);
    var (name, c2) :- ParseName(ts, c1);
    var (switchName, c3) :- ParseName(ts, c2);
    Next(SwitchLine(raw, name, switchName), c3)
  }

  /// Give the signal the line is about what it says.
  function ApplySwitch(db: seq<DbcMessage>, c: Cursor, line: SwitchLine, ranges: seq<Multiplexing.MuxRange>): (seq<DbcMessage>, Cursor) {
    var (id, d) := MessageId(line.raw, c);
    var m := FindMessage(db, id, 0);
    var s := if m < |db| then FindSignal(db[m].signals, line.name, 0) else 0;
    if m == |db| || s == |db[m].signals| then (db, d.Warning())
    else
      var signals := db[m].signals;
      (db[m := db[m].(signals := signals[s := Switched(signals[s], line.switchName, ranges)])],
       d.WarningIf(FindSignal(signals, line.switchName, 0) == |signals|))
  }

  /// What follows `SG_MUL_VAL_`.
  function ParseSwitch(ts: seq<Token>, c: Cursor, db: seq<DbcMessage>): (r: (seq<DbcMessage>, Cursor))
    requires Ended(ts)
    ensures c.at <= r.1.at
  {
    var head := ParseSwitchHead(ts, c);
    if head.Stuck? then (db, Resync(ts, head.cursor))
    else
      var (ranges, d) := ParseRanges(ts, head.cursor);
      ApplySwitch(db, Past(ts, d, Semicolon), head.value, ranges)
  }

  // ---- The preamble ----

  /// What follows `VERSION`.
  function ParseVersion(ts: seq<Token>, c: Cursor, was: string): (r: (string, Cursor))
    requires Ended(ts)
    ensures c.at <= r.1.at
  {
    match ParseText(ts, c)
    case Stuck(d) => (was, Resync(ts, d))
    case Next(v, d) => (v, d)
  }

  /// An entry of the list of symbols: a name with nothing behind it on its line.
  predicate StandsAlone(ts: seq<Token>, c: Cursor)
    requires Ended(ts)
  {
    var t, next := Current(ts, c), Current(ts, c.(at := c.at + 1));
    t.kind.Identifier? && t.text != "BS_" && (next.first || next.kind.End?)
  }

  function ParseEntries(ts: seq<Token>, c: Cursor): (r: (seq<string>, Cursor))
    requires Ended(ts)
    ensures c.at <= r.1.at
    decreases |ts| - c.at
  {
    if !StandsAlone(ts, c) then ([], c)
    else
      var rest := ParseEntries(ts, Bump(ts, c));
      ([Current(ts, c).text] + rest.0, rest.1)
  }

  /// What follows `NS_`.
  function ParseSymbols(ts: seq<Token>, c: Cursor): (r: (seq<string>, Cursor))
    requires Ended(ts)
    ensures c.at <= r.1.at
  {
    ParseEntries(ts, Past(ts, c, Colon))
  }

  /// A number, or 0 if there is none.
  function ParseRegister(ts: seq<Token>, c: Cursor): (r: (nat, Cursor))
    requires Ended(ts)
    ensures c.at <= r.1.at
  {
    match ParseUnsigned(ts, c)
    case Stuck(d) => (0, d)
    case Next(v, d) => (v % WORD32, d)
  }

  /// The registers behind the baud rate, if there is a colon.
  function ParseRegisters(ts: seq<Token>, c: Cursor): (r: (nat, nat, Cursor))
    requires Ended(ts)
    ensures c.at <= r.2.at
  {
    if !Current(ts, c).kind.Colon? then (0, 0, c)
    else
      var (btr1, d) := ParseRegister(ts, Bump(ts, c));
      var (btr2, e) := ParseRegister(ts, Expect(ts, d, Comma));
      (btr1, btr2, e)
  }

  /// What follows `BS_`.
  function ParseTiming(ts: seq<Token>, c: Cursor, was: BusTiming): (r: (BusTiming, Cursor))
    requires Ended(ts)
    ensures c.at <= r.1.at
  {
    var d := Expect(ts, c, Colon);
    if !Current(ts, d).kind.Integer? then (was, d)
    else
      var (baudrate, e) := ParseRegister(ts, d);
      var (btr1, btr2, f) := ParseRegisters(ts, e);
      (BusTiming(baudrate, btr1, btr2), f)
  }

  function WithNode(nodes: seq<string>, name: string): seq<string> {
    if name != NO_NODE && name !in nodes then nodes + [name] else nodes
  }

  /// Nodes up to the end of the line.
  function ParseNodeNames(ts: seq<Token>, c: Cursor, nodes: seq<string>): (r: (seq<string>, Cursor))
    requires Ended(ts)
    ensures c.at <= r.1.at
    decreases |ts| - c.at
  {
    var t := Current(ts, c);
    if !t.kind.Identifier? || t.first then (nodes, c)
    else ParseNodeNames(ts, Past(ts, Bump(ts, c), Comma), WithNode(nodes, t.text))
  }

  /// What follows `BU_`.
  function ParseNodes(ts: seq<Token>, c: Cursor, nodes: seq<string>): (r: (seq<string>, Cursor))
    requires Ended(ts)
    ensures c.at <= r.1.at
  {
    ParseNodeNames(ts, Expect(ts, c, Colon), nodes)
  }

  // ---- Sections ----

  const EMPTY: Preamble := Preamble("", [], Unset, [])

  /// The sections of the preamble.
  predicate OfPreamble(t: Token) {
    t.IsWord("VERSION") || t.IsWord("NS_") || t.IsWord("BS_") || t.IsWord("BU_")
  }

  /// One of them, from its keyword.
  function ParsePreamble(ts: seq<Token>, c: Cursor, h: Preamble): (r: (Preamble, Cursor))
    requires Ended(ts) && OfPreamble(Current(ts, c))
    ensures c.at < r.1.at
  {
    var t, d := Current(ts, c), Bump(ts, c);
    if t.text == "VERSION" then
      var r := ParseVersion(ts, d, h.version);
      (h.(version := r.0), r.1)
    else if t.text == "NS_" then
      var r := ParseSymbols(ts, d);
      (h.(symbols := r.0), r.1)
    else if t.text == "BS_" then
      var r := ParseTiming(ts, d, h.timing);
      (h.(timing := r.0), r.1)
    else
      var r := ParseNodes(ts, d, h.nodes);
      (h.(nodes := r.0), r.1)
  }

  /// `Foreign` when a section comes that is not part of this model.
  datatype Result = Finished(preamble: Preamble, messages: seq<DbcMessage>, cursor: Cursor) | Foreign

  /// `run`.
  function Run(ts: seq<Token>, c: Cursor, h: Preamble, db: seq<DbcMessage>): Result
    requires Ended(ts)
    decreases |ts| - c.at
  {
    var t := Current(ts, c);
    if t.kind.End? then Finished(h, db, c)
    else if OfPreamble(t) then
      var r := ParsePreamble(ts, c, h);
      Run(ts, r.1, r.0, db)
    else if t.IsWord("BO_") then
      var r := ParseMessage(ts, Bump(ts, c), db);
      Run(ts, r.1, h, r.0)
    else if t.IsWord("SG_MUL_VAL_") then
      var r := ParseSwitch(ts, Bump(ts, c), db);
      Run(ts, r.1, h, r.0)
    else if t.kind.Identifier? && t.text in TOP_LEVEL then Foreign
    else Run(ts, Resync(ts, c.Error()), h, db)
  }

  // ---- The parser ----

  class Parser {
    const tokens: seq<Token>
    var pos: nat
    var errors: bool
    var warnings: bool
    var preamble: Preamble
    var messages: seq<DbcMessage>

    ghost function View(): Cursor
      reads this
    {
      Cursor(pos, errors, warnings)
    }

    constructor (tokens: seq<Token>)
      ensures this.tokens == tokens && View() == Cursor(0, false, false) && preamble == EMPTY && messages == []
    {
      this.tokens := tokens;
      pos, errors, warnings, preamble, messages := 0, false, false, EMPTY, [];
    }

    function Head(): (t: Token)
      requires Ended(tokens)
      reads this
      ensures t == Current(tokens, View())
    {
      if pos < |tokens| then tokens[pos] else tokens[|tokens| - 1]
    }

    method Advance()
      requires Ended(tokens)
      modifies this`pos
      ensures View() == Bump(tokens, old(View()))
    {
      if pos + 1 < |tokens| {
        pos := pos + 1;
      }
    }

    method Match(k: Kind) returns (matched: bool)
      requires Ended(tokens)
      modifies this`pos
      ensures View() == Past(tokens, old(View()), k) && matched == (Current(tokens, old(View())).kind == k)
    {
      matched := Head().kind == k;
      if matched {
        Advance();
      }
    }

    method Expected(k: Kind)
      requires Ended(tokens)
      modifies this`pos, this`errors
      ensures View() == Expect(tokens, old(View()), k)
    {
      if Head().kind == k {
        Advance();
      } else {
        errors := true;
      }
    }

    method Resynchronise()
      requires Ended(tokens)
      modifies this`pos
      ensures View() == Resync(tokens, old(View()))
    {
      ghost var whole := Resync(tokens, View());
      while !Head().kind.End?
        invariant whole == Resync(tokens, View())
        decreases |tokens| - pos
      {
        if Head().kind.Semicolon? {
          Advance();
          return;
        }
        if BeginsSection(Head()) {
          return;
        }
        Advance();
      }
    }

    method ReadUnsigned() returns (ok: bool, v: nat)
      requires Ended(tokens)
      modifies this`pos, this`errors
      ensures var r := ParseUnsigned(tokens, old(View())); View() == r.cursor && ok == r.Next? && (ok ==> v == r.value)
    {
      if !Head().kind.Integer? {
        errors := true;
        return false, 0;
      }
      ok, v := true, Unsigned(Head().text);
      Advance();
    }

    method ReadName() returns (ok: bool, name: string)
      requires Ended(tokens)
      modifies this`pos, this`errors
      ensures var r := ParseName(tokens, old(View())); View() == r.cursor && ok == r.Next? && (ok ==> name == r.value)
    {
      if !Head().kind.Identifier? {
        errors := true;
        return false, "";
      }
      ok, name := true, Head().text;
      Advance();
    }

    method ReadText() returns (ok: bool, text: string)
      requires Ended(tokens)
      modifies this`pos, this`errors
      ensures var r := ParseText(tokens, old(View())); View() == r.cursor && ok == r.Next? && (ok ==> text == r.value)
    {
      if !Head().kind.Str? {
        errors := true;
        return false, "";
      }
      ok, text := true, Head().value;
      Advance();
    }

    method ReadNumber() returns (ok: bool, n: Number)
      requires Ended(tokens)
      modifies this`pos, this`errors
      ensures var r := ParseNumber(tokens, old(View())); View() == r.cursor && ok == r.Next? && (ok ==> n == r.value)
    {
      var negative := Match(Minus);
      if !negative {
        var _ := Match(Plus);
      }
      if !Head().kind.Integer? && !Head().kind.Real? {
        errors := true;
        return false, ONE;
      }
      ok, n := true, Number(negative, Head().text);
      Advance();
    }

    method ReadListed() returns (names: seq<string>, more: bool)
      requires Ended(tokens) && Head().kind.Identifier?
      modifies this`pos
      ensures var r := ParseListed(tokens, old(View())); names == r.0 && View() == r.1 && more == r.2
    {
      var name := Head().text;
      Advance();
      names := if name != NO_NODE then [name] else [];
      more := Match(Comma);
    }

    method ReadNames() returns (names: seq<string>)
      requires Ended(tokens)
      modifies this`pos
      ensures names == ParseNames(tokens, old(View())).0 && View() == ParseNames(tokens, old(View())).1
    {
      ghost var whole := ParseNames(tokens, View());
      names := [];
      while Head().kind.Identifier?
        invariant whole.0 == names + ParseNames(tokens, View()).0 && whole.1 == ParseNames(tokens, View()).1
        decreases |tokens| - pos
      {
        var name, more := ReadListed();
        names := names + name;
        if !more {
          return;
        }
      }
    }

    method ReadId(raw: nat) returns (id: CanId)
      modifies this`errors, this`warnings
      ensures (id, View()) == MessageId(raw, old(View()))
    {
      var packed := raw % WORD32;
      var extended, value := packed >= EFF_FLAG, packed % EFF_FLAG;
      if extended && value < EXTENDED_IDS {
        return Extended(value);
      }
      if !extended && value < STANDARD_IDS {
        return Standard(value);
      }
      if !extended && value < EXTENDED_IDS {
        warnings := true;
        return Extended(value);
      }
      errors := true;
      id := Standard(0);
    }

    method ReadRole() returns (role: Indication)
      requires Ended(tokens)
      modifies this`pos
      ensures (role, View()) == ParseRole(tokens, old(View()))
    {
      role := Indication(Multiplexing.Plain, 0);
      if Head().kind.Identifier? && Head().text != "SG_" {
        var i := Indicator(Head().text);
        if i.Indication? {
          role := i;
          Advance();
        }
      }
    }

    method ReadPlace() returns (ok: bool, start: nat, length: nat)
      requires Ended(tokens)
      modifies this`pos, this`errors
      ensures var r := ParsePlace(tokens, old(View())); View() == r.cursor && ok == r.Next? && (ok ==> (start, length) == r.value)
    {
      length := 1;
      ok, start := ReadUnsigned();
      if !ok {
        return;
      }
      if start > 511 {
        errors, start := true, 0;
      }
      Expected(Pipe);
      ok, length := ReadUnsigned();
      if !ok {
        return;
      }
      if length < 1 || length > 64 {
        errors, length := true, if length < 1 then 1 else 64;
      }
    }

    method ReadOrder() returns (ok: bool, order: Signal.ByteOrder, signed: bool)
      requires Ended(tokens)
      modifies this`pos, this`errors
      ensures var r := ParseOrder(tokens, old(View())); View() == r.cursor && ok == r.Next? && (ok ==> (order, signed) == r.value)
    {
      order, signed := Signal.Intel, false;
      var v;
      Expected(At);
      ok, v := ReadUnsigned();
      if !ok {
        return;
      }
      if v > 1 {
        errors, v := true, 1;
      }
      order := if v == 1 then Signal.Intel else Signal.Motorola;
      var plus := Match(Plus);
      if !plus {
        signed := Match(Minus);
        if !signed {
          errors := true;
        }
      }
    }

    method ReadLayout() returns (ok: bool, layout: Signal.Layout, signed: bool)
      requires Ended(tokens)
      modifies this`pos, this`errors
      ensures var r := ParseLayout(tokens, old(View())); View() == r.cursor && ok == r.Next? && (ok ==> (layout, signed) == r.value)
    {
      layout, signed := Signal.Layout(0, 1, Signal.Intel), false;
      var start, length, order;
      ok, start, length := ReadPlace();
      if !ok {
        return;
      }
      ok, order, signed := ReadOrder();
      layout := Signal.Layout(start, length, order);
    }

    method ReadPair(open: Kind, between: Kind, close: Kind) returns (ok: bool, a: Number, b: Number)
      requires Ended(tokens)
      modifies this`pos, this`errors
      ensures var r := ParsePair(tokens, old(View()), open, between, close);
              View() == r.cursor && ok == r.Next? && (ok ==> (a, b) == r.value)
    {
      b := ONE;
      Expected(open);
      ok, a := ReadNumber();
      if !ok {
        return;
      }
      Expected(between);
      ok, b := ReadNumber();
      if !ok {
        return;
      }
      Expected(close);
    }

    method IsZeroNumber(n: Number) returns (zero: bool)
      ensures zero == IsZero(n)
    {
      var end := FractionEnd(n.literal, DigitsEnd(n.literal, 0));
      for k := 0 to end
        invariant forall j | 0 <= j < k :: n.literal[j] == '0' || n.literal[j] == '.'
      {
        if n.literal[k] != '0' && n.literal[k] != '.' {
          return false;
        }
      }
      zero := true;
    }

    method ReadFront() returns (ok: bool, s: DbcSignal)
      requires Ended(tokens)
      modifies this`pos, this`errors
      ensures var r := ParseFront(tokens, old(View())); View() == r.cursor && ok == r.Next? && (ok ==> s == r.value)
    {
      s := DbcSignal("", Multiplexing.Plain, 0, Signal.Layout(0, 1, Signal.Intel), false, ONE, ONE, ONE, ONE, "", [], "", []);
      var name, layout, signed;
      ok, name := ReadName();
      if !ok {
        return;
      }
      var role := ReadRole();
      Expected(Colon);
      ok, layout, signed := ReadLayout();
      s := s.(name := name, role := role.role, muxValue := role.value, layout := layout, signed := signed);
    }

    method ReadBack(front: DbcSignal) returns (ok: bool, s: DbcSignal)
      requires Ended(tokens)
      modifies this`pos, this`errors
      ensures var r := ParseBack(tokens, old(View()), front); View() == r.cursor && ok == r.Next? && (ok ==> s == r.value)
    {
      s := front;
      var factor, offset, minimum, maximum, unit;
      ok, factor, offset := ReadPair(LParen, Comma, RParen);
      if !ok {
        return;
      }
      ok, minimum, maximum := ReadPair(LBracket, Pipe, RBracket);
      if !ok {
        return;
      }
      ok, unit := ReadText();
      if !ok {
        return;
      }
      var receivers := ReadNames();
      s := s.(factor := factor, offset := offset, minimum := minimum, maximum := maximum, unit := unit, receivers := receivers);
    }

    /// `parse_signal`, up to where it would resynchronise.
    method ReadSignal(dlc: nat) returns (ok: bool, s: DbcSignal)
      requires Ended(tokens)
      modifies this`pos, this`errors, this`warnings
      ensures var r := ParseSignal(tokens, old(View()), dlc); View() == r.cursor && ok == r.Next? && (ok ==> s == r.value)
    {
      ok, s := ReadFront();
      if !ok {
        return;
      }
      ok, s := ReadBack(s);
      if !ok {
        return;
      }
      var zero := IsZeroNumber(s.factor);
      if zero {
        warnings := true;
        s := s.(factor := ONE);
      }
      if !s.layout.Fits(dlc) {
        errors := true;
      }
    }

    method ReadLine(dlc: nat) returns (signals: seq<DbcSignal>)
      requires Ended(tokens)
      modifies this`pos, this`errors, this`warnings
      ensures (signals, View()) == ParseLine(tokens, old(View()), dlc)
    {
      var ok, s := ReadSignal(dlc);
      if ok {
        return [s];
      }
      Resynchronise();
      signals := [];
    }

    method ReadSignals(dlc: nat) returns (signals: seq<DbcSignal>)
      requires Ended(tokens)
      modifies this`pos, this`errors, this`warnings
      ensures var r := ParseSignals(tokens, old(View()), dlc); signals == r.0 && View() == r.1
    {
      ghost var whole := ParseSignals(tokens, View(), dlc);
      signals := [];
      while Head().IsWord("SG_")
        invariant whole.0 == signals + ParseSignals(tokens, View(), dlc).0 && whole.1 == ParseSignals(tokens, View(), dlc).1
        decreases |tokens| - pos
      {
        Advance();
        var line := ReadLine(dlc);
        signals := signals + line;
      }
    }

    method ReadHead() returns (ok: bool, m: DbcMessage)
      requires Ended(tokens)
      modifies this`pos, this`errors, this`warnings
      ensures var r := ParseHead(tokens, old(View())); View() == r.cursor && ok == r.Next? && (ok ==> m == r.value)
    {
      m := DbcMessage(Standard(0), "", 0, false, "", []);
      var raw, name, dlc;
      ok, raw := ReadUnsigned();
      if !ok {
        return;
      }
      var id := ReadId(raw);
      ok, name := ReadName();
      if !ok {
        return;
      }
      Expected(Colon);
      ok, dlc := ReadUnsigned();
      if !ok {
        return;
      }
      if dlc > 64 {
        errors, dlc := true, 64;
      }
      var transmitter := "";
      if Head().kind.Identifier? {
        transmitter := if Head().text == NO_NODE then "" else Head().text;
        Advance();
      } else {
        warnings := true;
      }
      m := DbcMessage(id, name, dlc, dlc > 8, transmitter, []);
    }

    /// `parse_message`, behind its keyword.
    method ReadMessage()
      requires Ended(tokens)
      modifies this`pos, this`errors, this`warnings, this`messages
      ensures (messages, View()) == ParseMessage(tokens, old(View()), old(messages))
    {
      var ok, m := ReadHead();
      if !ok {
        Resynchronise();
        return;
      }
      var signals := ReadSignals(m.dlc);
      messages := messages + [m.(signals := signals)];
    }

    method ReadRange() returns (range: seq<Multiplexing.MuxRange>)
      requires Ended(tokens) && Head().kind.Integer?
      modifies this`pos, this`errors, this`warnings
      ensures (range, View()) == ParseRange(tokens, old(View()))
    {
      var low := Unsigned(Head().text) % WORD32;
      Advance();
      var high := low;
      var spanned := Match(Minus);
      if spanned {
        if !Head().kind.Integer? {
          errors := true;
          return [];
        }
        high := Unsigned(Head().text) % WORD32;
        Advance();
      }
      if high < low {
        warnings := true;
        low, high := high, low;
      }
      range := [Multiplexing.MuxRange(low, high)];
    }

    method ReadElement() returns (range: seq<Multiplexing.MuxRange>, more: bool)
      requires Ended(tokens) && Head().kind.Integer?
      modifies this`pos, this`errors, this`warnings
      ensures var r := ParseElement(tokens, old(View())); range == r.0 && View() == r.1 && more == r.2
    {
      range := ReadRange();
      if range == [] {
        return range, false;
      }
      more := Match(Comma);
    }

    method ReadRanges() returns (ranges: seq<Multiplexing.MuxRange>)
      requires Ended(tokens)
      modifies this`pos, this`errors, this`warnings
      ensures ranges == ParseRanges(tokens, old(View())).0 && View() == ParseRanges(tokens, old(View())).1
    {
      ghost var whole := ParseRanges(tokens, View());
      ranges := [];
      while Head().kind.Integer?
        invariant whole.0 == ranges + ParseRanges(tokens, View()).0 && whole.1 == ParseRanges(tokens, View()).1
        decreases |tokens| - pos
      {
        var range, more := ReadElement();
        ranges := ranges + range;
        if !more {
          return;
        }
      }
    }

    method ReadSwitchHead() returns (ok: bool, line: SwitchLine)
      requires Ended(tokens)
      modifies this`pos, this`errors
      ensures var r := ParseSwitchHead(tokens, old(View())); View() == r.cursor && ok == r.Next? && (ok ==> line == r.value)
    {
      line := SwitchLine(0, "", "");
      var raw, name, switchName;
      ok, raw := ReadUnsigned();
      if !ok {
        return;
      }
      ok, name := ReadName();
      if !ok {
        return;
      }
      ok, switchName := ReadName();
      if !ok {
        return;
      }
      line := SwitchLine(raw, name, switchName);
    }

    method LookUpMessage(id: CanId) returns (k: nat)
      ensures k == FindMessage(messages, id, 0)
    {
      k := 0;
      while k < |messages| && messages[k].id != id
        invariant k <= |messages| && FindMessage(messages, id, k) == FindMessage(messages, id, 0)
      {
        k := k + 1;
      }
    }

    method LookUpSignal(signals: seq<DbcSignal>, name: string) returns (k: nat)
      ensures k == FindSignal(signals, name, 0)
    {
      k := 0;
      while k < |signals| && signals[k].name != name
        invariant k <= |signals| && FindSignal(signals, name, k) == FindSignal(signals, name, 0)
      {
        k := k + 1;
      }
    }

    method Apply(line: SwitchLine, ranges: seq<Multiplexing.MuxRange>)
      requires Ended(tokens)
      modifies this`messages, this`errors, this`warnings
      ensures (messages, View()) == ApplySwitch(old(messages), old(View()), line, ranges)
    {
      var id := ReadId(line.raw);
      var m := LookUpMessage(id);
      if m == |messages| {
        warnings := true;
        return;
      }
      var signals := messages[m].signals;
      var s := LookUpSignal(signals, line.name);
      if s == |signals| {
        warnings := true;
        return;
      }
      var switch := LookUpSignal(signals, line.switchName);
      if switch == |signals| {
        warnings := true;
      }
      messages := messages[m := messages[m].(signals := signals[s := Switched(signals[s], line.switchName, ranges)])];
    }

    /// `parse_extended_multiplexing`, behind its keyword.
    method ReadSwitch()
      requires Ended(tokens)
      modifies this`pos, this`errors, this`warnings, this`messages
      ensures (messages, View()) == ParseSwitch(tokens, old(View()), old(messages))
    {
      var ok, line := ReadSwitchHead();
      if !ok {
        Resynchronise();
        return;
      }
      var ranges := ReadRanges();
      var _ := Match(Semicolon);
      Apply(line, ranges);
    }

    /// `parse_version`, behind its keyword.
    method ReadVersion()
      requires Ended(tokens)
      modifies this`pos, this`errors, this`preamble
      ensures var r := ParseVersion(tokens, old(View()), old(preamble.version));
              preamble == old(preamble).(version := r.0) && View() == r.1
    {
      var ok, v := ReadText();
      if ok {
        preamble := preamble.(version := v);
      } else {
        Resynchronise();
      }
    }

    method EntryAhead() returns (b: bool)
      requires Ended(tokens)
      ensures b == StandsAlone(tokens, View())
    {
      var next := if pos + 1 < |tokens| then tokens[pos + 1] else tokens[|tokens| - 1];
      b := Head().kind.Identifier? && Head().text != "BS_" && (next.first || next.kind.End?);
    }

    method ReadEntries() returns (symbols: seq<string>)
      requires Ended(tokens)
      modifies this`pos
      ensures symbols == ParseEntries(tokens, old(View())).0 && View() == ParseEntries(tokens, old(View())).1
    {
      ghost var whole := ParseEntries(tokens, View());
      symbols := [];
      var more := EntryAhead();
      while more
        invariant more == StandsAlone(tokens, View())
        invariant whole.0 == symbols + ParseEntries(tokens, View()).0 && whole.1 == ParseEntries(tokens, View()).1
        decreases |tokens| - pos
      {
        symbols := symbols + [Head().text];
        Advance();
        more := EntryAhead();
      }
    }

    /// `parse_new_symbols`, behind its keyword.
    method ReadSymbols()
      requires Ended(tokens)
      modifies this`pos, this`preamble
      ensures var r := ParseSymbols(tokens, old(View())); preamble == old(preamble).(symbols := r.0) && View() == r.1
    {
      var _ := Match(Colon);
      var symbols := ReadEntries();
      preamble := preamble.(symbols := symbols);
    }

    method ReadRegister() returns (v: nat)
      requires Ended(tokens)
      modifies this`pos, this`errors
      ensures var r := ParseRegister(tokens, old(View())); v == r.0 && View() == r.1
    {
      var ok;
      ok, v := ReadUnsigned();
      v := if ok then v % WORD32 else 0;
    }

    method ReadRegisters() returns (btr1: nat, btr2: nat)
      requires Ended(tokens)
      modifies this`pos, this`errors
      ensures var r := ParseRegisters(tokens, old(View())); btr1 == r.0 && btr2 == r.1 && View() == r.2
    {
      btr1, btr2 := 0, 0;
      var colon := Match(Colon);
      if colon {
        btr1 := ReadRegister();
        Expected(Comma);
        btr2 := ReadRegister();
      }
    }

    /// `parse_bit_timing`, behind its keyword.
    method ReadTiming()
      requires Ended(tokens)
      modifies this`pos, this`errors, this`preamble
      ensures var r := ParseTiming(tokens, old(View()), old(preamble.timing));
              preamble == old(preamble).(timing := r.0) && View() == r.1
    {
      Expected(Colon);
      if Head().kind.Integer? {
        var baudrate := ReadRegister();
        var btr1, btr2 := ReadRegisters();
        preamble := preamble.(timing := BusTiming(baudrate, btr1, btr2));
      }
    }

    /// `parse_nodes`, behind its keyword.
    method ReadNodes()
      requires Ended(tokens)
      modifies this`pos, this`errors, this`preamble
      ensures var r := ParseNodes(tokens, old(View()), old(preamble.nodes));
              preamble == old(preamble).(nodes := r.0) && View() == r.1
    {
      Expected(Colon);
      ghost var whole, before := ParseNodeNames(tokens, View(), preamble.nodes), View();
      while Head().kind.Identifier? && !Head().first
        invariant preamble == old(preamble).(nodes := preamble.nodes)
        invariant whole == ParseNodeNames(tokens, View(), preamble.nodes)
        decreases |tokens| - pos
      {
        var name := Head().text;
        Advance();
        preamble := preamble.(nodes := WithNode(preamble.nodes, name));
        var _ := Match(Comma);
      }
    }

    /// A section of the preamble, from its keyword.
    method ReadPreamble()
      requires Ended(tokens) && OfPreamble(Head())
      modifies this`pos, this`errors, this`preamble
      ensures var r := ParsePreamble(tokens, old(View()), old(preamble)); preamble == r.0 && View() == r.1
    {
      var keyword := Head().text;
      Advance();
      if keyword == "VERSION" {
        ReadVersion();
      } else if keyword == "NS_" {
        ReadSymbols();
      } else if keyword == "BS_" {
        ReadTiming();
      } else {
        ReadNodes();
      }
    }

    /// `run`; it gives up at a section that is not part of this model.
    method RunAll() returns (foreign: bool)
      requires Ended(tokens)
      modifies this
      ensures Run(tokens, old(View()), old(preamble), old(messages))
           == if foreign then Foreign else Finished(preamble, messages, View())
    {
      ghost var whole := Run(tokens, View(), preamble, messages);
      while !Head().kind.End?
        invariant whole == Run(tokens, View(), preamble, messages)
        decreases |tokens| - pos
      {
        if OfPreamble(Head()) {
          ReadPreamble();
        } else if Head().IsWord("BO_") {
          Advance();
          ReadMessage();
        } else if Head().IsWord("SG_MUL_VAL_") {
          Advance();
          ReadSwitch();
        } else if Head().kind.Identifier? && Head().text in TOP_LEVEL {
          return true;
        } else {
          errors := true;
          Resynchronise();
        }
      }
      foreign := false;
    }
  }
}
