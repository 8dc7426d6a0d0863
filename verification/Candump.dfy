/// Candump log lines, written and read by transport/src/LogFormat.cpp.
module Candump {
  import opened Bits
  import opened Text
  import opened Frame

  /// A received frame and the interface it came in on.
  datatype Record = Record(frame: Frame, channel: string)

  const ERR_FLAG: nat := 536870912

  // ---- Frames ----

  function FirstDlc(length: nat, dlc: nat): (d: nat)
    requires dlc <= 16
    ensures d <= 16
    decreases 16 - dlc
  {
    if dlc == 16 || DlcToLength(dlc, true) >= length then dlc else FirstDlc(length, dlc + 1)
  }

  predicate FlagsValid(flags: Flags) {
    !(flags.fd && flags.rtr) && (!flags.fd ==> !flags.brs && !flags.esi)
  }

  datatype ErrorCode = BadFormat | BadIdentifier | BadFlags | PayloadTooLarge | BadDlc

  datatype Outcome<T> = Good(value: T) | Bad(error: ErrorCode)

  /// `FdFrame::make`: the length must be one a data length code stands for.
  function Make(id: CanId, data: seq<Byte>, flags: Flags, timestamp: nat): Outcome<Frame> {
    if !FlagsValid(flags) || (flags.rtr && data != []) then Bad(BadFlags)
    else if |data| > if flags.fd then 64 else 8 then Bad(PayloadTooLarge)
    else if !flags.fd then Good(Frame(id, |data|, flags, data, timestamp))
    else
      var dlc := FirstDlc(|data|, 0);
      if dlc == 16 || DlcToLength(dlc, true) != |data| then Bad(BadDlc) else Good(Frame(id, dlc, flags, data, timestamp))
  }

  const REMOTE: Flags := Flags(true, false, false, false, false)

  /// `FdFrame::make_remote`.
  function MakeRemote(id: CanId, requested: nat, timestamp: nat): Outcome<Frame> {
    if requested > 8 then Bad(BadDlc) else Good(Frame(id, requested, REMOTE, [], timestamp))
  }

  /// Built by one of the two.
  ghost predicate Built(f: Frame) {
    Make(f.id, f.data, f.flags, f.timestamp) == Good(f) || MakeRemote(f.id, f.dlc, f.timestamp) == Good(f)
  }

  // ---- Writing ----

  function Stamp(ns: nat): string {
    "(" + Decimal(ns / BILLION) + "." + Padded(Decimal(ns % BILLION / 1000), 6) + ")"
  }

  function IdText(f: Frame): string {
    var value := f.id.value + if f.flags.error then ERR_FLAG else 0;
    Padded(Hex(value), if f.id.Extended? || f.flags.error then 8 else 3)
  }

  function PayloadText(f: Frame): string {
    if f.flags.rtr then "R" + Decimal(f.dlc)
    else if f.flags.fd then
      "#" + Decimal((if f.flags.brs then 1 else 0) + if f.flags.esi then 2 else 0) + ToHex(f.data)
    else ToHex(f.data)
  }

  function BodyText(f: Frame): string {
    IdText(f) + "#" + PayloadText(f)
  }

  /// `format_candump_line`.
  function Format(r: Record): string {
    Stamp(r.frame.timestamp) + (" " + (r.channel + (" " + BodyText(r.frame))))
  }

  // ---- Reading ----

  function FindHash(s: string): (n: nat)
    ensures n <= |s| && (n < |s| ==> s[n] == '#')
  {
    if s == [] || s[0] == '#' then 0 else 1 + FindHash(s[1..])
  }

  function ParseStamp(stamp: string): Maybe<nat> {
    if |stamp| < 3 || stamp[0] != '(' || stamp[|stamp| - 1] != ')' then Nothing else ParseSeconds(stamp[1..|stamp| - 1])
  }

  /// The identifier of the frame, and whether it marks an error frame: three digits are a standard one,
  /// eight an extended one.
  function ParseId(text: string): Identifier {
    var raw := ParseHex(text);
    if raw.Nothing? then NotHex
    else if |text| > 3 then Identifier(Extended(raw.value % ERR_FLAG), raw.value / ERR_FLAG % 2 == 1 && |text| == 8)
    else if raw.value < STANDARD_IDS then Identifier(Standard(raw.value), false)
    else TooLarge
  }

  datatype Identifier = NotHex | TooLarge | Identifier(id: CanId, error: bool)

  /// What follows the first '#'.
  function ParsePayload(id: CanId, error: bool, text: string, timestamp: nat): Outcome<Frame> {
    if text != [] && text[0] == '#' then
      if |text| < 2 then Bad(BadFormat)
      else
        var nibble := HexNibble(text[1]);
        if nibble.Nothing? then Bad(BadFormat)
        else ParseRest(id, Flags(false, error, true, nibble.value % 2 == 1, nibble.value / 2 % 2 == 1), text[2..], timestamp)
    else ParseRest(id, Flags(false, error, false, false, false), text, timestamp)
  }

  function ParseRest(id: CanId, flags: Flags, text: string, timestamp: nat): Outcome<Frame> {
    if text != [] && (text[0] == 'R' || text[0] == 'r') then
      var requested := if |text| == 1 then Just(0) else ParseHex(text[1..]);
      if requested.Nothing? then Bad(BadFormat) else MakeRemote(id, requested.value % 256, timestamp)
    else
      var data := ParseHexBytes(text, 64);
      if data.Nothing? || (!flags.fd && |data.value| > 8) then Bad(BadFormat) else Make(id, data.value, flags, timestamp)
  }

  /// The flags nibble is looked at before the identifier is refused for its size.
  function ParseBody(body: string, timestamp: nat): Outcome<Frame> {
    var hash := FindHash(body);
    if hash == |body| then Bad(BadFormat)
    else
      var id, rest := ParseId(body[..hash]), body[hash + 1..];
      match id
      case NotHex => Bad(BadFormat)
      case TooLarge => if BadNibble(rest) then Bad(BadFormat) else Bad(BadIdentifier)
      case Identifier(i, error) => ParsePayload(i, error, rest, timestamp)
  }

  /// A second '#' that no flags nibble follows.
  predicate BadNibble(rest: string) {
    rest != [] && rest[0] == '#' && (|rest| < 2 || HexNibble(rest[1]).Nothing?)
  }

  /// `parse_candump_line`.
  function Parse(line: string): Outcome<Record> {
    var text := Trim(line);
    if text == [] || text[0] == '#' then Bad(BadFormat)
    else
      var parts := Split(text);
      if |parts| < 3 then Bad(BadFormat)
      else
        var timestamp := ParseStamp(parts[0]);
        if timestamp.Nothing? then Bad(BadFormat)
        else
          match ParseBody(parts[2], timestamp.value)
          case Bad(e) => Bad(e)
          case Good(frame) => Good(Record(frame, parts[1]))
  }

  // ---- The reader and the writer ----

  method ParseIdText(text: string) returns (r: Identifier)
    ensures r == ParseId(text)
  {
    var raw := ParseHexLoop(text);
    if raw.Nothing? {
      return NotHex;
    }
    var extended := |text| > 3;
    var error := extended && raw.value / ERR_FLAG % 2 == 1 && |text| == 8;
    if extended {
      return Identifier(Extended(raw.value % ERR_FLAG), error);
    }
    if raw.value >= STANDARD_IDS {
      return TooLarge;
    }
    return Identifier(Standard(raw.value), error);
  }

  method ParseFrame(body: string, timestamp: nat) returns (r: Outcome<Frame>)
    ensures r == ParseBody(body, timestamp)
  {
    var hash := 0;
    while hash < |body| && body[hash] != '#'
      invariant 0 <= hash <= |body| && FindHash(body) == hash + FindHash(body[hash..])
    {
      assert body[hash..][1..] == body[hash + 1..];
      hash := hash + 1;
    }
    if hash == |body| {
      return Bad(BadFormat);
    }
    var id := ParseIdText(body[..hash]);
    if id.NotHex? {
      return Bad(BadFormat);
    }
    var rest := body[hash + 1..];
    var flags := Flags(false, id.Identifier? && id.error, false, false, false);
    if rest != [] && rest[0] == '#' {
      if |rest| < 2 {
        return Bad(BadFormat);
      }
      var nibble := HexNibble(rest[1]);
      if nibble.Nothing? {
        return Bad(BadFormat);
      }
      flags := flags.(fd := true, brs := nibble.value % 2 == 1, esi := nibble.value / 2 % 2 == 1);
      rest := rest[2..];
    }
    if id.TooLarge? {
      return Bad(BadIdentifier);
    }
    if rest != [] && (rest[0] == 'R' || rest[0] == 'r') {
      var requested := Just(0);
      if |rest| > 1 {
        requested := ParseHexLoop(rest[1..]);
      }
      if requested.Nothing? {
        return Bad(BadFormat);
      }
      return MakeRemote(id.id, requested.value % 256, timestamp);
    }
    var data := ParseHexBytesLoop(rest, 64);
    if data.Nothing? || (!flags.fd && |data.value| > 8) {
      return Bad(BadFormat);
    }
    return Make(id.id, data.value, flags, timestamp);
  }

  method ParseCandumpLine(line: string) returns (r: Outcome<Record>)
    ensures r == Parse(line)
  {
    var text := TrimLoop(line);
    if text == [] || text[0] == '#' {
      return Bad(BadFormat);
    }
    var parts := SplitLoop(text);
    if |parts| < 3 {
      return Bad(BadFormat);
    }
    var stamp := parts[0];
    if |stamp| < 3 || stamp[0] != '(' || stamp[|stamp| - 1] != ')' {
      return Bad(BadFormat);
    }
    var timestamp := ParseSecondsLoop(stamp[1..|stamp| - 1]);
    if timestamp.Nothing? {
      return Bad(BadFormat);
    }
    var frame := ParseFrame(parts[2], timestamp.value);
    if frame.Bad? {
      return Bad(frame.error);
    }
    return Good(Record(frame.value, parts[1]));
  }

  method FormatCandumpLine(r: Record) returns (line: string)
    ensures line == Format(r)
  {
    var body := IdText(r.frame) + "#";
    if r.frame.flags.rtr {
      body := body + ("R" + Decimal(r.frame.dlc));
    } else {
      var hex := ToHexLoop(r.frame.data);
      if r.frame.flags.fd {
        var nibble := (if r.frame.flags.brs then 1 else 0) + if r.frame.flags.esi then 2 else 0;
        body := body + ("#" + Decimal(nibble) + hex);
      } else {
        body := body + hex;
      }
    }
    line := Stamp(r.frame.timestamp) + (" " + (r.channel + (" " + body)));
  }

  // ---- Round trip ----

  function ToMicroseconds(r: Record): Record {
    r.(frame := r.frame.(timestamp := r.frame.timestamp / 1000 * 1000))
  }

  lemma StampReads(ns: nat)
    requires ns < WORD64
    ensures ParseStamp(Stamp(ns)) == Just(ns / 1000 * 1000)
    ensures |Stamp(ns)| >= 3 && NoBlank(Stamp(ns)) && Stamp(ns)[0] == '('
  {
    var whole, us := ns / BILLION, ns % BILLION / 1000;
    var text := Decimal(whole) + "." + Padded(Decimal(us), 6);
    TimeReads(whole, us, text);
    Microseconds(ns, whole, us);
    StampIs(ns, text);
  }

  lemma Microseconds(ns: nat, whole: nat, us: nat)
    requires ns < WORD64 && whole == ns / BILLION && us == ns % BILLION / 1000
    ensures Nanoseconds(whole, 1000 * us) == ns / 1000 * 1000
  {
    WholeMicroseconds(ns, whole, us);
  }

  lemma TimeReads(whole: nat, us: nat, text: string)
    requires whole < WORD64 && us < 1000000 && text == Decimal(whole) + "." + Padded(Decimal(us), 6)
    ensures ParseSeconds(text) == Just(Nanoseconds(whole, 1000 * us)) && text != [] && NoBlank(text)
  {
    DecimalReads(whole);
    SixDigits(us);
    SecondsRead(text, Decimal(whole), Padded(Decimal(us), 6), whole, 1000 * us);
  }

  lemma StampIs(ns: nat, text: string)
    requires text == Decimal(ns / BILLION) + "." + Padded(Decimal(ns % BILLION / 1000), 6) && text != [] && NoBlank(text)
    ensures ParseStamp(Stamp(ns)) == ParseSeconds(text)
    ensures |Stamp(ns)| >= 3 && NoBlank(Stamp(ns)) && Stamp(ns)[0] == '('
  {
    var stamp := Stamp(ns);
    assert stamp == "(" + text + ")";
    assert stamp[1..|stamp| - 1] == text;
  }

  lemma SecondsRead(text: string, a: string, b: string, whole: nat, fraction: nat)
    requires a != [] && (forall i | 0 <= i < |a| :: IsDigit(a[i])) && DecimalValue(a) == whole
    requires (forall i | 0 <= i < |b| :: IsDigit(b[i])) && Fraction(b, 100000000) == fraction
    requires text == a + "." + b
    ensures ParseSeconds(text) == Just(Nanoseconds(whole, fraction))
  {
    var n := |a|;
    PointAfter(text, a, b);
    LeadingDigitsIs(text, n);
    LeadingDigitsIs(b, |b|);
    SecondsInParts(text, n, b, fraction);
  }

  lemma PointAfter(text: string, a: string, b: string)
    requires text == a + "." + b
    ensures text[|a|] == '.' && text[..|a|] == a && text[|a| + 1..] == b
    ensures forall i | 0 <= i < |a| :: text[i] == a[i]
  {
  }

  lemma SecondsInParts(text: string, n: nat, rest: string, fraction: nat)
    requires n == LeadingDigits(text) && 0 < n < |text| && text[n] == '.' && rest == text[n + 1..]
    requires LeadingDigits(rest) == |rest| && fraction == Fraction(rest, 100000000)
    ensures ParseSeconds(text) == Just(Nanoseconds(DecimalValue(text[..n]), fraction))
  {
  }

  lemma WholeMicroseconds(ns: nat, whole: nat, us: nat)
    requires whole == ns / BILLION && us == ns % BILLION / 1000
    ensures whole * BILLION + 1000 * us == ns / 1000 * 1000
  {
    var rest := ns % BILLION;
    assert ns == 1000 * (1000000 * whole + us) + rest % 1000;
  }

  lemma HexHasNoHash(s: string)
    requires AllHex(s)
    ensures forall i | 0 <= i < |s| :: s[i] != '#' && !IsBlank(s[i]) && s[i] != 'R' && s[i] != 'r'
  {
  }

  lemma HexField(value: nat, width: nat, text: string)
    requires width >= 1 && value < Pow16(width) && text == Padded(Hex(value), width) && width <= 16
    ensures |text| == width && ParseHex(text) == Just(value) && AllHex(text)
  {
    HexReads(value);
    PaddedHexReads(Hex(value), width);
    HexWidth(value, width);
    ReadableIsHex(text);
  }

  lemma NumberIsId(text: string, id: CanId, error: bool, value: nat)
    requires ParseHex(text) == Just(value) && value == id.value + (if error then ERR_FLAG else 0)
    requires |text| == if id.Extended? || error then 8 else 3
    ensures ParseId(text) == Identifier(if error then Extended(id.value) else id, error)
  {
  }

  lemma IdFits(id: CanId, error: bool)
    ensures id.value + (if error then ERR_FLAG else 0) < Pow16(if id.Extended? || error then 8 else 3)
  {
    assert Pow16(3) == 4096;
    assert Pow16(8) == 4294967296;
  }

  lemma IdReads(f: Frame)
    ensures ParseId(IdText(f)) == Identifier(if f.flags.error then Extended(f.id.value) else f.id, f.flags.error)
    ensures AllHex(IdText(f)) && IdText(f) != []
  {
    var id, error, text := f.id, f.flags.error, IdText(f);
    var value := id.value + if error then ERR_FLAG else 0;
    IdFits(id, error);
    HexField(value, if id.Extended? || error then 8 else 3, text);
    NumberIsId(text, id, error, value);
  }

  lemma {:induction false} FindHashIs(s: string, n: nat)
    requires n < |s| && s[n] == '#' && forall i | 0 <= i < n :: s[i] != '#'
    ensures FindHash(s) == n
  {
    if n > 0 {
      FindHashIs(s[1..], n - 1);
    }
  }

  lemma {:induction false} ToHexIsHex(data: seq<Byte>)
    ensures AllHex(ToHex(data))
  {
    if data != [] {
      ToHexIsHex(data[..|data| - 1]);
    }
  }

  lemma WithinLimit(data: seq<Byte>, text: string, limit: nat)
    requires |data| <= limit && |text| == 2 * |data| && HexBytes(text) == Just(data)
    ensures ParseHexBytes(text, limit) == Just(data)
  {
  }

  lemma DataReads(data: seq<Byte>, text: string)
    requires |data| <= 64 && text == ToHex(data)
    ensures ParseHexBytes(text, 64) == Just(data)
  {
    AllBytesRead(data, text);
    WithinLimit(data, text, 64);
  }

  /// Data of a frame that is not a remote request.
  lemma RestReads(f: Frame, id: CanId, flags: Flags, text: string, timestamp: nat)
    requires Make(f.id, f.data, f.flags, f.timestamp) == Good(f) && !f.flags.rtr && text == ToHex(f.data)
    requires flags == f.flags.(error := flags.error)
    ensures ParseRest(id, flags, text, timestamp) == Good(f.(id := id, timestamp := timestamp, flags := flags))
  {
    ToHexIsHex(f.data);
    HexHasNoHash(text);
    DataReads(f.data, text);
  }

  lemma RemoteReads(f: Frame, id: CanId, flags: Flags, text: string, timestamp: nat)
    requires Built(f) && f.flags.rtr && text == ['R'] + Decimal(f.dlc)
    ensures ParseRest(id, flags, text, timestamp) == Good(f.(id := id, timestamp := timestamp, flags := REMOTE))
  {
    var digit := DigitChar(f.dlc);
    assert Decimal(f.dlc) == [digit];
    assert text[1..] == [digit];
    OneHexDigit(digit);
  }

  lemma OneHexDigit(c: char)
    requires IsDigit(c)
    ensures ParseHex([c]) == Just(DigitValue(c))
  {
    var s := [c];
    assert s[..0] == [];
    assert HexValue(s[..0]) == Just(0);
    assert HexNibble(s[0]) == Just(DigitValue(c));
  }

  /// What the payload text of a built frame reads back as.
  lemma PayloadReads(f: Frame, id: CanId, error: bool, text: string, timestamp: nat)
    requires Built(f) && text == PayloadText(f)
    ensures ParsePayload(id, error, text, timestamp)
         == Good(f.(id := id, timestamp := timestamp, flags := if f.flags.rtr then REMOTE else f.flags.(error := error)))
  {
    if f.flags.rtr {
      RemoteReads(f, id, Flags(false, error, false, false, false), text, timestamp);
    } else if f.flags.fd {
      FdReads(f, id, error, text, timestamp);
    } else {
      ToHexIsHex(f.data);
      HexHasNoHash(text);
      RestReads(f, id, f.flags.(error := error), text, timestamp);
    }
  }

  lemma FdReads(f: Frame, id: CanId, error: bool, text: string, timestamp: nat)
    requires Built(f) && f.flags.fd && text == PayloadText(f)
    ensures ParsePayload(id, error, text, timestamp)
         == Good(f.(id := id, timestamp := timestamp, flags := f.flags.(error := error)))
  {
    var nibble := (if f.flags.brs then 1 else 0) + if f.flags.esi then 2 else 0;
    var digit := DigitChar(nibble);
    assert Decimal(nibble) == [digit];
    assert text == ['#', digit] + ToHex(f.data);
    assert text[2..] == ToHex(f.data);
    RestReads(f, id, f.flags.(error := error), ToHex(f.data), timestamp);
  }

  lemma BodyReads(f: Frame, timestamp: nat)
    requires Built(f)
    ensures ParseBody(BodyText(f), timestamp)
         == Good(f.(id := if f.flags.error then Extended(f.id.value) else f.id, timestamp := timestamp,
                    flags := if f.flags.rtr then REMOTE else f.flags))
    ensures NoBlank(BodyText(f)) && BodyText(f) != []
  {
    var id, payload, body := IdText(f), PayloadText(f), BodyText(f);
    IdReads(f);
    HexHasNoHash(id);
    FindHashIs(body, |id|);
    assert body[..|id|] == id && body[|id| + 1..] == payload;
    PayloadReads(f, if f.flags.error then Extended(f.id.value) else f.id, f.flags.error, payload, timestamp);
    PayloadHasNoBlank(f);
  }

  lemma PayloadHasNoBlank(f: Frame)
    requires Built(f)
    ensures NoBlank(PayloadText(f)) && (PayloadText(f) != [] ==> !IsSpace(PayloadText(f)[|PayloadText(f)| - 1]))
  {
    ToHexIsHex(f.data);
  }

  lemma LineSplits(a: string, b: string, c: string)
    requires a != [] && b != [] && c != [] && NoBlank(a) && NoBlank(b) && NoBlank(c)
    ensures Split(a + (" " + (b + (" " + c)))) == [a, b, c]
  {
    var tail := " " + c;
    var middle := " " + (b + tail);
    SplitWord(a, middle);
    assert middle[1..] == b + tail;
    SplitWord(b, tail);
    assert tail[1..] == c;
    SplitWord(c, []);
    assert c + [] == c;
  }

  lemma NothingToTrim(s: string)
    requires s != [] && !IsSpace(s[0]) && !IsSpace(s[|s| - 1])
    ensures Trim(s) == s
  {
  }

  lemma LineParts(line: string, a: string, b: string, c: string)
    requires a != [] && b != [] && c != [] && NoBlank(a) && NoBlank(b) && NoBlank(c) && !IsSpace(a[0]) && !IsSpace(c[|c| - 1])
    requires line == a + (" " + (b + (" " + c)))
    ensures Trim(line) == line && line[0] == a[0] && Split(line) == [a, b, c]
  {
    LineSplits(a, b, c);
    assert line[|line| - 1] == c[|c| - 1];
    NothingToTrim(line);
  }

  /// What the line of any built frame reads back as.
  lemma LineReads(r: Record)
    requires Built(r.frame) && r.frame.timestamp < WORD64 && r.channel != [] && NoBlank(r.channel)
    ensures var f := r.frame;
            Parse(Format(r))
            == Good(Record(f.(id := if f.flags.error then Extended(f.id.value) else f.id, timestamp := f.timestamp / 1000 * 1000,
                              flags := if f.flags.rtr then REMOTE else f.flags), r.channel))
  {
    var f := r.frame;
    StampReads(f.timestamp);
    BodyReads(f, f.timestamp / 1000 * 1000);
    PayloadHasNoBlank(f);
    LineParts(Format(r), Stamp(f.timestamp), r.channel, BodyText(f));
  }

  /// Reading a written line gives back the record, its time floored to the microsecond, exactly when the
  /// frame is no error frame, or one with an extended identifier that is not a remote request.
  lemma RoundTrip(r: Record)
    requires Built(r.frame) && r.frame.timestamp < WORD64 && r.channel != [] && NoBlank(r.channel)
    ensures Parse(Format(r)) == Good(ToMicroseconds(r))
       <==> (r.frame.flags.error ==> r.frame.id.Extended? && !r.frame.flags.rtr)
  {
    LineReads(r);
  }
}
