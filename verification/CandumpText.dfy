/// Candump lines character by character.
module CandumpText {
  import opened Bits
  import opened Text
  import opened Frame
  import opened Candump

  // ---- Digits ----

  /// Decimal digits are the characters 0 to 9, the most significant first.
  lemma DecimalDigits(a: nat, d: nat)
    requires d < 10
    ensures Decimal(d) == ["0123456789"[d]]
    ensures a > 0 ==> Decimal(10 * a + d) == Decimal(a) + ["0123456789"[d]]
  {
    assert (10 * a + d) / 10 == a && (10 * a + d) % 10 == d;
  }

  /// Hexadecimal ones are 0 to 9 and A to F.
  lemma HexDigits(a: nat, d: nat)
    requires d < 16
    ensures Hex(d) == ["0123456789ABCDEF"[d]]
    ensures a > 0 ==> Hex(16 * a + d) == Hex(a) + ["0123456789ABCDEF"[d]]
  {
    HexCharacter(d);
    assert (16 * a + d) / 16 == a && (16 * a + d) % 16 == d;
  }

  lemma HexCharacter(d: nat)
    requires d < 16
    ensures HexChar(d) == "0123456789ABCDEF"[d]
  {
  }

  /// Small letters are read too, and nothing else is.
  lemma HexDigitRead(c: char)
    ensures match HexNibble(c)
            case Just(d) => d < 16 && (c == "0123456789ABCDEF"[d] || c == "0123456789abcdef"[d])
            case Nothing => forall d: nat | d < 16 :: c != "0123456789ABCDEF"[d] && c != "0123456789abcdef"[d]
  {
  }

  /// `width` digits of `v` in base 16.
  function HexField(v: nat, width: nat): (r: string)
    ensures |r| == width
  {
    if width == 0 then "" else HexField(v / 16, width - 1) + ["0123456789ABCDEF"[v % 16]]
  }

  /// `width` digits of `v` in base 10.
  function DecimalField(v: nat, width: nat): (r: string)
    ensures |r| == width
  {
    if width == 0 then "" else DecimalField(v / 10, width - 1) + ["0123456789"[v % 10]]
  }

  lemma {:induction false} PaddedFront(s: string, c: char, width: nat)
    requires |s| <= width
    ensures Padded(s + [c], width + 1) == Padded(s, width) + [c]
    decreases width - |s|
  {
    if |s| < width {
      PaddedFront(['0'] + s, c, width);
      assert ['0'] + (s + [c]) == ['0'] + s + [c];
    }
  }

  lemma {:induction false} ZeroField(width: nat)
    requires width >= 1
    ensures Padded("0", width) == HexField(0, width) == DecimalField(0, width)
  {
    if width > 1 {
      ZeroField(width - 1);
      PaddedZero(width - 1);
    } else {
      assert HexField(0, 0) == "" && DecimalField(0, 0) == "";
    }
  }

  lemma PaddedZero(width: nat)
    requires width >= 1
    ensures Padded("0", width + 1) == Padded("0", width) + ['0']
  {
    PaddedFront("0", '0', width);
    assert Padded("0", width + 1) == Padded(['0'] + "0", width + 1);
    assert ['0'] + "0" == "0" + ['0'];
  }

  /// A number that fits is printed as that many digits.
  lemma {:induction false} HexFieldWritten(v: nat, width: nat)
    requires width >= 1 && v < Pow16(width)
    ensures Padded(Hex(v), width) == HexField(v, width)
  {
    if width == 1 {
      HexCharacter(v);
      assert HexField(v / 16, 0) == "";
    } else if v < 16 {
      HexCharacter(v);
      SmallHexField(v, width);
    } else {
      HexFieldWritten(v / 16, width - 1);
      HexWidth(v / 16, width - 1);
      HexCharacter(v % 16);
      PaddedFront(Hex(v / 16), HexChar(v % 16), width - 1);
    }
  }

  lemma SmallHexField(v: nat, width: nat)
    requires v < 16 && width >= 2
    ensures Padded([HexChar(v)], width) == HexField(v, width)
  {
    ZeroField(width - 1);
    HexCharacter(v);
    PaddedFront("0", HexChar(v), width - 1);
    assert Padded([HexChar(v)], width) == Padded(['0'] + [HexChar(v)], width);
    assert ['0'] + [HexChar(v)] == "0" + [HexChar(v)];
  }

  /// And in base 10.
  lemma {:induction false} DecimalFieldWritten(v: nat, width: nat)
    requires width >= 1 && v < Pow10(width)
    ensures Padded(Decimal(v), width) == DecimalField(v, width)
  {
    if width == 1 {
      assert DecimalField(v / 10, 0) == "";
    } else if v < 10 {
      SmallDecimalField(v, width);
    } else {
      DecimalFieldWritten(v / 10, width - 1);
      DecimalWidth(v / 10, width - 1);
      PaddedFront(Decimal(v / 10), DigitChar(v % 10), width - 1);
    }
  }

  lemma SmallDecimalField(v: nat, width: nat)
    requires v < 10 && width >= 2
    ensures Padded([DigitChar(v)], width) == DecimalField(v, width)
  {
    ZeroField(width - 1);
    PaddedFront("0", DigitChar(v), width - 1);
    assert Padded([DigitChar(v)], width) == Padded(['0'] + [DigitChar(v)], width);
    assert ['0'] + [DigitChar(v)] == "0" + [DigitChar(v)];
  }

  // ---- Lines ----

  /// Two digits for each byte.
  function BytesText(data: seq<Byte>): string {
    if data == [] then "" else BytesText(data[..|data| - 1]) + HexField(data[|data| - 1], 2)
  }

  lemma {:induction false} BytesWritten(data: seq<Byte>)
    ensures ToHex(data) == BytesText(data)
  {
    if data != [] {
      var b := data[|data| - 1];
      BytesWritten(data[..|data| - 1]);
      HexCharacter(b / 16);
      HexCharacter(b % 16);
      TwoDigits(b);
    }
  }

  lemma TwoDigits(b: Byte)
    ensures HexField(b, 2) == ["0123456789ABCDEF"[b / 16], "0123456789ABCDEF"[b % 16]]
  {
    assert HexField(b / 16 / 16, 0) == "";
    assert HexField(b / 16, 1) == [] + ["0123456789ABCDEF"[b / 16 % 16]];
  }

  /// Seconds, and six digits of microseconds, in brackets.
  function StampText(ns: nat): string {
    "(" + Decimal(ns / 1000000000) + "." + DecimalField(ns % 1000000000 / 1000, 6) + ")"
  }

  lemma StampWritten(ns: nat)
    ensures Stamp(ns) == StampText(ns)
  {
    assert Pow10(2) == 100;
    assert Pow10(6) == 1000000;
    DecimalFieldWritten(ns % 1000000000 / 1000, 6);
  }

  /// Three digits for a standard identifier, eight for an extended one or an error frame, which has bit 29 set.
  function IdDigits(f: Frame): string {
    if f.id.Extended? || f.flags.error then HexField(f.id.value + (if f.flags.error then 0x2000_0000 else 0), 8)
    else HexField(f.id.value, 3)
  }

  lemma IdWritten(f: Frame)
    ensures IdText(f) == IdDigits(f)
  {
    assert Pow16(2) == 256;
    assert Pow16(3) == 4096;
    assert Pow16(4) == 65536;
    assert Pow16(6) == 16777216;
    assert Pow16(8) == 4294967296;
    HexFieldWritten(f.id.value + (if f.flags.error then ERR_FLAG else 0), if f.id.Extended? || f.flags.error then 8 else 3);
  }

  /// R and the length of a remote request; a # and the flags of an FD frame, 1 for a switched bit rate and 2 for the
  /// error state; and the bytes.
  function PayloadDigits(f: Frame): string {
    if f.flags.rtr then "R" + Decimal(f.dlc)
    else if f.flags.fd then
      "#" + (if f.flags.brs && f.flags.esi then "3" else if f.flags.esi then "2" else if f.flags.brs then "1" else "0") + BytesText(f.data)
    else BytesText(f.data)
  }

  lemma PayloadWritten(f: Frame)
    ensures PayloadText(f) == PayloadDigits(f)
  {
    BytesWritten(f.data);
    DecimalDigits(0, (if f.flags.brs then 1 else 0) + if f.flags.esi then 2 else 0);
  }

  /// A line: time, interface, and identifier and payload with a # between them.
  lemma LineWritten(r: Record)
    ensures Format(r) == StampText(r.frame.timestamp) + " " + r.channel + " " + IdDigits(r.frame) + "#" + PayloadDigits(r.frame)
  {
    StampWritten(r.frame.timestamp);
    IdWritten(r.frame);
    PayloadWritten(r.frame);
    Regrouped(StampText(r.frame.timestamp), r.channel, IdDigits(r.frame), PayloadDigits(r.frame));
  }

  lemma Regrouped(a: string, b: string, c: string, d: string)
    ensures a + (" " + (b + (" " + (c + "#" + d)))) == a + " " + b + " " + c + "#" + d
  {
  }

  // ---- Other lines ----

  /// Blank lines and comments are no frames.
  lemma CommentsAreBad(line: string)
    requires line == [] || line[0] == '#' || forall k | 0 <= k < |line| :: line[k] == ' ' || line[k] == '\t' || line[k] == '\r'
    ensures Parse(line) == Bad(BadFormat)
  {
    if line != [] && line[0] == '#' {
      CommentStays(line);
    } else {
      BlankTrimmed(line);
    }
  }

  lemma {:induction false} BlankTrimmed(line: string)
    requires forall k | 0 <= k < |line| :: line[k] == ' ' || line[k] == '\t' || line[k] == '\r'
    ensures TrimFront(line) == []
  {
    if line != [] {
      BlankTrimmed(line[1..]);
    }
  }

  lemma {:induction false} CommentStays(line: string)
    requires line != [] && line[0] == '#'
    ensures TrimBack(line) != [] && TrimBack(line)[0] == '#'
    decreases |line|
  {
    if |line| > 1 {
      CommentStays(line[..|line| - 1]);
    }
  }
}
