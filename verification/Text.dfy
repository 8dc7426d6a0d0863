/// Numbers and words in text: the helpers of transport/src/LogFormat.cpp and what the writer's stream
/// manipulators print, with the loops proved against functions and the functions against each other.
module Text {
  import opened Bits

  datatype Maybe<T> = Nothing | Just(value: T)

  const WORD64: nat := 18446744073709551616

  // ---- Digits ----

  predicate IsDigit(c: char) {
    '0' <= c <= '9'
  }

  function DigitValue(c: char): nat
    requires IsDigit(c)
  {
    c as int - '0' as int
  }

  function DigitChar(d: nat): (c: char)
    requires d < 10
    ensures IsDigit(c) && DigitValue(c) == d
  {
    ('0' as int + d) as char
  }

  /// `hex_nibble`.
  function HexNibble(c: char): (m: Maybe<nat>)
    ensures m.Just? ==> m.value < 16
  {
    if '0' <= c <= '9' then Just(c as int - '0' as int)
    else if 'a' <= c <= 'f' then Just(c as int - 'a' as int + 10)
    else if 'A' <= c <= 'F' then Just(c as int - 'A' as int + 10)
    else Nothing
  }

  function HexChar(d: nat): (c: char)
    requires d < 16
    ensures HexNibble(c) == Just(d)
  {
    if d < 10 then ('0' as int + d) as char else ('A' as int + d - 10) as char
  }

  // ---- Printing ----

  function Decimal(v: nat): (s: string)
    ensures s != []
  {
    if v < 10 then [DigitChar(v)] else Decimal(v / 10) + [DigitChar(v % 10)]
  }

  function Hex(v: nat): (s: string)
    ensures s != []
  {
    if v < 16 then [HexChar(v)] else Hex(v / 16) + [HexChar(v % 16)]
  }

  /// `setfill('0') << setw(width)`.
  function Padded(s: string, width: nat): (r: string)
    ensures |r| == if |s| < width then width else |s|
    decreases width - |s|
  {
    if |s| < width then Padded(['0'] + s, width) else s
  }

  // ---- Reading ----

  function DecimalValue(text: string): (v: nat)
    requires forall i | 0 <= i < |text| :: IsDigit(text[i])
    ensures v < WORD64
  {
    if text == [] then 0 else (10 * DecimalValue(text[..|text| - 1]) + DigitValue(text[|text| - 1])) % WORD64
  }

  /// Any number of hex digits.
  function HexValue(text: string): Maybe<nat> {
    if text == [] then Just(0)
    else
      var high, low := HexValue(text[..|text| - 1]), HexNibble(text[|text| - 1]);
      if high.Just? && low.Just? then Just(16 * high.value + low.value) else Nothing
  }

  /// `parse_hex`: one to sixteen digits.
  function ParseHex(text: string): Maybe<nat> {
    if text == [] || |text| > 16 then Nothing else HexValue(text)
  }

  method ParseHexLoop(text: string) returns (r: Maybe<nat>)
    ensures r == ParseHex(text)
  {
    if |text| == 0 || |text| > 16 {
      return Nothing;
    }
    var out := 0;
    for i := 0 to |text|
      invariant HexValue(text[..i]) == Just(out)
    {
      assert text[..i + 1][..i] == text[..i];
      var nibble := HexNibble(text[i]);
      if nibble.Nothing? {
        HexPrefix(text, i + 1);
        return Nothing;
      }
      out := 16 * out + nibble.value;
    }
    assert text[..|text|] == text;
    return Just(out);
  }

  /// What does not read so far does not read at all.
  lemma {:induction false} HexPrefix(text: string, i: nat)
    requires i <= |text| && HexValue(text[..i]).Nothing?
    ensures HexValue(text).Nothing?
    decreases |text|
  {
    if i < |text| {
      assert text[..|text| - 1][..i] == text[..i];
      HexPrefix(text[..|text| - 1], i);
    } else {
      assert text[..i] == text;
    }
  }

  /// `parse_hex_bytes`, at most `limit` of them.
  function ParseHexBytes(text: string, limit: nat): Maybe<seq<Byte>> {
    if |text| % 2 != 0 || |text| / 2 > limit then Nothing else HexBytes(text)
  }

  function HexBytes(text: string): Maybe<seq<Byte>>
    requires |text| % 2 == 0
  {
    if text == [] then Just([])
    else
      var hi, lo, rest := HexNibble(text[0]), HexNibble(text[1]), HexBytes(text[2..]);
      if hi.Just? && lo.Just? && rest.Just? then Just([16 * hi.value + lo.value] + rest.value) else Nothing
  }

  method ParseHexBytesLoop(text: string, limit: nat) returns (r: Maybe<seq<Byte>>)
    ensures r == ParseHexBytes(text, limit)
  {
    if |text| % 2 != 0 {
      return Nothing;
    }
    var count := |text| / 2;
    if count > limit {
      return Nothing;
    }
    var out: seq<Byte> := [];
    ghost var whole := HexBytes(text);
    assert text[0..] == text;
    if whole.Just? {
      assert out + whole.value == whole.value;
    }
    for i := 0 to count
      invariant whole == After(out, HexBytes(text[2 * i..]))
    {
      var hi, lo := HexNibble(text[2 * i]), HexNibble(text[2 * i + 1]);
      ghost var rest := text[2 * i..];
      assert rest[2..] == text[2 * (i + 1)..];
      if hi.Nothing? || lo.Nothing? {
        return Nothing;
      }
      var b: Byte := 16 * hi.value + lo.value;
      AfterOne(out, b, HexBytes(rest[2..]));
      out := out + [b];
    }
    assert text[2 * count..] == [];
    assert out + [] == out;
    return Just(out);
  }

  function After(out: seq<Byte>, rest: Maybe<seq<Byte>>): Maybe<seq<Byte>> {
    if rest.Just? then Just(out + rest.value) else Nothing
  }

  lemma AfterOne(out: seq<Byte>, b: Byte, rest: Maybe<seq<Byte>>)
    ensures After(out, After([b], rest)) == After(out + [b], rest)
  {
    if rest.Just? {
      assert out + ([b] + rest.value) == out + [b] + rest.value;
    }
  }

  /// `to_hex`, unspaced.
  function ToHex(data: seq<Byte>): string {
    if data == [] then [] else ToHex(data[..|data| - 1]) + [HexChar(data[|data| - 1] / 16), HexChar(data[|data| - 1] % 16)]
  }

  method ToHexLoop(data: seq<Byte>) returns (out: string)
    ensures out == ToHex(data)
  {
    out := [];
    for i := 0 to |data|
      invariant out == ToHex(data[..i])
    {
      assert data[..i + 1][..i] == data[..i];
      out := out + [HexChar(data[i] / 16)];
      out := out + [HexChar(data[i] % 16)];
    }
    assert data[..|data|] == data;
  }

  // ---- Words ----

  predicate IsBlank(c: char) {
    c == ' ' || c == '\t'
  }

  predicate NoBlank(s: string) {
    forall i | 0 <= i < |s| :: !IsBlank(s[i])
  }

  /// The length of the word `s` starts with.
  function WordLength(s: string): (n: nat)
    ensures n <= |s| && NoBlank(s[..n]) && (n < |s| ==> IsBlank(s[n]))
  {
    if s == [] || IsBlank(s[0]) then 0 else 1 + WordLength(s[1..])
  }

  /// `split_whitespace`.
  function Split(s: string): seq<string>
    decreases |s|
  {
    if s == [] then []
    else if IsBlank(s[0]) then Split(s[1..])
    else [s[..WordLength(s)]] + Split(s[WordLength(s)..])
  }

  lemma {:induction false} WordLengthIs(s: string, n: nat)
    requires n <= |s| && NoBlank(s[..n]) && (n < |s| ==> IsBlank(s[n]))
    ensures WordLength(s) == n
  {
    if n > 0 {
      assert s[..n][0] == s[0];
      assert s[1..][..n - 1] == s[..n][1..];
      WordLengthIs(s[1..], n - 1);
    }
  }

  method SplitLoop(s: string) returns (parts: seq<string>)
    ensures parts == Split(s)
  {
    parts := [];
    var i := 0;
    assert s[0..] == s && parts + Split(s) == Split(s);
    while i < |s|
      invariant 0 <= i <= |s| && Split(s) == parts + Split(s[i..])
    {
      var start := SkipBlanks(s, i);
      i := SkipWord(s, start);
      if i > start {
        OneWord(s, start, i);
        ghost var before, rest := parts, Split(s[i..]);
        var word := s[start..i];
        parts := parts + [word];
        assert before + ([word] + rest) == parts + rest;
      }
    }
  }

  method SkipBlanks(s: string, from: nat) returns (i: nat)
    requires from < |s|
    ensures from <= i <= |s| && Split(s[from..]) == Split(s[i..]) && (i < |s| ==> !IsBlank(s[i]))
  {
    i := from;
    while i < |s| && IsBlank(s[i])
      invariant from <= i <= |s| && Split(s[from..]) == Split(s[i..])
    {
      assert s[i..][1..] == s[i + 1..];
      i := i + 1;
    }
  }

  method SkipWord(s: string, start: nat) returns (i: nat)
    requires start <= |s|
    ensures start <= i <= |s| && NoBlank(s[start..i]) && (i < |s| ==> IsBlank(s[i]))
    ensures start < |s| && !IsBlank(s[start]) ==> i > start
  {
    i := start;
    while i < |s| && !IsBlank(s[i])
      invariant start <= i <= |s| && NoBlank(s[start..i]) && (i == start || !IsBlank(s[start]))
    {
      assert s[start..i + 1] == s[start..i] + [s[i]];
      i := i + 1;
    }
  }

  lemma OneWord(s: string, start: nat, end: nat)
    requires start < end <= |s| && NoBlank(s[start..end]) && (end < |s| ==> IsBlank(s[end]))
    ensures Split(s[start..]) == [s[start..end]] + Split(s[end..])
  {
    var rest := s[start..];
    assert rest[..end - start] == s[start..end] && rest[end - start..] == s[end..];
    WordLengthIs(rest, end - start);
    assert !IsBlank(s[start..end][0]);
  }

  lemma SplitWord(w: string, rest: string)
    requires w != [] && NoBlank(w) && (rest != [] ==> IsBlank(rest[0]))
    ensures Split(w + rest) == [w] + Split(rest)
  {
    OneWord(w + rest, 0, |w|);
    assert (w + rest)[0..] == w + rest && (w + rest)[0..|w|] == w && (w + rest)[|w|..] == rest;
  }

  predicate IsSpace(c: char) {
    c == ' ' || c == '\t' || c == '\r'
  }

  /// `trim`.
  function Trim(s: string): string {
    TrimBack(TrimFront(s))
  }

  function TrimFront(s: string): string {
    if s != [] && IsSpace(s[0]) then TrimFront(s[1..]) else s
  }

  function TrimBack(s: string): string {
    if s != [] && IsSpace(s[|s| - 1]) then TrimBack(s[..|s| - 1]) else s
  }

  method TrimLoop(s: string) returns (r: string)
    ensures r == Trim(s)
  {
    r := s;
    while r != [] && IsSpace(r[0])
      invariant TrimFront(r) == TrimFront(s)
      decreases |r|
    {
      r := r[1..];
    }
    ghost var front := r;
    while r != [] && IsSpace(r[|r| - 1])
      invariant TrimBack(r) == TrimBack(front)
      decreases |r|
    {
      r := r[..|r| - 1];
    }
  }

  // ---- Seconds ----

  function LeadingDigits(s: string): (n: nat)
    ensures n <= |s| && (forall i | 0 <= i < n :: IsDigit(s[i])) && (n < |s| ==> !IsDigit(s[n]))
  {
    if s == [] || !IsDigit(s[0]) then 0 else 1 + LeadingDigits(s[1..])
  }

  const BILLION: nat := 1000000000

  /// The digits after the point; those beyond the nanosecond count nothing.
  function Fraction(s: string, scale: nat): nat
    requires forall i | 0 <= i < |s| :: IsDigit(s[i])
  {
    if s == [] then 0 else DigitValue(s[0]) * scale + Fraction(s[1..], scale / 10)
  }

  /// Seconds and nanoseconds together, as a 64-bit word.
  function Nanoseconds(whole: nat, fraction: nat): nat {
    (whole * BILLION + fraction) % WORD64
  }

  /// `parse_seconds_to_ns`.
  function ParseSeconds(text: string): Maybe<nat> {
    var n := LeadingDigits(text);
    if n == 0 then Nothing
    else
      var whole := DecimalValue(text[..n]);
      if n == |text| then Just(Nanoseconds(whole, 0))
      else if text[n] != '.' then Nothing
      else
        var rest := text[n + 1..];
        if LeadingDigits(rest) != |rest| then Nothing
        else Just(Nanoseconds(whole, Fraction(rest, 100000000)))
  }

  lemma {:induction false} LeadingDigitsIs(s: string, n: nat)
    requires n <= |s| && (forall i | 0 <= i < n :: IsDigit(s[i])) && (n < |s| ==> !IsDigit(s[n]))
    ensures LeadingDigits(s) == n
  {
    if n > 0 {
      LeadingDigitsIs(s[1..], n - 1);
    }
  }

  method ParseSecondsLoop(text: string) returns (r: Maybe<nat>)
    ensures r == ParseSeconds(text)
  {
    var i, whole := 0, 0;
    while i < |text| && IsDigit(text[i])
      invariant 0 <= i <= |text| && (forall k | 0 <= k < i :: IsDigit(text[k])) && whole == DecimalValue(text[..i])
    {
      assert text[..i + 1][..i] == text[..i];
      whole := (10 * whole + DigitValue(text[i])) % WORD64;
      i := i + 1;
    }
    LeadingDigitsIs(text, i);
    if i == 0 {
      return Nothing;
    }
    if i == |text| {
      return Just(Nanoseconds(whole, 0));
    }
    if text[i] != '.' {
      return Nothing;
    }
    var rest := text[i + 1..];
    var digits, fraction := FractionLoop(rest);
    if digits != |rest| {
      return Nothing;
    }
    assert rest[..digits] == rest;
    return Just(Nanoseconds(whole, fraction));
  }

  method FractionLoop(text: string) returns (i: nat, fraction: nat)
    ensures i == LeadingDigits(text) && fraction == Fraction(text[..i], 100000000)
  {
    i, fraction := 0, 0;
    var scale := 100000000;
    ghost var n := LeadingDigits(text);
    while i < |text| && IsDigit(text[i])
      invariant i <= n && scale >= 0
      invariant fraction + Fraction(text[i..n], scale) == Fraction(text[..n], 100000000)
    {
      assert i < n;
      assert text[i..n][1..] == text[i + 1..n];
      if scale != 0 {
        fraction := fraction + DigitValue(text[i]) * scale;
        scale := scale / 10;
      }
      i := i + 1;
    }
  }

  // ---- What is printed reads back ----

  lemma {:induction false} DecimalReads(v: nat)
    requires v < WORD64
    ensures forall i | 0 <= i < |Decimal(v)| :: IsDigit(Decimal(v)[i])
    ensures DecimalValue(Decimal(v)) == v
  {
    if v >= 10 {
      DecimalReads(v / 10);
      assert Decimal(v)[..|Decimal(v)| - 1] == Decimal(v / 10);
    }
  }

  lemma {:induction false} HexReads(v: nat)
    ensures HexValue(Hex(v)) == Just(v)
  {
    if v >= 16 {
      HexReads(v / 16);
      assert Hex(v)[..|Hex(v)| - 1] == Hex(v / 16);
    } else {
      assert Hex(v)[..0] == [];
    }
  }

  lemma {:induction false} LeadingZero(s: string)
    ensures HexValue(['0'] + s) == HexValue(s)
  {
    if s == [] {
      assert (['0'] + s)[..0] == [];
    } else {
      LeadingZero(s[..|s| - 1]);
      assert (['0'] + s)[..|s|] == ['0'] + s[..|s| - 1];
    }
  }

  lemma {:induction false} PaddedHexReads(s: string, width: nat)
    ensures HexValue(Padded(s, width)) == HexValue(s)
    decreases width - |s|
  {
    if |s| < width {
      LeadingZero(s);
      PaddedHexReads(['0'] + s, width);
    }
  }

  /// Hex digits print no blank, no '#' and no 'R'.
  predicate AllHex(s: string) {
    forall i | 0 <= i < |s| :: HexNibble(s[i]).Just?
  }

  lemma {:induction false} ReadableIsHex(s: string)
    requires HexValue(s).Just?
    ensures AllHex(s)
  {
    if s != [] {
      ReadableIsHex(s[..|s| - 1]);
      assert forall i | 0 <= i < |s| - 1 :: s[i] == s[..|s| - 1][i];
    }
  }

  function Pow16(w: nat): nat {
    if w == 0 then 1 else 16 * Pow16(w - 1)
  }

  lemma {:induction false} HexWidth(v: nat, w: nat)
    requires w >= 1 && v < Pow16(w)
    ensures |Hex(v)| <= w
  {
    if v >= 16 {
      HexWidth(v / 16, w - 1);
    }
  }

  lemma {:induction false} BytesRead(data: seq<Byte>, tail: string)
    requires |tail| % 2 == 0
    ensures |ToHex(data)| == 2 * |data| && HexBytes(ToHex(data) + tail) == After(data, HexBytes(tail))
  {
    if data == [] {
      assert [] + tail == tail;
      if HexBytes(tail).Just? {
        assert [] + HexBytes(tail).value == HexBytes(tail).value;
      }
    } else {
      var n := |data| - 1;
      var last: string := [HexChar(data[n] / 16), HexChar(data[n] % 16)];
      var more := last + tail;
      BytesRead(data[..n], more);
      assert ToHex(data) + tail == ToHex(data[..n]) + more;
      assert more[2..] == tail;
      assert data == data[..n] + [data[n]];
      AfterOne(data[..n], data[n], HexBytes(tail));
    }
  }

  lemma AllBytesRead(data: seq<Byte>, text: string)
    requires text == ToHex(data)
    ensures |text| == 2 * |data| && HexBytes(text) == Just(data)
  {
    var none: string := [];
    BytesRead(data, none);
    assert text + none == text;
    NothingAfter(data, none);
  }

  lemma NothingAfter(data: seq<Byte>, none: string)
    requires none == []
    ensures After(data, HexBytes(none)) == Just(data)
  {
    var empty: seq<Byte> := [];
    assert HexBytes(none) == Just(empty);
    assert data + empty == data;
  }

  /// The six digits of a microsecond count, as a fraction of a second.
  lemma SixDigits(us: nat)
    requires us < 1000000
    ensures |Padded(Decimal(us), 6)| == 6
    ensures forall i | 0 <= i < 6 :: IsDigit(Padded(Decimal(us), 6)[i])
    ensures Fraction(Padded(Decimal(us), 6), 100000000) == 1000 * us
  {
    DecimalReads(us);
    DecimalWidth(us, 6);
    PaddedDecimal(Decimal(us), 6);
    FractionOfSix(Padded(Decimal(us), 6));
  }

  function Pow10(w: nat): nat {
    if w == 0 then 1 else 10 * Pow10(w - 1)
  }

  lemma {:induction false} DecimalWidth(v: nat, w: nat)
    requires w >= 1 && v < Pow10(w)
    ensures |Decimal(v)| <= w
  {
    if v >= 10 {
      DecimalWidth(v / 10, w - 1);
    }
  }

  lemma {:induction false} LeadingDecimalZero(s: string)
    requires forall i | 0 <= i < |s| :: IsDigit(s[i])
    ensures DecimalValue(['0'] + s) == DecimalValue(s)
  {
    if s == [] {
      assert (['0'] + s)[..0] == [];
    } else {
      LeadingDecimalZero(s[..|s| - 1]);
      assert (['0'] + s)[..|s|] == ['0'] + s[..|s| - 1];
    }
  }

  lemma {:induction false} PaddedDecimal(s: string, width: nat)
    requires forall i | 0 <= i < |s| :: IsDigit(s[i])
    ensures forall i | 0 <= i < |Padded(s, width)| :: IsDigit(Padded(s, width)[i])
    ensures DecimalValue(Padded(s, width)) == DecimalValue(s)
    decreases width - |s|
  {
    if |s| < width {
      LeadingDecimalZero(s);
      PaddedDecimal(['0'] + s, width);
    }
  }

  lemma FractionOfSix(s: string)
    requires |s| == 6 && forall i | 0 <= i < 6 :: IsDigit(s[i])
    ensures Fraction(s, 100000000) == 1000 * DecimalValue(s)
  {
    SixValue(s);
    assert Fraction(s[6..], 100) == 0;
    assert s[5..][1..] == s[6..] && s[4..][1..] == s[5..] && s[3..][1..] == s[4..] && s[2..][1..] == s[3..] && s[1..][1..] == s[2..];
    assert Fraction(s[5..], 1000) == 1000 * DigitValue(s[5]);
    assert Fraction(s[4..], 10000) == 10000 * DigitValue(s[4]) + Fraction(s[5..], 1000);
    assert Fraction(s[3..], 100000) == 100000 * DigitValue(s[3]) + Fraction(s[4..], 10000);
    assert Fraction(s[2..], 1000000) == 1000000 * DigitValue(s[2]) + Fraction(s[3..], 100000);
    assert Fraction(s[1..], 10000000) == 10000000 * DigitValue(s[1]) + Fraction(s[2..], 1000000);
  }

  lemma ThreeValue(s: string, v: nat)
    requires |s| == 6 && forall i | 0 <= i < 6 :: IsDigit(s[i])
    requires v == 100 * DigitValue(s[0]) + 10 * DigitValue(s[1]) + DigitValue(s[2])
    ensures DecimalValue(s[..3]) == v
  {
    var v1 := DigitValue(s[0]);
    var v2 := 10 * v1 + DigitValue(s[1]);
    OneMoreDigit(s, 0, 0, v1);
    OneMoreDigit(s, 1, v1, v2);
    OneMoreDigit(s, 2, v2, v);
  }

  lemma SixValue(s: string)
    requires |s| == 6 && forall i | 0 <= i < 6 :: IsDigit(s[i])
    ensures DecimalValue(s) == 100000 * DigitValue(s[0]) + 10000 * DigitValue(s[1]) + 1000 * DigitValue(s[2])
                               + 100 * DigitValue(s[3]) + 10 * DigitValue(s[4]) + DigitValue(s[5])
  {
    var v3 := 100 * DigitValue(s[0]) + 10 * DigitValue(s[1]) + DigitValue(s[2]);
    var v4 := 10 * v3 + DigitValue(s[3]);
    var v5 := 10 * v4 + DigitValue(s[4]);
    var v6 := 10 * v5 + DigitValue(s[5]);
    ThreeValue(s, v3);
    OneMoreDigit(s, 3, v3, v4);
    OneMoreDigit(s, 4, v4, v5);
    OneMoreDigit(s, 5, v5, v6);
    assert s[..6] == s;
  }

  lemma OneMoreDigit(s: string, i: nat, v: nat, w: nat)
    requires i < |s| && forall k | 0 <= k < |s| :: IsDigit(s[k])
    requires i == 0 || DecimalValue(s[..i]) == v
    requires (i == 0 ==> v == 0) && w == 10 * v + DigitValue(s[i]) < WORD64
    ensures DecimalValue(s[..i + 1]) == w
  {
    assert s[..i + 1][..i] == s[..i];
  }
}
