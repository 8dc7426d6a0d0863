/// What the DBC parser makes of values out of range, and where it goes on after an error.
module DbcRules {
  import opened Lexer
  import opened Frame
  import opened DbcWriter
  import opened DbcParser
  import Multiplexing
  import Signal

  // ---- Identifiers ----

  /// Bit 31 marks an extended identifier. One that is too large for a standard one is taken for extended, with a warning
  /// if the mark is missing; one that is too large for either is an error.
  lemma IdentifierExactly(raw: nat, c: Cursor)
    ensures var (p, (id, d)) := (raw % 0x1_0000_0000, MessageId(raw, c));
            if p >= 0x8000_0000 then
              if p - 0x8000_0000 < 0x2000_0000 then id == Extended(p - 0x8000_0000) && d == c
              else id == Standard(0) && d == c.(errors := true)
            else if p < 0x800 then id == Standard(p) && d == c
            else if p < 0x2000_0000 then id == Extended(p) && d == c.(warnings := true)
            else id == Standard(0) && d == c.(errors := true)
  {
  }

  // ---- Signals ----

  /// The token at `p`, and not the last.
  predicate At(ts: seq<Token>, p: nat, k: Kind) {
    p + 1 < |ts| && ts[p].kind == k && !k.End?
  }

  /// A start bit above 511 becomes 0, a length of none one bit and one above 64 that, each with an error.
  lemma PlaceCorrected(ts: seq<Token>, c: Cursor, start: nat, length: nat)
    requires Ended(ts) && At(ts, c.at, Integer) && At(ts, c.at + 1, Pipe) && At(ts, c.at + 2, Integer)
    requires start == Unsigned(ts[c.at].text) && length == Unsigned(ts[c.at + 2].text)
    ensures ParsePlace(ts, c)
         == Next((if start > 511 then 0 else start, if length == 0 then 1 else if length > 64 then 64 else length),
                 c.(at := c.at + 3, errors := c.errors || start > 511 || length == 0 || length > 64))
  {
  }

  /// The byte order is 0 for Motorola and 1 for Intel; anything more is an error and taken for Intel.
  lemma OrderCorrected(ts: seq<Token>, c: Cursor, order: nat)
    requires Ended(ts) && At(ts, c.at, Kind.At) && At(ts, c.at + 1, Integer) && (At(ts, c.at + 2, Plus) || At(ts, c.at + 2, Minus))
    requires order == Unsigned(ts[c.at + 1].text)
    ensures ParseOrder(ts, c)
         == Next((if order == 0 then Signal.Motorola else Signal.Intel, ts[c.at + 2].kind == Minus),
                 c.(at := c.at + 3, errors := c.errors || order > 1))
  {
  }

  /// A factor is zero if no digit of it but zeros comes before the exponent; it becomes 1, with a warning. A signal that
  /// does not fit its message is an error, and stays.
  lemma SignalChecked(s: DbcSignal, dlc: nat, c: Cursor)
    ensures var (r, d) := Checked(s, dlc, c);
            var zero := forall k | 0 <= k < FractionEnd(s.factor.literal, DigitsEnd(s.factor.literal, 0)) :: s.factor.literal[k] in "0.";
            && r == (if zero then s.(factor := Number(false, "1")) else s)
            && d == c.(warnings := c.warnings || zero, errors := c.errors || !s.layout.Fits(dlc))
  {
    var l := s.factor.literal;
    forall k | 0 <= k < FractionEnd(l, DigitsEnd(l, 0))
      ensures l[k] in "0." <==> l[k] == '0' || l[k] == '.'
    {
    }
  }

  /// An indicator: M alone, or m with digits and perhaps an M behind them.
  lemma IndicatorExactly(text: string)
    ensures text == "M" <==> Indicator(text).Indication? && Indicator(text).role == Multiplexing.Multiplexor
    ensures Indicator(text).Indication? && text != "M" ==>
              && text[0] == 'm' && (DigitsEnd(text, 1) == |text| || text[DigitsEnd(text, 1)] == 'M') && DigitsEnd(text, 1) > 1
              && Indicator(text).value == Unsigned(text[1..DigitsEnd(text, 1)]) % 0x1_0000_0000
              && (Indicator(text).role == Multiplexing.Both <==> DigitsEnd(text, 1) < |text|)
  {
  }

  // ---- Extended multiplexing ----

  /// A range is two numbers with a dash between them, the lower one first: others are swapped, with a warning.
  lemma RangeCorrected(ts: seq<Token>, c: Cursor, a: nat, b: nat)
    requires Ended(ts) && At(ts, c.at, Integer) && At(ts, c.at + 1, Minus) && At(ts, c.at + 2, Integer)
    requires a == Unsigned(ts[c.at].text) % 0x1_0000_0000 && b == Unsigned(ts[c.at + 2].text) % 0x1_0000_0000
    ensures ParseRange(ts, c).0 == [if b < a then Multiplexing.MuxRange(b, a) else Multiplexing.MuxRange(a, b)]
    ensures ParseRange(ts, c).1 == c.(at := c.at + 3, warnings := c.warnings || b < a)
  {
  }

  /// A single number is a range of its own.
  lemma SingleRange(ts: seq<Token>, c: Cursor, a: nat)
    requires Ended(ts) && At(ts, c.at, Integer) && !Current(ts, c.(at := c.at + 1)).kind.Minus? && a == Unsigned(ts[c.at].text) % 0x1_0000_0000
    ensures ParseRange(ts, c).0 == [Multiplexing.MuxRange(a, a)] && ParseRange(ts, c).1 == c.(at := c.at + 1)
  {
  }

  /// A signal that is given ranges is switched: a multiplexor keeps being one as well.
  lemma SwitchedRole(s: DbcSignal, switchName: string, ranges: seq<Multiplexing.MuxRange>)
    ensures var t := Switched(s, switchName, ranges);
            && t == s.(role := t.role, switchName := switchName, ranges := ranges)
            && (t.role == Multiplexing.Both <==> s.role == Multiplexing.Multiplexor || s.role == Multiplexing.Both)
            && (t.role == Multiplexing.Multiplexed <==> s.role == Multiplexing.Plain || s.role == Multiplexing.Multiplexed)
  {
  }

  // ---- Recovery ----

  /// A line may begin a section here.
  predicate Section(t: Token) {
    t.first && t.kind.Identifier? && t.text in TOP_LEVEL
  }

  /// After an error parsing goes on behind the next semicolon, or at the next section or the end if that comes first.
  lemma {:induction false} RecoversAt(ts: seq<Token>, c: Cursor)
    requires Ended(ts) && c.at < |ts| && forall k | 0 <= k < |ts| - 1 :: !ts[k].kind.End?
    ensures var d := Resync(ts, c);
            && d == c.(at := d.at) && c.at <= d.at < |ts|
            && (ts[d.at].kind.End? || Section(ts[d.at]) || (d.at > c.at && ts[d.at - 1].kind.Semicolon?))
            && (forall k | c.at <= k < d.at :: !Section(ts[k]) && (ts[k].kind.Semicolon? ==> k == d.at - 1))
    decreases |ts| - c.at
  {
    var t := ts[c.at];
    if !t.kind.End? && !t.kind.Semicolon? && !Section(t) {
      RecoversAt(ts, Bump(ts, c));
    }
  }
}
