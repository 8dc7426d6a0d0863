/// What reading a file makes of the strings in it, glyph by glyph: another encoding, other line ends.
module DbcStrings {
  import opened Text
  import opened Lexer
  import opened Glyphs
  import opened WrittenDbc
  import opened Encoding
  import opened LineEnds
  import opened Sources

  /// How a file was written, and how it is taken when it is read.
  datatype Reading = Reading(crlf: bool, latin1: bool)

  function ReadBack(s: string, crlf: bool): string {
    if crlf then Replaced(s) else Unified(s)
  }

  /// What reading makes of a name.
  function NameRead(w: string, how: Reading): string {
    if how.latin1 then Transcoded(w) else w
  }

  /// What reading makes of a text, and of what is between quotes in it.
  function TextRead(t: string, how: Reading): string {
    ReadBack(NameRead(t, how), how.crlf)
  }

  lemma ReadBackKeeps(s: string, crlf: bool)
    ensures ReadBack(s, crlf) == s <==> !HasReturn(s)
  {
    UnifiedKeeps(s);
    ReplacedKeeps(s);
  }

  lemma {:induction false} TranscodedReturns(s: string)
    ensures HasReturn(Transcoded(s)) <==> HasReturn(s)
  {
    if s != [] {
      var a, c := s[..|s| - 1], s[|s| - 1];
      TranscodedReturns(a);
      ReturnsConcat(a, [c]);
      ReturnsConcat(Transcoded(a), Coded(c));
      assert s == a + [c];
    }
  }

  lemma ReturnsConcat(a: string, b: string)
    ensures HasReturn(a + b) <==> HasReturn(a) || HasReturn(b)
  {
    if k :| 0 <= k < |a| && a[k] == '\r' {
      assert (a + b)[k] == '\r';
    }
    if k :| 0 <= k < |b| && b[k] == '\r' {
      assert (a + b)[|a| + k] == '\r';
    }
  }

  lemma NameKept(w: string, how: Reading)
    ensures NameRead(w, how) == w <==> !how.latin1 || Ascii(w)
  {
    TranscodedKeeps(w);
  }

  lemma TextKept(t: string, how: Reading)
    ensures TextRead(t, how) == t <==> !HasReturn(t) && (!how.latin1 || Ascii(t))
  {
    var n := NameRead(t, how);
    TranscodedReturns(t);
    ReadBackKeeps(n, how.crlf);
    NameKept(t, how);
    NoReturnRead(n, how.crlf);
  }

  lemma NoReturnRead(s: string, crlf: bool)
    ensures !HasReturn(ReadBack(s, crlf))
  {
  }

  lemma AsciiRead(w: string, how: Reading)
    requires Ascii(w)
    ensures NameRead(w, how) == w && ValidUtf8(w)
  {
    NameKept(w, how);
    AsciiIsValid(w);
  }

  // ---- Glyphs ----

  function GlyphRead(g: Glyph, how: Reading): Glyph {
    if g.Word? then Word(NameRead(g.word, how))
    else if g.Quotation? then Quotation(TextRead(g.contents, how))
    else g
  }

  predicate GlyphValid(g: Glyph) {
    (g.Word? ==> ValidUtf8(g.word)) && (g.Quotation? ==> ValidUtf8(g.contents))
  }

  function GlyphsRead(gs: seq<Glyph>, how: Reading): seq<Glyph> {
    seq(|gs|, k requires 0 <= k < |gs| => GlyphRead(gs[k], how))
  }

  predicate AllValid(gs: seq<Glyph>) {
    forall k | 0 <= k < |gs| :: GlyphValid(gs[k])
  }

  predicate Carry(gs: seq<Glyph>, how: Reading, hs: seq<Glyph>, valid: bool) {
    hs == GlyphsRead(gs, how) && (valid <==> AllValid(gs))
  }

  /// Reading makes `hs` of the glyphs, and their strings are all UTF-8 exactly if `valid`; quantified so that
  /// it is only looked into where `Carry` is asked for.
  ghost predicate Carries(gs: seq<Glyph>, how: Reading, hs: seq<Glyph>, valid: bool) {
    forall js: seq<Glyph> :: js == gs ==> Carry(js, how, hs, valid)
  }

  lemma CarryConcat(a: seq<Glyph>, b: seq<Glyph>, how: Reading, ha: seq<Glyph>, hb: seq<Glyph>, va: bool, vb: bool)
    requires Carries(a, how, ha, va) && Carries(b, how, hb, vb)
    ensures Carries(a + b, how, ha + hb, va && vb)
  {
    assert Carry(a, how, ha, va) && Carry(b, how, hb, vb);
    assert GlyphsRead(a + b, how) == ha + hb;
    assert AllValid(a + b) <==> AllValid(a) && AllValid(b) by {
      assert forall k | 0 <= k < |a| :: (a + b)[k] == a[k];
      assert forall k | 0 <= k < |b| :: (a + b)[|a| + k] == b[k];
    }
  }

  /// Neither a name nor a quotation.
  predicate Wordless(gs: seq<Glyph>) {
    forall k | 0 <= k < |gs| :: !gs[k].Word? && !gs[k].Quotation?
  }

  lemma CarryWordless(gs: seq<Glyph>, how: Reading)
    requires Wordless(gs)
    ensures Carries(gs, how, gs, true)
  {
    assert GlyphsRead(gs, how) == gs;
  }

  lemma CarryWord(w: string, how: Reading)
    ensures Carries([Word(w)], how, [Word(NameRead(w, how))], ValidUtf8(w))
  {
    assert GlyphsRead([Word(w)], how) == [Word(NameRead(w, how))];
    assert [Word(w)][0] == Word(w);
  }

  lemma CarryQuotation(t: string, how: Reading)
    ensures Carries([Quotation(t)], how, [Quotation(TextRead(t, how))], ValidUtf8(t))
  {
    assert GlyphsRead([Quotation(t)], how) == [Quotation(TextRead(t, how))];
    assert [Quotation(t)][0] == Quotation(t);
  }

  lemma CarryKeyword(w: string, how: Reading)
    requires Ascii(w)
    ensures Carries([Word(w)], how, [Word(w)], true)
  {
    AsciiRead(w, how);
    CarryWord(w, how);
  }

  // ---- Escapes ----

  lemma {:induction false} EscapedUnifies(t: string)
    ensures Unified(Escaped(t)) == Escaped(Unified(t))
    decreases |t|
  {
    if t != [] {
      var e := Escaped(t);
      if t[0] != '\r' {
        var b := if t[0] == '"' || t[0] == '\\' then 2 else 1;
        EscapedUnifies(t[1..]);
        assert e[b..] == Escaped(t[1..]);
        assert b == 2 ==> e[1..][0] == t[0] && e[1..][1..] == e[2..];
        assert ([t[0]] + Unified(t[1..]))[1..] == Unified(t[1..]);
      } else {
        var n := if |t| > 1 && t[1] == '\n' then 2 else 1;
        assert e == ['\r'] + Escaped(t[1..]) && e[1..] == Escaped(t[1..]);
        if |t| > 1 {
          assert t[1..][0] == t[1] && t[1..][1..] == t[2..];
          assert n == 2 ==> Escaped(t[1..]) == ['\n'] + Escaped(t[2..]) && e[2..] == Escaped(t[2..]);
          assert n == 1 ==> e[1] != '\n';
        }
        EscapedUnifies(t[n..]);
        assert (['\n'] + Unified(t[n..]))[1..] == Unified(t[n..]);
      }
    }
  }

  lemma ReplacedConcat(a: string, b: string)
    ensures Replaced(a + b) == Replaced(a) + Replaced(b)
  {
  }

  lemma {:induction false} EscapedReplaced(t: string)
    ensures Replaced(Escaped(t)) == Escaped(Replaced(t))
    decreases |t|
  {
    if t == [] {
      assert Replaced(Escaped(t)) == [];
    } else {
      var c, r := t[0], if t[0] == '\r' then '\n' else t[0];
      var e, f := if c == '"' || c == '\\' then ['\\', c] else [c], if r == '"' || r == '\\' then ['\\', r] else [r];
      EscapedReplaced(t[1..]);
      ReplacedConcat(e, Escaped(t[1..]));
      assert Replaced(e) == f;
      assert Replaced(t) == [r] + Replaced(t[1..]);
      assert Replaced(t)[1..] == Replaced(t[1..]);
    }
  }

  lemma TranscodedOne(c: char)
    ensures Transcoded([c]) == Coded(c)
  {
    assert [c][..0] == [];
    assert Transcoded([c]) == Transcoded([c][..0]) + Coded(c);
  }

  function Escape(c: char): string {
    if c == '"' || c == '\\' then ['\\'] else []
  }

  lemma EscapedFront(c: char, rest: string)
    ensures Escaped([c] + rest) == Escape(c) + [c] + Escaped(rest)
  {
    assert ([c] + rest)[1..] == rest;
  }

  lemma {:induction false} EscapedTranscoded(t: string)
    ensures Transcoded(Escaped(t)) == Escaped(Transcoded(t))
    decreases |t|
  {
    if t != [] {
      var c, rest := t[0], t[1..];
      assert t == [c] + rest;
      EscapedTranscoded(rest);
      EscapedFront(c, rest);
      EscapeTranscoded(Escape(c), c, Escaped(rest));
      TranscodedFront(c, rest);
      EscapedCoded(c, Transcoded(rest));
    }
  }

  lemma TranscodedFront(c: char, rest: string)
    ensures Transcoded([c] + rest) == Coded(c) + Transcoded(rest)
  {
    TranscodedConcat([c], rest);
    TranscodedOne(c);
  }

  lemma EscapeTranscoded(e: string, c: char, rest: string)
    requires e == [] || e == ['\\']
    ensures Transcoded(e + [c] + rest) == e + Coded(c) + Transcoded(rest)
  {
    TranscodedConcat(e + [c], rest);
    TranscodedConcat(e, [c]);
    TranscodedOne(c);
    TranscodedOne('\\');
  }

  lemma EscapedCoded(c: char, rest: string)
    ensures Escaped(Coded(c) + rest) == Escape(c) + Coded(c) + Escaped(rest)
  {
    var r := Coded(c) + rest;
    if |Coded(c)| == 1 {
      assert r[1..] == rest;
    } else {
      assert r[1..][1..] == rest && r[1..][0] == r[1];
    }
  }

  /// What reading makes of a quoted string is a quoted string.
  lemma QuotedRead(t: string, how: Reading)
    ensures TextRead(Quoted(t), how) == Quoted(TextRead(t, how))
  {
    var e := Escaped(t);
    TranscodedConcat(['"'], e + ['"']);
    TranscodedConcat(e, ['"']);
    TranscodedOne('"');
    EscapedTranscoded(t);
    assert NameRead(Quoted(t), how) == Quoted(NameRead(t, how));
    QuotedReadBack(NameRead(t, how), how.crlf);
  }

  lemma QuotedReadBack(t: string, crlf: bool)
    ensures ReadBack(Quoted(t), crlf) == Quoted(ReadBack(t, crlf))
  {
    var e := Escaped(t);
    if crlf {
      EscapedReplaced(t);
      ReplacedConcat(['"'], e + ['"']);
      ReplacedConcat(e, ['"']);
      assert Replaced(['"']) == ['"'];
    } else {
      EscapedUnifies(t);
      UnifiedKeeps(['"']);
      UnifiedConcat(e, ['"']);
      UnifiedConcat(['"'], e + ['"']);
    }
  }

  /// Escapes change nothing about the encoding.
  lemma {:induction false} EscapedAwaits(t: string, n: int)
    ensures Awaited(n, Escaped(t)) == Awaited(n, t)
    decreases |t|
  {
    if t != [] {
      var c, rest := t[0], t[1..];
      var e := if c == '"' || c == '\\' then ['\\', c] else [c];
      assert t == [c] + rest && Escaped(t) == e + Escaped(rest);
      AwaitedConcat(n, [c], rest);
      AwaitedConcat(n, e, Escaped(rest));
      AwaitsOne(n, c);
      if |e| == 2 {
        assert e == ['\\'] + [c];
        AwaitedConcat(n, ['\\'], [c]);
        AwaitsOne(n, '\\');
        AwaitsOne(Taken(n, '\\'), c);
      }
      EscapedAwaits(rest, Taken(n, c));
    }
  }

  lemma QuotedAwaits(t: string)
    ensures var n := Awaited(0, Quoted(t)); n <= 0 && (n == 0 <==> ValidUtf8(t))
  {
    var e := Escaped(t);
    AwaitedConcat(0, ['"'], e + ['"']);
    AwaitedConcat(0, e, ['"']);
    AwaitsOne(0, '"');
    AwaitsOne(Awaited(0, e), '"');
    EscapedAwaits(t, 0);
  }

  // ---- Text ----

  lemma {:induction false} DigitsOnly(l: string, i: nat, k: nat)
    requires i <= |l| && i <= k < DigitsEnd(l, i)
    ensures IsDigit(l[k])
    decreases k - i
  {
    if i < k {
      DigitsOnly(l, i + 1, k);
    }
  }

  /// A literal is spelled in ASCII, on one line.
  lemma LiteralPlain(l: string)
    requires IsLiteral(l)
    ensures Ascii(l) && !HasReturn(l)
  {
    var d := DigitsEnd(l, 0);
    var f := FractionEnd(l, d);
    forall k | 0 <= k < |l|
      ensures (l[k] as int) < 128 && l[k] != '\r'
    {
      if k < d {
        DigitsOnly(l, 0, k);
      } else if d + 1 <= k < f {
        DigitsOnly(l, d + 1, k);
      } else if f + 1 <= k {
        var e := if Signed(l, f + 1) then f + 2 else f + 1;
        if e <= k {
          DigitsOnly(l, e, k);
        }
      }
    }
  }

  lemma PlainRead(w: string, how: Reading)
    requires Ascii(w) && !HasReturn(w)
    ensures TextRead(w, how) == w && Awaited(0, w) == 0
  {
    TextKept(w, how);
    AsciiIsValid(w);
  }

  lemma ShapeRead(g: Glyph, how: Reading)
    requires Formed(g)
    ensures TextRead(Shape(g), how) == Shape(GlyphRead(g, how))
    ensures GlyphValid(g) <==> Awaited(0, Shape(g)) == 0
    ensures Shape(g) == [] || Shape(g)[|Shape(g)| - 1] != '\r'
  {
    match g
    case Quotation(t) =>
      QuotedRead(t, how);
      QuotedAwaits(t);
    case Word(w) =>
      TranscodedReturns(w);
      ReadBackKeeps(NameRead(w, how), how.crlf);
    case Count(n) =>
      DecimalIsLiteral(n);
      LiteralPlain(Decimal(n));
      PlainRead(Decimal(n), how);
    case Literal(l) =>
      LiteralPlain(l);
      PlainRead(l, how);
    case Mark(c) => PlainRead([c], how);
    case Blank(c) => PlainRead([c], how);
  }

  lemma TranscodedEnd(a: string)
    requires a != [] && a[|a| - 1] != '\r'
    ensures Transcoded(a) != [] && Transcoded(a)[|Transcoded(a)| - 1] != '\r'
  {
  }

  lemma TextReadConcat(a: string, b: string, how: Reading)
    requires a == [] || a[|a| - 1] != '\r'
    ensures TextRead(a + b, how) == TextRead(a, how) + TextRead(b, how)
  {
    if a != [] {
      TranscodedEnd(a);
    }
    TranscodedConcat(a, b);
    ReadBackConcat(NameRead(a, how), NameRead(b, how), how.crlf);
  }

  lemma ReadBackConcat(a: string, b: string, crlf: bool)
    requires a == [] || a[|a| - 1] != '\r'
    ensures ReadBack(a + b, crlf) == ReadBack(a, crlf) + ReadBack(b, crlf)
  {
    if crlf {
      ReplacedConcat(a, b);
    } else {
      UnifiedConcat(a, b);
    }
  }

  /// Reading a text put together from glyphs gives the text of the glyphs as they are read.
  lemma {:induction false} RenderRead(gs: seq<Glyph>, how: Reading)
    requires Neat(gs)
    ensures TextRead(Render(gs), how) == Render(GlyphsRead(gs, how))
    decreases |gs|
  {
    if gs == [] {
      TextKept([], how);
    } else {
      var g, rest := gs[0], gs[1..];
      NeatTail(gs);
      RenderRead(rest, how);
      ShapeRead(g, how);
      TextReadConcat(Shape(g), Render(rest), how);
      assert GlyphsRead(gs, how)[1..] == GlyphsRead(rest, how);
    }
  }

  lemma NeatTail(gs: seq<Glyph>)
    requires Neat(gs) && gs != []
    ensures Formed(gs[0]) && Neat(gs[1..]) && (Solid(gs[0]) && |gs| > 1 ==> !Solid(gs[1]) && Formed(gs[1]))
  {
    assert NeatAt(gs, 0) && NeatAt(gs, 1);
    forall k
      ensures NeatAt(gs[1..], k)
    {
      assert NeatAt(gs, k + 1);
    }
  }

  lemma {:induction false} BrokenForGood(n: int, s: string)
    requires n < 0
    ensures Awaited(n, s) < 0
  {
    if s != [] {
      BrokenForGood(n, s[..|s| - 1]);
    }
  }

  lemma AllValidTail(gs: seq<Glyph>, g: Glyph, rest: seq<Glyph>)
    requires gs == [g] + rest
    ensures AllValid(gs) <==> GlyphValid(g) && AllValid(rest)
  {
    assert gs[0] == g;
    if AllValid(gs) {
      forall k | 0 <= k < |rest|
        ensures GlyphValid(rest[k])
      {
        assert gs[k + 1] == rest[k];
      }
    }
    if GlyphValid(g) && AllValid(rest) {
      forall k | 0 <= k < |gs|
        ensures GlyphValid(gs[k])
      {
        assert k > 0 ==> gs[k] == rest[k - 1];
      }
    }
  }

  lemma FirstValid(g: Glyph, rest: seq<Glyph>)
    requires Formed(g) && (Solid(g) && rest != [] ==> !Solid(rest[0]) && Formed(rest[0]))
    ensures ValidUtf8(Shape(g) + Render(rest)) <==> GlyphValid(g) && ValidUtf8(Render(rest))
  {
    ShapeRead(g, Reading(false, false));
    AwaitedConcat(0, Shape(g), Render(rest));
    if !GlyphValid(g) {
      Unfinished(Awaited(0, Shape(g)), rest);
    }
  }

  /// A text put together from glyphs is UTF-8 exactly if all of its names and quotations are.
  lemma {:induction false} RenderValid(gs: seq<Glyph>)
    requires Neat(gs)
    ensures ValidUtf8(Render(gs)) <==> AllValid(gs)
    decreases |gs|
  {
    if gs != [] {
      var g, rest := gs[0], gs[1..];
      assert gs == [g] + rest;
      NeatTail(gs);
      RenderValid(rest);
      FirstValid(g, rest);
      AllValidTail(gs, g, rest);
    }
  }

  /// What is broken off in front of a mark or a blank is not made whole by what follows.
  lemma Unfinished(n: int, rest: seq<Glyph>)
    requires n != 0 && (rest != [] ==> !Solid(rest[0]) && Formed(rest[0]))
    ensures Awaited(n, Render(rest)) != 0
  {
    if rest != [] {
      var c := Shape(rest[0]);
      AwaitedConcat(n, c, Render(rest[1..]));
      AwaitsOne(n, c[0]);
      assert c == [c[0]];
      BrokenForGood(Awaited(n, c), Render(rest[1..]));
    }
  }
}
