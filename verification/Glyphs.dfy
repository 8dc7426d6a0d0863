/// Text made of words, numbers, quoted strings and marks: what the scanner makes of it.
module Glyphs {
  import opened Text
  import opened Lexer

  /// A piece of text as a writer puts it down.
  datatype Glyph =
    | Word(word: string)
    | Count(number: nat)
    | Literal(literal: string)
    | Quotation(contents: string)
    | Mark(mark: char)
    | Blank(blank: char)

  /// `quoted`, between the quotes.
  function Escaped(s: string): string {
    if s == [] then []
    else (if s[0] == '"' || s[0] == '\\' then ['\\', s[0]] else [s[0]]) + Escaped(s[1..])
  }

  function Quoted(s: string): string {
    ['"'] + (Escaped(s) + ['"'])
  }

  function Shape(g: Glyph): string {
    match g
    case Word(w) => w
    case Count(n) => Decimal(n)
    case Literal(l) => l
    case Quotation(s) => Quoted(s)
    case Mark(c) => [c]
    case Blank(c) => [c]
  }

  function Render(gs: seq<Glyph>): string {
    if gs == [] then [] else Shape(gs[0]) + Render(gs[1..])
  }

  lemma {:induction false} RenderConcat(a: seq<Glyph>, b: seq<Glyph>)
    ensures Render(a + b) == Render(a) + Render(b)
  {
    if a == [] {
      assert a + b == b;
    } else {
      assert (a + b)[1..] == a[1..] + b;
      RenderConcat(a[1..], b);
    }
  }

  // ---- What may stand next to what ----

  predicate AllNameChars(w: string) {
    forall k | 0 <= k < |w| :: IsNameChar(w[k])
  }

  predicate IsName(w: string) {
    w != [] && IsNameStart(w[0]) && AllNameChars(w)
  }

  /// Spelled as a number the scanner reads whole.
  predicate IsLiteral(l: string) {
    l != [] && IsDigit(l[0]) && LexNumber(l, 0).end == |l| && !LexNumber(l, 0).kind.Identifier?
  }

  /// A number ends before it.
  predicate Stops(c: char) {
    !IsNameChar(c) && c != '.'
  }

  /// A mark that begins neither a number nor a comment.
  predicate IsMark(c: char) {
    !Punctuation(c).Unknown? && c != '.' && c != '/'
  }

  /// The glyph is well formed and ends before `next`.
  predicate Ends(g: Glyph, next: char) {
    match g
    case Word(w) => IsName(w) && !IsNameChar(next)
    case Count(n) => n <= LARGEST && Stops(next)
    case Literal(l) => IsLiteral(l) && Stops(next)
    case Quotation(_) => next != '"'
    case Mark(c) => IsMark(c)
    case Blank(c) => IsSpacing(c)
  }

  /// Each glyph of `gs` ends where the next begins, and the last before `next`.
  predicate Separated(gs: seq<Glyph>, next: char)
    decreases |gs|
  {
    gs == [] || (Ends(gs[0], FirstChar(gs[1..], next)) && Separated(gs[1..], next))
  }

  function FirstChar(gs: seq<Glyph>, next: char): char {
    if Render(gs) == [] then next else Render(gs)[0]
  }

  // ---- One glyph ----

  /// `w` stands in `s` at position `i`.
  predicate Stands(s: string, i: nat, w: string) {
    i + |w| <= |s| && forall k | 0 <= k < |w| :: s[i + k] == w[k]
  }

  lemma StandsSplit(s: string, i: nat, a: string, b: string, j: nat)
    requires Stands(s, i, a + b) && j == i + |a|
    ensures Stands(s, i, a) && Stands(s, j, b)
  {
    forall k | 0 <= k < |b|
      ensures s[j + k] == b[k]
    {
      assert s[i + (|a| + k)] == (a + b)[|a| + k];
    }
    forall k | 0 <= k < |a|
      ensures s[i + k] == a[k]
    {
      assert s[i + k] == (a + b)[k];
    }
  }

  lemma {:induction false} NameAt(s: string, i: nat, w: string, k: nat)
    requires Stands(s, i, w) && AllNameChars(w) && k <= |w| && !IsNameChar(Peek(s, i + |w|))
    ensures NameEnd(s, i + k) == i + |w|
    decreases |w| - k
  {
    if k < |w| {
      assert s[i + k] == w[k];
      NameAt(s, i, w, k + 1);
    }
  }

  /// The digits of a number end in the text where they end in the number.
  lemma {:induction false} DigitsAt(s: string, i: nat, l: string, k: nat)
    requires Stands(s, i, l) && k <= |l| && !IsDigit(Peek(s, i + |l|))
    ensures DigitsEnd(s, i + k) == i + DigitsEnd(l, k)
    decreases |l| - k
  {
    if k < |l| {
      assert s[i + k] == l[k];
      DigitsAt(s, i, l, k + 1);
    }
  }

  lemma PeekAt(s: string, i: nat, l: string, k: nat)
    requires Stands(s, i, l) && k <= |l|
    ensures Peek(s, i + k) == if k < |l| then l[k] else Peek(s, i + |l|)
  {
    if k < |l| {
      assert s[i + k] == l[k];
    }
  }

  lemma FractionAt(s: string, i: nat, l: string, k: nat)
    requires Stands(s, i, l) && k <= |l| && Stops(Peek(s, i + |l|))
    ensures FractionEnd(s, i + k) == i + FractionEnd(l, k)
  {
    PeekAt(s, i, l, k);
    if k < |l| {
      PeekAt(s, i, l, k + 1);
      DigitsAt(s, i, l, k + 1);
    }
  }

  lemma ExponentAt(s: string, i: nat, l: string, k: nat)
    requires Stands(s, i, l) && k <= |l| && Stops(Peek(s, i + |l|)) && ExponentEnd(l, k) == |l|
    ensures ExponentEnd(s, i + k) == i + |l|
  {
    PeekAt(s, i, l, k);
    if k < |l| {
      PeekAt(s, i, l, k + 1);
      if k + 1 < |l| {
        PeekAt(s, i, l, k + 2);
        DigitsAt(s, i, l, k + 1);
        if k + 2 <= |l| {
          DigitsAt(s, i, l, k + 2);
        }
      }
    }
  }

  lemma LiteralAt(s: string, i: nat, l: string)
    requires Stands(s, i, l) && IsLiteral(l) && Stops(Peek(s, i + |l|))
    ensures i < |s| && IsDigit(s[i]) && LexNumber(s, i) == Lexeme(LexNumber(l, 0).kind, i + |l|, "", true)
  {
    var d := DigitsEnd(l, 0);
    var f := FractionEnd(l, d);
    assert s[i + 0] == l[0];
    DigitsAt(s, i, l, 0);
    FractionAt(s, i, l, d);
    ExponentAt(s, i, l, f);
  }

  lemma {:induction false} DigitsAll(l: string, k: nat)
    requires k <= |l| && forall i | 0 <= i < |l| :: IsDigit(l[i])
    ensures DigitsEnd(l, k) == |l|
    decreases |l| - k
  {
    if k < |l| {
      DigitsAll(l, k + 1);
    }
  }

  lemma DecimalIsLiteral(n: nat)
    requires n <= LARGEST
    ensures IsLiteral(Decimal(n)) && LexNumber(Decimal(n), 0).kind.Integer?
  {
    DecimalReads(n);
    DigitsAll(Decimal(n), 0);
  }

  lemma {:induction false} UnsignedReads(n: nat)
    requires n <= LARGEST
    ensures Unsigned(Decimal(n)) == n
  {
    if n >= 10 {
      UnsignedReads(n / 10);
      assert Decimal(n)[..|Decimal(n)| - 1] == Decimal(n / 10);
    } else {
      assert Decimal(n)[..0] == [];
    }
  }

  // ---- Quotes ----

  lemma EscapedStep(s: string, i: nat, t: string, b: nat)
    requires t != [] && Stands(s, i, Escaped(t) + ['"']) && b == (if t[0] == '"' || t[0] == '\\' then 2 else 1)
    ensures i + b <= |s| && Stands(s, i + b, Escaped(t[1..]) + ['"']) && |Escaped(t)| == b + |Escaped(t[1..])|
    ensures s[i + b - 1] == t[0] && (b == 2 ==> s[i] == '\\')
  {
    var piece := if b == 2 then ['\\', t[0]] else [t[0]];
    assert Escaped(t) + ['"'] == piece + (Escaped(t[1..]) + ['"']);
    StandsSplit(s, i, piece, Escaped(t[1..]) + ['"'], i + b);
    assert s[i + (b - 1)] == piece[b - 1] && s[i + 0] == piece[0];
  }

  /// A string between quotes, with no quote behind it, is read back.
  lemma {:induction false} QuoteReads(s: string, i: nat, t: string)
    requires Stands(s, i, Escaped(t) + ['"']) && Peek(s, i + |Escaped(t)| + 1) != '"'
    ensures QuoteBody(s, i) == Quote(t, i + |Escaped(t)| + 1, true)
    decreases |t|
  {
    if t == [] {
      assert (Escaped(t) + ['"'])[0] == '"' == s[i + 0];
    } else {
      var b := if t[0] == '"' || t[0] == '\\' then 2 else 1;
      EscapedStep(s, i, t, b);
      QuoteReads(s, i + b, t[1..]);
      assert [t[0]] + t[1..] == t;
    }
  }

  /// With a quote behind it, it is not.
  lemma {:induction false} QuoteGoesOn(s: string, i: nat, t: string)
    requires Stands(s, i, Escaped(t) + ['"']) && Peek(s, i + |Escaped(t)| + 1) == '"'
    ensures |QuoteBody(s, i).value| > |t|
    decreases |t|
  {
    if t == [] {
      assert (Escaped(t) + ['"'])[0] == '"' == s[i + 0];
    } else {
      var b := if t[0] == '"' || t[0] == '\\' then 2 else 1;
      EscapedStep(s, i, t, b);
      QuoteGoesOn(s, i + b, t[1..]);
    }
  }

  lemma QuotedStands(t: string, rest: string, s: string)
    requires s == Quoted(t) + rest
    ensures s[0] == '"' && Stands(s, 1, Escaped(t) + ['"']) && Peek(s, |Escaped(t)| + 2) == Peek(rest, 0)
  {
    var e := Escaped(t) + ['"'];
    assert Quoted(t) == ['"'] + e;
    forall k | 0 <= k < |e|
      ensures s[1 + k] == e[k]
    {
    }
  }

  /// The scanner undoes `quoted`, whatever follows, exactly when that is not a quote.
  lemma QuotedReads(t: string, rest: string)
    ensures QuoteBody(Quoted(t) + rest, 1) == Quote(t, |Quoted(t)|, true) <==> Peek(rest, 0) != '"'
  {
    var s := Quoted(t) + rest;
    QuotedStands(t, rest, s);
    if Peek(rest, 0) != '"' {
      QuoteReads(s, 1, t);
    } else {
      QuoteGoesOn(s, 1, t);
    }
  }

  // ---- Tokens ----

  /// The token is what the glyph stands for.
  predicate Matches(t: Token, g: Glyph) {
    match g
    case Word(w) => t.kind.Identifier? && t.text == w
    case Count(n) => t.kind.Integer? && t.text == Decimal(n)
    case Literal(l) => t.kind == LexNumber(l, 0).kind && t.text == l
    case Quotation(s) => t.kind.Str? && t.value == s
    case Mark(c) => t.kind == Punctuation(c)
    case Blank(_) => false
  }

  /// From position `p` the tokens are those of the glyphs.
  predicate Shows(ts: seq<Token>, p: nat, gs: seq<Glyph>)
    decreases |gs|
  {
    if gs == [] then p <= |ts|
    else if gs[0].Blank? then Shows(ts, p, gs[1..])
    else p < |ts| && Matches(ts[p], gs[0]) && Shows(ts, p + 1, gs[1..])
  }

  function Tokens(gs: seq<Glyph>): nat {
    if gs == [] then 0 else (if gs[0].Blank? then 0 else 1) + Tokens(gs[1..])
  }

  predicate Breaks(g: Glyph) {
    exists k | 0 <= k < |Shape(g)| :: Shape(g)[k] == '\n'
  }

  /// Whether the next token is the first on its line, when `lead` says so of the glyph.
  predicate NextLeads(g: Glyph, lead: bool) {
    (g.Blank? && lead) || Breaks(g)
  }

  predicate LeadsAfter(gs: seq<Glyph>, lead: bool)
    decreases |gs|
  {
    if gs == [] then lead else LeadsAfter(gs[1..], NextLeads(gs[0], lead))
  }

  /// From position `p` the tokens know whether they are the first on their lines.
  predicate Leads(ts: seq<Token>, p: nat, gs: seq<Glyph>, lead: bool)
    decreases |gs|
  {
    if gs == [] then true
    else if gs[0].Blank? then Leads(ts, p, gs[1..], NextLeads(gs[0], lead))
    else p < |ts| && ts[p].first == lead && Leads(ts, p + 1, gs[1..], NextLeads(gs[0], lead))
  }

  lemma {:induction false} LeadsConcat(ts: seq<Token>, p: nat, a: seq<Glyph>, b: seq<Glyph>, lead: bool)
    ensures Leads(ts, p, a + b, lead) <==> Leads(ts, p, a, lead) && Leads(ts, p + Tokens(a), b, LeadsAfter(a, lead))
    ensures LeadsAfter(a + b, lead) == LeadsAfter(b, LeadsAfter(a, lead))
    decreases |a|
  {
    if a == [] {
      assert a + b == b;
    } else {
      assert (a + b)[1..] == a[1..] + b;
      LeadsConcat(ts, if a[0].Blank? then p else p + 1, a[1..], b, NextLeads(a[0], lead));
    }
  }

  lemma {:induction false} ShowsConcat(ts: seq<Token>, p: nat, a: seq<Glyph>, b: seq<Glyph>)
    ensures Shows(ts, p, a + b) <==> Shows(ts, p, a) && Shows(ts, p + Tokens(a), b)
    ensures Tokens(a + b) == Tokens(a) + Tokens(b)
    decreases |a|
  {
    if a == [] {
      assert a + b == b;
      ShowsFits(ts, p, b);
    } else {
      assert (a + b)[1..] == a[1..] + b;
      ShowsConcat(ts, if a[0].Blank? then p else p + 1, a[1..], b);
    }
  }

  lemma {:induction false} ShowsFits(ts: seq<Token>, p: nat, gs: seq<Glyph>)
    ensures Shows(ts, p, gs) ==> p + Tokens(gs) <= |ts|
    decreases |gs|
  {
    if gs != [] {
      ShowsFits(ts, if gs[0].Blank? then p else p + 1, gs[1..]);
    }
  }

  /// The scanner on one glyph that is no blank.
  lemma GlyphLexes(s: string, i: nat, g: Glyph, j: nat)
    requires !g.Blank? && Stands(s, i, Shape(g)) && Ends(g, Peek(s, j)) && j == i + |Shape(g)|
    ensures i < |s| && TriviaEnd(s, i) == i && LexOne(s, i).end == j && LexOne(s, i).ok
    ensures Matches(Token(LexOne(s, i).kind, s[i..j], LexOne(s, i).value, true), g)
  {
    var w := Shape(g);
    assert s[i..j] == w;
    match g
    case Word(_) =>
      assert s[i + 0] == w[0];
      NameAt(s, i, w, 0);
    case Count(n) =>
      DecimalIsLiteral(n);
      LiteralAt(s, i, w);
    case Literal(_) =>
      LiteralAt(s, i, w);
    case Quotation(t) => QuotationLexes(s, i, t, j);
    case Mark(c) =>
      assert s[i + 0] == w[0];
  }

  lemma QuotationLexes(s: string, i: nat, t: string, j: nat)
    requires Stands(s, i, Quoted(t)) && Peek(s, j) != '"' && j == i + |Quoted(t)|
    ensures i < |s| && s[i] == '"' && LexOne(s, i) == Lexeme(Str, j, t, true)
  {
    var e := Escaped(t) + ['"'];
    assert Quoted(t) == ['"'] + e;
    assert s[i + 0] == Quoted(t)[0];
    forall k | 0 <= k < |e|
      ensures s[i + 1 + k] == e[k]
    {
      assert s[i + (1 + k)] == Quoted(t)[1 + k];
    }
    QuoteReads(s, i + 1, t);
  }

  // ---- A whole text ----

  lemma {:induction false} NewlineFront(s: string, i: nat, b: nat)
    requires i < b <= |s|
    ensures HasNewline(s, i, b) <==> s[i] == '\n' || HasNewline(s, i + 1, b)
    decreases b
  {
    if i + 1 < b {
      NewlineFront(s, i, b - 1);
    }
  }

  /// Spacing only decides whether the next token is the first on its line.
  lemma BlankLexes(s: string, i: nat, f: bool)
    requires i < |s| && IsSpacing(s[i])
    ensures Lex(s, i, f) == Lex(s, i + 1, f || s[i] == '\n')
  {
    NewlineFront(s, i, TriviaEnd(s, i));
  }

  lemma CharStands(s: string, i: nat, c: char)
    requires Stands(s, i, [c])
    ensures i < |s| && s[i] == c
  {
    assert s[i + 0] == [c][0];
  }

  lemma StandsTail(s: string, i: nat, gs: seq<Glyph>, j: nat)
    requires gs != [] && Stands(s, i, Render(gs)) && j == i + |Shape(gs[0])|
    ensures Stands(s, i, Shape(gs[0])) && Stands(s, j, Render(gs[1..])) && j + |Render(gs[1..])| == i + |Render(gs)|
  {
    StandsSplit(s, i, Shape(gs[0]), Render(gs[1..]), j);
  }

  lemma NextChar(s: string, j: nat, gs: seq<Glyph>)
    requires Stands(s, j, Render(gs)) && j + |Render(gs)| == |s|
    ensures Peek(s, j) == FirstChar(gs, '\0')
  {
    if Render(gs) != [] {
      assert s[j + 0] == Render(gs)[0];
    }
  }

  lemma {:induction false} NewlineAt(s: string, i: nat, j: nat)
    requires i <= j <= |s|
    ensures HasNewline(s, i, j) <==> exists k :: i <= k < j && s[k] == '\n'
    decreases j
  {
    if i < j {
      NewlineAt(s, i, j - 1);
    }
  }

  lemma BreaksAt(s: string, i: nat, g: Glyph, j: nat)
    requires Stands(s, i, Shape(g)) && j == i + |Shape(g)|
    ensures HasNewline(s, i, j) <==> Breaks(g)
  {
    NewlineAt(s, i, j);
    var w := Shape(g);
    if k :| i <= k < j && s[k] == '\n' {
      assert s[i + (k - i)] == w[k - i];
    }
    if k :| 0 <= k < |w| && w[k] == '\n' {
      assert s[i + k] == w[k];
    }
  }

  lemma TokenLexes(s: string, i: nat, g: Glyph, f: bool, j: nat, ts: seq<Token>, p: nat)
    requires !g.Blank? && Stands(s, i, Shape(g)) && Ends(g, Peek(s, j)) && j == i + |Shape(g)|
    requires p <= |ts| && ts[p..] == Lex(s, i, f).tokens
    ensures p < |ts| && Matches(ts[p], g) && ts[p].first == f && j <= |s|
    ensures ts[p + 1..] == Lex(s, j, HasNewline(s, i, j)).tokens && Lex(s, i, f).ok == Lex(s, j, HasNewline(s, i, j)).ok
  {
    GlyphLexes(s, i, g, j);
    var x, more := LexOne(s, i), Lex(s, j, HasNewline(s, i, j));
    var t := Token(x.kind, s[i..j], x.value, f);
    assert Lex(s, i, f).tokens == [t] + more.tokens;
    assert ts[p] == ts[p..][0] == t && ts[p + 1..] == ts[p..][1..];
  }

  /// One glyph on: from position `i` and token `p` to position `j` and token `q`.
  lemma GlyphStep(s: string, i: nat, g: Glyph, f: bool, ts: seq<Token>, p: nat, j: nat) returns (h: bool, q: nat)
    requires Stands(s, i, Shape(g)) && Ends(g, Peek(s, j)) && j == i + |Shape(g)| && p <= |ts| && ts[p..] == Lex(s, i, f).tokens
    ensures q == (if g.Blank? then p else p + 1) && q <= |ts| && (!g.Blank? ==> Matches(ts[p], g) && ts[p].first == f) && j <= |s|
    ensures h == NextLeads(g, f)
    ensures ts[q..] == Lex(s, j, h).tokens && Lex(s, i, f).ok == Lex(s, j, h).ok
  {
    if g.Blank? {
      CharStands(s, i, g.blank);
      BlankLexes(s, i, f);
      h, q := f || s[i] == '\n', p;
      assert Shape(g)[0] == s[i];
    } else {
      TokenLexes(s, i, g, f, j, ts, p);
      h, q := HasNewline(s, i, j), p + 1;
      BreaksAt(s, i, g, j);
    }
  }

  /// The tokens of a text put together from glyphs that keep apart are those of the glyphs, and the end.
  lemma {:induction false} LexRender(s: string, i: nat, gs: seq<Glyph>, f: bool, ts: seq<Token>, p: nat)
    requires Stands(s, i, Render(gs)) && i + |Render(gs)| == |s| && Separated(gs, '\0')
    requires p <= |ts| && ts[p..] == Lex(s, i, f).tokens
    ensures Shows(ts, p, gs) && Leads(ts, p, gs, f)
    ensures |ts| == p + Tokens(gs) + 1 && ts[|ts| - 1].kind.End? && Lex(s, i, f).ok
    decreases |gs|
  {
    if gs == [] {
      assert ts[p] == ts[p..][0];
    } else {
      var rest, j := gs[1..], i + |Shape(gs[0])|;
      StandsTail(s, i, gs, j);
      NextChar(s, j, rest);
      var h, q := GlyphStep(s, i, gs[0], f, ts, p, j);
      LexRender(s, j, rest, h, ts, q);
    }
  }
}
