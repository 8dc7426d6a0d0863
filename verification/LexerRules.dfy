/// What the scanner passes over, what its tokens are made of, and that nothing of a text is lost between them.
module LexerRules {
  import opened Text
  import opened Lexer

  // ---- Characters ----

  /// Names begin with a letter, an underscore or a byte above 127, and go on with those and digits.
  lemma NameCharacters(c: char)
    ensures IsNameStart(c) <==> 65 <= c as int <= 90 || 97 <= c as int <= 122 || c as int == 95 || c as int >= 128
    ensures IsNameChar(c) <==> IsNameStart(c) || 48 <= c as int <= 57
  {
  }

  /// Blanks, tabs, newlines, vertical tabs and form feeds are passed over; carriage returns are not.
  lemma SpacingCharacters(c: char)
    ensures IsSpacing(c) <==> c as int in {32, 9, 10, 11, 12}
  {
  }

  // ---- Spacing and comments ----

  /// A comment, without the newline that ends it: a # or two slashes, and the rest of the line.
  predicate IsComment(x: string) {
    ((x != [] && x[0] == '#') || (|x| >= 2 && x[0] == '/' && x[1] == '/')) && forall k | 0 <= k < |x| :: x[k] != '\n'
  }

  /// Spacing, and comments up to the ends of their lines.
  ghost predicate IsTrivia(x: string)
    decreases |x|
  {
    || x == []
    || (IsSpacing(x[0]) && IsTrivia(x[1..]))
    || exists n :: 0 < n <= |x| && IsComment(x[..n]) && (n == |x| || x[n] == '\n') && IsTrivia(x[n..])
  }

  lemma {:induction false} LineEndIs(s: string, i: nat)
    requires i <= |s|
    ensures var j := LineEnd(s, i); (forall k | i <= k < j :: s[k] != '\n') && (j == |s| || s[j] == '\n')
    decreases |s| - i
  {
    if i < |s| && s[i] != '\n' {
      LineEndIs(s, i + 1);
    }
  }

  lemma SpacingPassed(s: string, i: nat, j: nat)
    requires i < j <= |s| && IsSpacing(s[i]) && IsTrivia(s[i + 1..j])
    ensures IsTrivia(s[i..j])
  {
    assert s[i..j][1..] == s[i + 1..j];
  }

  lemma CommentPassed(s: string, i: nat, e: nat, j: nat)
    requires i < e <= j <= |s| && IsComment(s[i..e]) && (e == |s| || s[e] == '\n') && IsTrivia(s[e..j])
    ensures IsTrivia(s[i..j])
  {
    var x := s[i..j];
    assert x[..e - i] == s[i..e] && x[e - i..] == s[e..j];
    assert e - i == |x| || x[e - i] == '\n';
  }

  lemma CommentIs(s: string, i: nat, e: nat)
    requires i < |s| && Comments(s, i) && e == LineEnd(s, i + 1)
    ensures i < e <= |s| && IsComment(s[i..e]) && (e == |s| || s[e] == '\n')
  {
    LineEndIs(s, i + 1);
    var x := s[i..e];
    forall k | 0 <= k < |x|
      ensures x[k] != '\n'
    {
      assert x[k] == s[i + k];
    }
  }

  /// Neither spacing nor a comment begins here.
  predicate NoTrivia(s: string, j: nat) {
    j >= |s| || (!IsSpacing(s[j]) && s[j] != '#' && !(s[j] == '/' && Peek(s, j + 1) == '/'))
  }

  /// What is passed over is spacing and comments, and behind it neither begins.
  lemma {:induction false} TriviaPassed(s: string, i: nat)
    requires i <= |s|
    ensures IsTrivia(s[i..TriviaEnd(s, i)]) && NoTrivia(s, TriviaEnd(s, i))
    decreases |s| - i
  {
    if i < |s| && IsSpacing(s[i]) {
      TriviaPassed(s, i + 1);
      SpacingPassed(s, i, TriviaEnd(s, i + 1));
    } else if i < |s| && Comments(s, i) {
      var e := LineEnd(s, i + 1);
      CommentIs(s, i, e);
      TriviaPassed(s, e);
      CommentPassed(s, i, e, TriviaEnd(s, e));
    }
  }

  // ---- Tokens ----

  predicate AllDigits(x: string) {
    x != [] && forall k | 0 <= k < |x| :: '0' <= x[k] <= '9'
  }

  lemma {:induction false} DigitsRun(s: string, i: nat)
    requires i <= |s|
    ensures var j := DigitsEnd(s, i); (forall k | i <= k < j :: '0' <= s[k] <= '9') && (j == |s| || !('0' <= s[j] <= '9'))
    decreases |s| - i
  {
    if i < |s| && IsDigit(s[i]) {
      DigitsRun(s, i + 1);
    }
  }

  lemma {:induction false} NameRun(s: string, i: nat)
    requires i <= |s|
    ensures var j := NameEnd(s, i); (forall k | i <= k < j :: IsNameChar(s[k])) && (j == |s| || !IsNameChar(s[j]))
    decreases |s| - i
  {
    if i < |s| && IsNameChar(s[i]) {
      NameRun(s, i + 1);
    }
  }

  /// An integer is all digits, a name all name characters, and each goes on as far as it can; a string begins with a quote;
  /// a mark is one character.
  lemma TokenShape(s: string, i: nat)
    requires i < |s|
    ensures var x := LexOne(s, i);
            var text := s[i..x.end];
            && (x.kind.Integer? ==> AllDigits(text) && !IsDigit(Peek(s, x.end)))
            && (x.kind.Identifier? ==> (forall k | 0 <= k < |text| :: IsNameChar(text[k])) && (x.end == |s| || !IsNameChar(s[x.end])))
            && (x.kind.Real? ==> '0' <= text[0] <= '9' || text[0] == '.')
            && (x.kind.Str? <==> text[0] == '"')
            && (!x.kind.Integer? && !x.kind.Identifier? && !x.kind.Real? && !x.kind.Str? ==> |text| == 1)
  {
    var x := LexOne(s, i);
    if IsDigit(s[i]) || (s[i] == '.' && IsDigit(Peek(s, i + 1))) {
      NumberShape(s, i);
    } else if IsNameStart(s[i]) {
      NameRun(s, i);
    }
  }

  lemma NumberShape(s: string, i: nat)
    requires i < |s| && (IsDigit(s[i]) || (s[i] == '.' && IsDigit(Peek(s, i + 1))))
    ensures var x := LexNumber(s, i);
            && i < x.end && x.kind in {Integer, Real, Identifier}
            && (x.kind.Integer? ==> AllDigits(s[i..x.end]) && !IsDigit(Peek(s, x.end)))
            && (x.kind.Identifier? ==> (forall k | i <= k < x.end :: IsNameChar(s[k])) && (x.end == |s| || !IsNameChar(s[x.end])))
  {
    var d := DigitsEnd(s, i);
    DigitsRun(s, i);
    NameRun(s, d);
    assert IsNameChar(Peek(s, d)) ==> ExponentEnd(s, FractionEnd(s, d)) == d || LexNumber(s, i).kind.Real?;
  }

  lemma FractionShape(s: string, d: nat)
    requires d <= |s|
    ensures var f := FractionEnd(s, d);
            d < f ==> s[d] == '.' && forall k | d < k < f :: '0' <= s[k] <= '9'
  {
    if d < FractionEnd(s, d) {
      DigitsRun(s, d + 1);
    }
  }

  lemma ExponentShape(s: string, f: nat)
    requires f <= |s|
    ensures var e := ExponentEnd(s, f);
            f < e ==>
              && f + 1 < e && (s[f] == 'e' || s[f] == 'E') && (s[f + 1] == '+' || s[f + 1] == '-' || '0' <= s[f + 1] <= '9')
              && (forall k | f + 1 < k < e :: '0' <= s[k] <= '9') && '0' <= s[e - 1] <= '9'
  {
    var e := ExponentEnd(s, f);
    if f < e {
      DigitsRun(s, if Signed(s, f + 1) then f + 2 else f + 1);
    }
  }

  /// A real number: digits, and then a point with digits behind it or without, an exponent, or both.
  lemma RealParts(s: string, i: nat)
    requires i <= |s|
    ensures var (d, e) := (DigitsEnd(s, i), ExponentEnd(s, FractionEnd(s, DigitsEnd(s, i))));
            LexNumber(s, i).kind.Real? <==> d < e
    ensures LexNumber(s, i).kind.Real? ==> LexNumber(s, i).end == ExponentEnd(s, FractionEnd(s, DigitsEnd(s, i)))
  {
  }

  /// The marks.
  lemma Marks()
    ensures Punctuation(':') == Colon && Punctuation(';') == Semicolon && Punctuation(',') == Comma && Punctuation('|') == Pipe
    ensures Punctuation('@') == At && Punctuation('+') == Plus && Punctuation('-') == Minus && Punctuation('=') == Equals
    ensures Punctuation('(') == LParen && Punctuation(')') == RParen && Punctuation('[') == LBracket && Punctuation(']') == RBracket
    ensures Punctuation('.') == Dot && Punctuation('/') == Slash
    ensures forall c: char | c !in ":;,|@+-=()[]./" :: Punctuation(c) == Unknown
  {
  }

  // ---- Strings ----

  /// In a string a backslash stands for the quote or backslash behind it, and for itself in front of anything else; two
  /// quotes stand for one; one quote ends it.
  lemma StringCharacters(s: string, i: nat)
    requires i + 1 < |s|
    ensures s[i] == '\\' && (s[i + 1] == '"' || s[i + 1] == '\\') ==> QuoteBody(s, i).value == [s[i + 1]] + QuoteBody(s, i + 2).value
    ensures s[i] == '\\' && s[i + 1] != '"' && s[i + 1] != '\\' ==> QuoteBody(s, i).value == ['\\'] + QuoteBody(s, i + 1).value
    ensures s[i] == '"' && s[i + 1] == '"' ==> QuoteBody(s, i).value == ['"'] + QuoteBody(s, i + 2).value
    ensures s[i] == '"' && s[i + 1] != '"' ==> QuoteBody(s, i) == Quote("", i + 1, true)
    ensures s[i] != '"' && s[i] != '\\' ==> QuoteBody(s, i).value == [s[i]] + QuoteBody(s, i + 1).value
  {
  }

  // ---- Numbers ----

  /// The number that digits stand for.
  function Value(digits: string): nat
    requires forall k | 0 <= k < |digits| :: IsDigit(digits[k])
  {
    if digits == [] then 0
    else
      var c := digits[|digits| - 1];
      assert IsDigit(c);
      10 * Value(digits[..|digits| - 1]) + (c as int - 48)
  }

  /// An integer is read as its number, or as the largest 64-bit word if that is less.
  lemma {:induction false} IntegersSaturate(digits: string)
    requires forall k | 0 <= k < |digits| :: IsDigit(digits[k])
    ensures Unsigned(digits) == if Value(digits) < 0x1_0000_0000_0000_0000 then Value(digits) else 0xFFFF_FFFF_FFFF_FFFF
  {
    if digits != [] {
      IntegersSaturate(digits[..|digits| - 1]);
    }
  }

  // ---- Whole texts ----

  /// The token's text stands in `x` at position `n`, and only spacing and comments in front of it.
  ghost predicate Leads(x: string, t: Token, n: nat) {
    n + |t.text| <= |x| && IsTrivia(x[..n]) && x[n..n + |t.text|] == t.text && t.text != []
  }

  /// The texts of the tokens, with what is passed over in front of each and at the end.
  ghost predicate Covers(x: string, ts: seq<Token>)
    decreases |ts|
  {
    ts != []
    && if |ts| == 1 then ts[0].kind.End? && IsTrivia(x)
       else exists n: nat :: Leads(x, ts[0], n) && Covers(x[n + |ts[0].text|..], ts[1..])
  }

  /// Nothing is lost: the tokens, with spacing and comments between them, are the text.
  lemma {:induction false} TokensCover(s: string, i: nat, first: bool)
    requires i <= |s|
    ensures Covers(s[i..], Lex(s, i, first).tokens)
    decreases |s| - i
  {
    var b := TriviaEnd(s, i);
    var ts := Lex(s, i, first).tokens;
    TriviaPassed(s, i);
    if b == |s| {
      assert s[i..|s|] == s[i..];
    } else {
      var x := LexOne(s, b);
      var more := Lex(s, x.end, HasNewline(s, b, x.end)).tokens;
      TokensCover(s, x.end, HasNewline(s, b, x.end));
      TokenLeads(s, i, b, x.end, ts[0]);
      assert ts == [ts[0]] + more;
      Covered(s[i..], ts[0], b - i, s[x.end..], more);
    }
  }

  lemma TokenLeads(s: string, i: nat, b: nat, e: nat, t: Token)
    requires i <= b < e <= |s| && IsTrivia(s[i..b]) && t.text == s[b..e]
    ensures Leads(s[i..], t, b - i) && s[i..][b - i + |t.text|..] == s[e..]
  {
    var x := s[i..];
    assert x[..b - i] == s[i..b] && x[b - i..e - i] == s[b..e] && x[e - i..] == s[e..];
  }

  lemma Covered(x: string, t: Token, n: nat, rest: string, more: seq<Token>)
    requires Leads(x, t, n) && rest == x[n + |t.text|..] && Covers(rest, more)
    ensures Covers(x, [t] + more)
  {
    var ts := [t] + more;
    assert ts[1..] == more && ts[0] == t && |ts| > 1;
    assert Leads(x, ts[0], n) && Covers(x[n + |ts[0].text|..], ts[1..]);
  }
}
