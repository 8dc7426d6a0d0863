/// The scanner of text/src/Lexer.cpp: where each token of a text ends, as functions on what is left of the
/// text and as the object that walks through it.
module Lexer {
  import opened Text

  datatype Kind =
    | End
    | Identifier
    | Integer
    | Real
    | Str
    | Colon
    | Semicolon
    | Comma
    | Pipe
    | At
    | Plus
    | Minus
    | LParen
    | RParen
    | LBracket
    | RBracket
    | Equals
    | Dot
    | Slash
    | Unknown

  /// `value` is the unescaped contents of a string; `first` says that no token precedes it on its line.
  datatype Token = Token(kind: Kind, text: string, value: string, first: bool) {
    predicate IsWord(w: string) {
      kind.Identifier? && text == w
    }
  }

  const LARGEST: nat := WORD64 - 1

  /// `strtoull`: an unsigned number, cut off at the largest word.
  function Unsigned(digits: string): (v: nat)
    ensures v <= LARGEST
  {
    if digits == [] then 0
    else
      var c := digits[|digits| - 1];
      var v := 10 * Unsigned(digits[..|digits| - 1]) + if IsDigit(c) then DigitValue(c) else 0;
      if v > LARGEST then LARGEST else v
  }

  // ---- Characters ----

  /// Letters, '_', and every byte of a multi-byte character.
  predicate IsNameStart(c: char) {
    'a' <= c <= 'z' || 'A' <= c <= 'Z' || c == '_' || c as int >= 128
  }

  predicate IsNameChar(c: char) {
    IsNameStart(c) || IsDigit(c)
  }

  predicate IsSpacing(c: char) {
    c == ' ' || c == '\t' || c == '\n' || c as int == 11 || c as int == 12
  }

  /// `peek`: a null character past the end.
  function Peek(s: string, i: nat): char {
    if i < |s| then s[i] else '\0'
  }

  // ---- Where things end ----

  function LineEnd(s: string, i: nat): (j: nat)
    requires i <= |s|
    ensures i <= j <= |s|
    decreases |s| - i
  {
    if i == |s| || s[i] == '\n' then i else LineEnd(s, i + 1)
  }

  predicate Comments(s: string, i: nat)
    requires i < |s|
  {
    s[i] == '#' || (s[i] == '/' && Peek(s, i + 1) == '/')
  }

  /// Past spacing, and past comments, which begin with '#' or two slashes.
  function TriviaEnd(s: string, i: nat): (j: nat)
    requires i <= |s|
    ensures i <= j <= |s|
    decreases |s| - i
  {
    if i == |s| then i
    else if IsSpacing(s[i]) then TriviaEnd(s, i + 1)
    else if Comments(s, i) then TriviaEnd(s, LineEnd(s, i + 1))
    else i
  }

  function NameEnd(s: string, i: nat): (j: nat)
    requires i <= |s|
    ensures i <= j <= |s|
    decreases |s| - i
  {
    if i == |s| || !IsNameChar(s[i]) then i else NameEnd(s, i + 1)
  }

  function DigitsEnd(s: string, i: nat): (j: nat)
    requires i <= |s|
    ensures i <= j <= |s|
    decreases |s| - i
  {
    if i == |s| || !IsDigit(s[i]) then i else DigitsEnd(s, i + 1)
  }

  function FractionEnd(s: string, i: nat): (j: nat)
    requires i <= |s|
    ensures i <= j <= |s|
  {
    if Peek(s, i) == '.' && IsDigit(Peek(s, i + 1)) then DigitsEnd(s, i + 1)
    else if Peek(s, i) == '.' && !IsNameStart(Peek(s, i + 1)) then i + 1
    else i
  }

  predicate Signed(s: string, i: nat) {
    Peek(s, i) == '+' || Peek(s, i) == '-'
  }

  function ExponentEnd(s: string, i: nat): (j: nat)
    requires i <= |s|
    ensures i <= j <= |s|
  {
    if (Peek(s, i) == 'e' || Peek(s, i) == 'E') && ((Signed(s, i + 1) && IsDigit(Peek(s, i + 2))) || IsDigit(Peek(s, i + 1))) then
      DigitsEnd(s, if Signed(s, i + 1) then i + 2 else i + 1)
    else i
  }

  datatype Lexeme = Lexeme(kind: Kind, end: nat, value: string, ok: bool)

  /// A number, or a name that begins with digits.
  function LexNumber(s: string, i: nat): (x: Lexeme)
    requires i <= |s|
    ensures i <= x.end <= |s|
  {
    var d := DigitsEnd(s, i);
    var e := ExponentEnd(s, FractionEnd(s, d));
    if e == d && IsNameChar(Peek(s, e)) then Lexeme(Identifier, NameEnd(s, e), "", true)
    else Lexeme(if e > d then Real else Integer, e, "", true)
  }

  datatype Quote = Quote(value: string, end: nat, closed: bool)

  /// A backslash escapes a quote or a backslash, and so does a quote a quote.
  predicate Escapes(s: string, i: nat)
    requires i < |s|
  {
    if s[i] == '\\' then Peek(s, i + 1) == '"' || Peek(s, i + 1) == '\\' else s[i] == '"' && Peek(s, i + 1) == '"'
  }

  /// What follows an opening quote, from position `i`.
  function QuoteBody(s: string, i: nat): (q: Quote)
    requires i <= |s|
    ensures i <= q.end <= |s|
    decreases |s| - i
  {
    if i == |s| then Quote("", i, false)
    else if Escapes(s, i) then Pushed(s[i + 1], QuoteBody(s, i + 2))
    else if s[i] == '"' then Quote("", i + 1, true)
    else Pushed(s[i], QuoteBody(s, i + 1))
  }

  function Pushed(c: char, q: Quote): Quote {
    q.(value := [c] + q.value)
  }

  /// The whole string is `value`, and then what is left of it.
  predicate Reads(whole: Quote, value: string, left: Quote) {
    whole.value == value + left.value && whole.end == left.end && whole.closed == left.closed
  }

  lemma ReadsOn(whole: Quote, value: string, c: char, left: Quote)
    requires Reads(whole, value, Pushed(c, left))
    ensures Reads(whole, value + [c], left)
  {
  }

  lemma QuoteStep(s: string, i: nat, j: nat, c: char)
    requires i < |s| && (Escapes(s, i) || s[i] != '"') && j == (if Escapes(s, i) then i + 2 else i + 1) && j <= |s| && c == s[j - 1]
    ensures QuoteBody(s, i) == Pushed(c, QuoteBody(s, j))
  {
  }

  function Punctuation(c: char): Kind {
    match c
    case ':' => Colon
    case ';' => Semicolon
    case ',' => Comma
    case '|' => Pipe
    case '@' => At
    case '+' => Plus
    case '-' => Minus
    case '(' => LParen
    case ')' => RParen
    case '[' => LBracket
    case ']' => RBracket
    case '=' => Equals
    case '.' => Dot
    case '/' => Slash
    case _ => Unknown
  }

  /// The token at position `i`.
  function LexOne(s: string, i: nat): (x: Lexeme)
    requires i < |s|
    ensures i < x.end <= |s| && !x.kind.End?
  {
    if IsDigit(s[i]) || (s[i] == '.' && IsDigit(Peek(s, i + 1))) then LexNumber(s, i)
    else if IsNameStart(s[i]) then Lexeme(Identifier, NameEnd(s, i), "", true)
    else if s[i] == '"' then
      var q := QuoteBody(s, i + 1);
      Lexeme(Str, q.end, q.value, q.closed)
    else Lexeme(Punctuation(s[i]), i + 1, "", !Punctuation(s[i]).Unknown?)
  }

  predicate HasNewline(s: string, i: nat, j: nat)
    requires i <= j <= |s|
    decreases j
  {
    i < j && (s[j - 1] == '\n' || HasNewline(s, i, j - 1))
  }

  datatype Lexed = Lexed(tokens: seq<Token>, ok: bool)

  /// `tokenise`, from position `i`; `first` when no token precedes it on its line.
  function Lex(s: string, i: nat, first: bool): (r: Lexed)
    requires i <= |s|
    ensures r.tokens != []
    decreases |s| - i
  {
    var b := TriviaEnd(s, i);
    var f := first || HasNewline(s, i, b);
    if b == |s| then Lexed([Token(End, "", "", f)], true)
    else
      var x := LexOne(s, b);
      var more := Lex(s, x.end, HasNewline(s, b, x.end));
      Lexed([Token(x.kind, s[b..x.end], x.value, f)] + more.tokens, x.ok && more.ok)
  }

  // ---- The scanner ----

  class Scanner {
    const source: string
    var pos: nat
    var atLineStart: bool
    var ok: bool

    ghost predicate Valid()
      reads this
    {
      pos <= |source|
    }

    /// Has come from `start`, where `atLineStart` was `before`.
    ghost predicate Came(start: nat, before: bool)
      reads this
    {
      start <= pos <= |source| && (atLineStart <==> before || HasNewline(source, start, pos))
    }

    constructor (source: string)
      ensures this.source == source && Valid() && pos == 0 && atLineStart && ok
    {
      this.source := source;
      pos, atLineStart, ok := 0, true, true;
    }

    method Advance(ghost start: nat, ghost before: bool) returns (c: char)
      requires Came(start, before) && pos < |source|
      modifies this`pos, this`atLineStart
      ensures Came(start, before) && pos == old(pos) + 1 && c == source[old(pos)]
    {
      c := source[pos];
      pos := pos + 1;
      if c == '\n' {
        atLineStart := true;
      }
    }

    method SkipLine(ghost start: nat, ghost before: bool)
      requires Came(start, before)
      modifies this`pos, this`atLineStart
      ensures Came(start, before) && pos == LineEnd(source, old(pos))
    {
      while pos < |source| && Peek(source, pos) != '\n'
        invariant Came(start, before) && LineEnd(source, pos) == LineEnd(source, old(pos))
        decreases |source| - pos
      {
        var c := Advance(start, before);
      }
    }

    method SkipTrivia()
      requires Valid()
      modifies this`pos, this`atLineStart
      ensures Came(old(pos), old(atLineStart)) && pos == TriviaEnd(source, old(pos))
    {
      ghost var start, before := pos, atLineStart;
      while pos < |source|
        invariant Came(start, before) && TriviaEnd(source, pos) == TriviaEnd(source, start)
        decreases |source| - pos
      {
        var c := Peek(source, pos);
        if IsSpacing(c) {
          c := Advance(start, before);
          continue;
        }
        if c == '#' || (c == '/' && Peek(source, pos + 1) == '/') {
          c := Advance(start, before);
          SkipLine(start, before);
          continue;
        }
        return;
      }
    }

    method SkipDigits(ghost start: nat, ghost before: bool)
      requires Came(start, before)
      modifies this`pos, this`atLineStart
      ensures Came(start, before) && pos == DigitsEnd(source, old(pos))
    {
      while IsDigit(Peek(source, pos))
        invariant Came(start, before) && DigitsEnd(source, pos) == DigitsEnd(source, old(pos))
        decreases |source| - pos
      {
        var c := Advance(start, before);
      }
    }

    method SkipName(ghost start: nat, ghost before: bool)
      requires Came(start, before)
      modifies this`pos, this`atLineStart
      ensures Came(start, before) && pos == NameEnd(source, old(pos))
    {
      while IsNameChar(Peek(source, pos))
        invariant Came(start, before) && NameEnd(source, pos) == NameEnd(source, old(pos))
        decreases |source| - pos
      {
        var c := Advance(start, before);
      }
    }

    /// `lex_number`.
    method ScanNumber() returns (kind: Kind)
      requires Valid()
      modifies this`pos, this`atLineStart
      ensures Came(old(pos), old(atLineStart))
      ensures pos == LexNumber(source, old(pos)).end && kind == LexNumber(source, old(pos)).kind
    {
      ghost var start, before := pos, atLineStart;
      SkipDigits(start, before);
      var pointed := SkipFraction(start, before);
      var scaled := SkipExponent(start, before);
      if IsNameChar(Peek(source, pos)) && !pointed && !scaled {
        SkipName(start, before);
        return Identifier;
      }
      kind := if pointed || scaled then Real else Integer;
    }

    method SkipFraction(ghost start: nat, ghost before: bool) returns (pointed: bool)
      requires Came(start, before)
      modifies this`pos, this`atLineStart
      ensures Came(start, before) && pos == FractionEnd(source, old(pos)) && (pointed <==> pos > old(pos))
    {
      pointed := false;
      if Peek(source, pos) == '.' && IsDigit(Peek(source, pos + 1)) {
        pointed := true;
        var c := Advance(start, before);
        SkipDigits(start, before);
      } else if Peek(source, pos) == '.' && !IsNameStart(Peek(source, pos + 1)) {
        pointed := true;
        var c := Advance(start, before);
      }
    }

    method SkipExponent(ghost start: nat, ghost before: bool) returns (scaled: bool)
      requires Came(start, before)
      modifies this`pos, this`atLineStart
      ensures Came(start, before) && pos == ExponentEnd(source, old(pos)) && (scaled <==> pos > old(pos))
    {
      scaled := false;
      if Peek(source, pos) == 'e' || Peek(source, pos) == 'E' {
        var signed := Peek(source, pos + 1) == '+' || Peek(source, pos + 1) == '-';
        if (signed && IsDigit(Peek(source, pos + 2))) || IsDigit(Peek(source, pos + 1)) {
          scaled := true;
          var c := Advance(start, before);
          if signed {
            c := Advance(start, before);
          }
          SkipDigits(start, before);
        }
      }
    }

    /// `lex_string`.
    method ScanString() returns (value: string, closed: bool)
      requires Valid() && pos < |source|
      modifies this`pos, this`atLineStart
      ensures Came(old(pos), old(atLineStart))
      ensures QuoteBody(source, old(pos) + 1) == Quote(value, pos, closed)
    {
      ghost var start, before, whole := pos, atLineStart, QuoteBody(source, pos + 1);
      var c := Advance(start, before);
      value, closed := "", false;
      while pos < |source| && !closed
        invariant Came(start, before) && start < pos
        invariant if closed then whole == Quote(value, pos, true) else Reads(whole, value, QuoteBody(source, pos))
        decreases |source| - pos, !closed
      {
        c := Peek(source, pos);
        var next := Peek(source, pos + 1);
        if c == '"' && next != '"' {
          c := Advance(start, before);
          closed := true;
        } else {
          ghost var from := pos;
          if c == '"' || (c == '\\' && (next == '"' || next == '\\')) {
            c := Advance(start, before);
          }
          c := Advance(start, before);
          QuoteStep(source, from, pos, c);
          ReadsOn(whole, value, c, QuoteBody(source, pos));
          value := value + [c];
        }
      }
    }

    /// One token.
    method Scan(first: bool) returns (t: Token)
      requires Valid() && pos < |source| && !atLineStart
      modifies this
      ensures var x := LexOne(source, old(pos));
              && pos == x.end && (atLineStart <==> HasNewline(source, old(pos), x.end))
              && t == Token(x.kind, source[old(pos)..x.end], x.value, first) && ok == (old(ok) && x.ok)
    {
      var begin, c := pos, Peek(source, pos);
      var kind, value := Identifier, "";
      if IsDigit(c) || (c == '.' && IsDigit(Peek(source, pos + 1))) {
        kind := ScanNumber();
      } else if IsNameStart(c) {
        SkipName(pos, false);
      } else if c == '"' {
        var closed;
        value, closed := ScanString();
        kind, ok := Str, ok && closed;
      } else {
        c := Advance(pos, false);
        kind := Punctuation(c);
        ok := ok && !kind.Unknown?;
      }
      t := Token(kind, source[begin..pos], value, first);
    }

    /// Skip to the next token and scan it; at the end of the text that is the end token.
    method NextToken() returns (t: Token)
      requires Valid()
      modifies this
      ensures Valid() && (t.kind.End? || old(pos) < pos)
      ensures var was, rest := Lex(source, old(pos), old(atLineStart)), Lex(source, pos, atLineStart);
              if t.kind.End? then was == Lexed([t], true) && ok == old(ok)
              else was.tokens == [t] + rest.tokens && (old(ok) && was.ok <==> ok && rest.ok)
    {
      SkipTrivia();
      var first := atLineStart;
      atLineStart := false;
      if pos == |source| {
        return Token(End, "", "", first);
      }
      t := Scan(first);
    }

    /// `tokenise`.
    method Tokenise() returns (tokens: seq<Token>)
      requires Valid()
      modifies this
      ensures tokens == Lex(source, old(pos), old(atLineStart)).tokens
      ensures ok == (old(ok) && Lex(source, old(pos), old(atLineStart)).ok)
    {
      tokens := [];
      ghost var whole, was := Lex(source, pos, atLineStart), ok;
      var more := true;
      while more
        invariant Valid()
        invariant if more then whole.tokens == tokens + Lex(source, pos, atLineStart).tokens
                               && (was && whole.ok <==> ok && Lex(source, pos, atLineStart).ok)
                  else whole.tokens == tokens && (was && whole.ok <==> ok)
        decreases more, |source| - pos
      {
        var t := NextToken();
        tokens := tokens + [t];
        more := !t.kind.End?;
      }
    }
  }
}
