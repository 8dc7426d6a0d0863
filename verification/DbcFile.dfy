/// A DBC file as a whole: the database written to it, and what reading it makes of its strings.
module DbcFile {
  import opened Text
  import opened Lexer
  import opened Glyphs
  import opened Frame
  import opened DbcWriter
  import opened DbcParser
  import opened WrittenDbc
  import opened DbcRoundTrip
  import opened Encoding
  import opened LineEnds
  import opened Sources
  import opened DbcStrings
  import opened DbcAsRead

  // ---- Writing and reading ----

  /// The preamble as it is written.
  function WithSymbols(h: Preamble, synthesise: bool): Preamble {
    h.(symbols := Announced(h.symbols, synthesise))
  }

  function Written(h: Preamble, ms: seq<DbcMessage>, crlf: bool): string {
    var text := Render(FileGlyphs(h, ms));
    if crlf then Returned(text) else text
  }

  /// `write_string`.
  method WriteString(h: Preamble, ms: seq<DbcMessage>, synthesise: bool, crlf: bool) returns (bytes: string)
    ensures bytes == Written(WithSymbols(h, synthesise), ms, crlf)
  {
    bytes := WriteFile(h, ms, synthesise);
    if crlf {
      bytes := WithReturns(bytes);
    }
  }

  lemma {:induction false} LexEnds(s: string, i: nat, first: bool)
    requires i <= |s|
    ensures Ended(Lex(s, i, first).tokens)
    decreases |s| - i
  {
    var b := TriviaEnd(s, i);
    if b < |s| {
      LexEnds(s, LexOne(s, b).end, HasNewline(s, b, LexOne(s, b).end));
    }
  }

  /// What the parser makes of a file, and whether the scanner could make something of every character.
  function Parsed(bytes: string): (r: (Result, bool)) {
    var x := Lex(Normalised(bytes), 0, true);
    LexEnds(Normalised(bytes), 0, true);
    (Run(x.tokens, Cursor(0, false, false), EMPTY, []), x.ok)
  }

  /// `parse_string`.
  method ParseString(bytes: string) returns (r: Result, scanned: bool)
    ensures (r, scanned) == Parsed(bytes)
  {
    var text := Normalise(bytes);
    var scanner := new Scanner(text);
    var tokens := scanner.Tokenise();
    scanned := scanner.ok;
    LexEnds(text, 0, true);
    var parser := new Parser(tokens);
    var foreign := parser.RunAll();
    r := if foreign then Foreign
         else Finished(parser.preamble, parser.messages, Cursor(parser.pos, parser.errors, parser.warnings));
  }

  // ---- Bytes ----

  lemma {:induction false} ReturnedConcat(a: string, b: string)
    ensures Returned(a + b) == Returned(a) + Returned(b)
    decreases |b|
  {
    if b == [] {
      assert a + b == a;
    } else {
      assert (a + b)[..|a + b| - 1] == a + b[..|b| - 1];
      ReturnedConcat(a, b[..|b| - 1]);
    }
  }

  lemma {:induction false} ReturnedAwaits(s: string)
    ensures Awaited(0, Returned(s)) == Awaited(0, s)
  {
    if s != [] {
      var front, c := s[..|s| - 1], s[|s| - 1];
      ReturnedAwaits(front);
      var n := Awaited(0, front);
      if c == '\n' {
        assert ['\r', '\n'] == ['\r'] + ['\n'];
        AwaitedConcat(0, Returned(front), ['\r'] + ['\n']);
        AwaitedConcat(n, ['\r'], ['\n']);
        AwaitsOne(n, '\r');
        AwaitsOne(Taken(n, '\r'), '\n');
      } else {
        AwaitedConcat(0, Returned(front), [c]);
        AwaitsOne(n, c);
      }
    }
  }

  lemma ReturnedSnoc(a: string, c: char)
    ensures Returned(a + [c]) == Returned(a) + Returned([c]) && Transcoded(a + [c]) == Transcoded(a) + Coded(c)
  {
    ReturnedConcat(a, [c]);
    assert (a + [c])[..|a|] == a;
  }

  lemma {:induction false} ReturnedTranscoded(s: string)
    ensures Transcoded(Returned(s)) == Returned(Transcoded(s))
  {
    if s == [] {
      assert Transcoded(Returned(s)) == Returned(Transcoded(s)) == [];
    } else {
      var front, c := s[..|s| - 1], s[|s| - 1];
      assert s == front + [c];
      ReturnedTranscoded(front);
      ReturnedSnoc(front, c);
      TranscodedConcat(Returned(front), Returned([c]));
      ReturnedConcat(Transcoded(front), Coded(c));
      ReturnedOne(c);
    }
  }

  lemma ReturnedOne(c: char)
    ensures Transcoded(Returned([c])) == Returned(Coded(c))
  {
    assert [c][..0] == [];
    if c == '\n' {
      assert Returned([c]) == ['\r'] + ['\n'];
      TranscodedConcat(['\r'], ['\n']);
      TranscodedOne('\r');
      TranscodedOne('\n');
    } else {
      assert Returned([c]) == [c];
      TranscodedOne(c);
      if |Coded(c)| == 2 {
        var d := Coded(c);
        assert d == [d[0]] + [d[1]] && [d[0]][..0] == [] && [d[1]][..0] == [];
        ReturnedConcat([d[0]], [d[1]]);
      }
    }
  }

  /// Reading gives the text as it is read, once the text is taken for what it is.
  lemma BytesRead(text: string, crlf: bool, how: Reading)
    requires how == Reading(crlf, !ValidUtf8(text))
    ensures Unified(Decoded(if crlf then Returned(text) else text)) == TextRead(text, how)
  {
    if crlf {
      ReturnedAwaits(text);
      ReturnedTranscoded(text);
      ReturnedUnifies(NameRead(text, how));
    }
  }

  // ---- The first and the last line ----

  lemma FileStarts(h: Preamble, ms: seq<DbcMessage>)
    ensures var text := Render(FileGlyphs(h, ms)); text != [] && text[0] == 'V'
  {
    var gs := FileGlyphs(h, ms);
    assert gs[0] == Word("VERSION");
  }

  /// No byte order mark stands in front of what is written.
  lemma WrittenUnmarked(h: Preamble, ms: seq<DbcMessage>, crlf: bool)
    ensures Unmarked(Written(h, ms, crlf)) == Written(h, ms, crlf)
  {
    var text := Render(FileGlyphs(h, ms));
    FileStarts(h, ms);
    if crlf {
      assert text == [text[0]] + text[1..];
      ReturnedConcat([text[0]], text[1..]);
      assert [text[0]][..0] == [];
      assert Returned([text[0]]) == ['V'];
    }
  }

  predicate EndsLine(gs: seq<Glyph>) {
    gs == [] || gs[|gs| - 1] == NEWLINE
  }

  lemma {:induction false} SwitchesEndLine(id: CanId, ss: seq<DbcSignal>)
    ensures EndsLine(SwitchesGlyphs(id, ss))
  {
    if ss != [] {
      SwitchesEndLine(id, ss[..|ss| - 1]);
    }
  }

  lemma {:induction false} AllSwitchesEndLine(ms: seq<DbcMessage>)
    ensures EndsLine(AllSwitches(ms))
  {
    if ms != [] {
      AllSwitchesEndLine(ms[..|ms| - 1]);
      SwitchesEndLine(ms[|ms| - 1].id, ms[|ms| - 1].signals);
    }
  }

  lemma MessagesEndLine(ms: seq<DbcMessage>)
    ensures EndsLine(MessagesGlyphs(ms))
  {
  }

  lemma PreambleEndsLine(h: Preamble)
    ensures EndsLine(PreambleGlyphs(h))
  {
    var names := [Word("BU_"), Mark(':')] + NodeGlyphs(h.nodes);
    assert NodesGlyphs(h.nodes) == names + [NEWLINE, NEWLINE];
  }

  lemma LinesComplete(gs: seq<Glyph>)
    requires EndsLine(gs)
    ensures Completed(Render(gs)) == Render(gs)
  {
    if gs != [] {
      var front := gs[..|gs| - 1];
      assert gs == front + [NEWLINE];
      RenderConcat(front, [NEWLINE]);
      RenderOne(NEWLINE);
    }
  }

  lemma EndsLineConcat(a: seq<Glyph>, b: seq<Glyph>)
    requires EndsLine(a) && EndsLine(b)
    ensures EndsLine(a + b)
  {
    assert b == [] ==> a + b == a;
  }

  lemma WrittenComplete(h: Preamble, ms: seq<DbcMessage>)
    ensures Completed(Render(FileGlyphs(h, ms))) == Render(FileGlyphs(h, ms))
  {
    PreambleEndsLine(h);
    MessagesEndLine(ms);
    AllSwitchesEndLine(ms);
    EndsLineConcat(MessagesGlyphs(ms), AllSwitches(ms));
    EndsLineConcat(PreambleGlyphs(h), DatabaseGlyphs(ms));
    LinesComplete(FileGlyphs(h, ms));
  }

  // ---- The whole ----

  /// What is read from a written file is the text of the database as it is read.
  lemma FileRead(h: Preamble, ms: seq<DbcMessage>, crlf: bool, how: Reading)
    requires GoodPreamble(h) && GoodDatabase(ms) && how == Reading(crlf, !AllUtf8(h, ms))
    ensures Normalised(Written(h, ms, crlf)) == Render(FileGlyphs(PreambleRead(h, how), MessagesRead(ms, how)))
  {
    var gs, text := FileGlyphs(h, ms), Render(FileGlyphs(h, ms));
    var hs, valid := FileGlyphs(PreambleRead(h, how), MessagesRead(ms, how)), PreambleValid(h) && BlocksValid(ms) && AllSwitchesValid(ms);
    GoodIsValued(ms);
    CarryFile(h, ms, how);
    assert Carry(gs, how, hs, valid);
    FileValidity(h, ms);
    FileNeat(h, ms);
    RenderValid(gs);
    RenderRead(gs, how);
    WrittenUnmarked(h, ms, crlf);
    BytesRead(text, crlf, how);
    WrittenComplete(PreambleRead(h, how), MessagesRead(ms, how));
  }

  /// A file that was written is read without an error, with either kind of line end. If every string in it is UTF-8,
  /// only carriage returns in the version and in units become newlines; if one is not, every string is taken for
  /// Latin-1 as well. There is a warning exactly if some signal is switched by one that its message does not have.
  lemma FileReads(h: Preamble, ms: seq<DbcMessage>, crlf: bool, how: Reading)
    requires GoodPreamble(h) && GoodDatabase(ms) && how == Reading(crlf, !AllUtf8(h, ms))
    ensures var (r, scanned) := Parsed(Written(h, ms, crlf));
            && scanned && r.Finished? && !r.cursor.errors && (r.cursor.warnings <==> Dangles(ms))
            && r.preamble == PreambleRead(h, how) && r.messages == MessagesRead(ms, how)
  {
    var e, rs, bytes := PreambleRead(h, how), MessagesRead(ms, how), Written(h, ms, crlf);
    FileRead(h, ms, crlf, how);
    PreambleStays(h, how);
    DatabaseStays(ms, how);
    DanglesStay(ms, how);
    RoundTrip(e, rs, Normalised(bytes), Lex(Normalised(bytes), 0, true));
  }

  /// What `write_string` makes of a database comes back exactly if every string of it is UTF-8, neither the version
  /// nor a unit holds a carriage return, and no symbols were made up.
  lemma FileRoundTrip(h: Preamble, ms: seq<DbcMessage>, synthesise: bool, crlf: bool)
    requires GoodPreamble(h) && GoodDatabase(ms)
    ensures var (r, scanned) := Parsed(Written(WithSymbols(h, synthesise), ms, crlf));
            && scanned && r.Finished? && !r.cursor.errors && (r.cursor.warnings <==> Dangles(ms))
            && (r.preamble == h && r.messages == ms <==>
                AllUtf8(h, ms) && !HasReturns(h, ms) && !(synthesise && h.symbols == []))
  {
    var shown := WithSymbols(h, synthesise);
    var how := Reading(crlf, !AllUtf8(shown, ms));
    AnnouncedGood(h, synthesise);
    FileReads(shown, ms, crlf, how);
    ComesBackExactly(shown, ms, how);
    SymbolsMadeUp(h, ms, synthesise, how);
  }

  lemma SymbolsMadeUp(h: Preamble, ms: seq<DbcMessage>, synthesise: bool, how: Reading)
    ensures var shown := WithSymbols(h, synthesise);
            && (AllUtf8(shown, ms) <==> AllUtf8(h, ms)) && (HasReturns(shown, ms) <==> HasReturns(h, ms))
            && (PreambleRead(shown, how) == h <==> PreambleRead(shown, how) == shown && !(synthesise && h.symbols == []))
  {
    var shown := WithSymbols(h, synthesise);
    if synthesise && h.symbols == [] {
      DefaultCapitals(DEFAULT_SYMBOLS);
      forall k | 0 <= k < |DEFAULT_SYMBOLS|
        ensures ValidUtf8(DEFAULT_SYMBOLS[k])
      {
        AsciiIsValid(DEFAULT_SYMBOLS[k]);
      }
      assert |PreambleRead(shown, how).symbols| == |DEFAULT_SYMBOLS| > 0;
    }
  }
}
