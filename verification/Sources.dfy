/// Reading a source: `Source::normalise` of text/src/Lexer.cpp.
module Sources {
  import opened Encoding
  import opened LineEnds

  /// Without a byte order mark.
  function Unmarked(bytes: string): string {
    if |bytes| >= 3 && bytes[0] as int == 0xEF && bytes[1] as int == 0xBB && bytes[2] as int == 0xBF then bytes[3..] else bytes
  }

  /// Taken for Latin-1 if it is not UTF-8.
  function Decoded(bytes: string): string {
    if ValidUtf8(bytes) then bytes else Transcoded(bytes)
  }

  function Normalised(bytes: string): string {
    Completed(Unified(Decoded(Unmarked(bytes))))
  }

  /// `Source::normalise`.
  method Normalise(bytes: string) returns (text: string)
    ensures text == Normalised(bytes)
  {
    text := bytes;
    if |bytes| >= 3 && bytes[0] as int == 0xEF && bytes[1] as int == 0xBB && bytes[2] as int == 0xBF {
      text := bytes[3..];
    }
    var valid := IsValidUtf8(text);
    if !valid {
      text := Latin1ToUtf8(text);
    }
    text := UnifyLines(text);
  }

  // ---- What line ends have to do with encodings ----

  lemma {:induction false} UnifiedAwaits(s: string, n: int)
    ensures Awaited(n, s) == 0 <==> Awaited(n, Unified(s)) == 0
    decreases |s|
  {
    if s != [] {
      var k := if s[0] == '\r' && |s| > 1 && s[1] == '\n' then 2 else 1;
      var c := if s[0] == '\r' then '\n' else s[0];
      assert s == s[..k] + s[k..] && Unified(s) == [c] + Unified(s[k..]);
      AwaitedConcat(n, s[..k], s[k..]);
      AwaitedConcat(n, [c], Unified(s[k..]));
      AwaitsOne(n, c);
      AwaitsOne(n, s[0]);
      if k == 2 {
        assert s[..2] == [s[0]] + [s[1]];
        AwaitedConcat(n, [s[0]], [s[1]]);
        AwaitsOne(Taken(n, s[0]), s[1]);
      } else {
        assert s[..1] == [s[0]];
      }
      UnifiedAwaits(s[k..], Taken(n, c));
    }
  }

  lemma AwaitsOne(n: int, c: char)
    ensures Awaited(n, [c]) == Taken(n, c)
  {
    assert [c][..0] == [];
    assert Awaited(n, [c][..0]) == n;
  }

  /// A text that was read is UTF-8, whatever it was read from.
  lemma NormalisedIsUtf8(bytes: string)
    requires Bytes(bytes)
    ensures ValidUtf8(Normalised(bytes))
  {
    var d := Decoded(Unmarked(bytes));
    if !ValidUtf8(Unmarked(bytes)) {
      TranscodedValid(Unmarked(bytes));
    }
    UnifiedAwaits(d, 0);
    AwaitedConcat(0, Unified(d), ['\n']);
    AwaitsOne(0, '\n');
  }
}
