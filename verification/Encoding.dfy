/// The encoding of a text, whose characters are bytes: UTF-8 as text/src/Lexer.cpp recognises it, and Latin-1
/// made into it.
module Encoding {

  predicate Ascii(s: string) {
    forall k | 0 <= k < |s| :: s[k] as int < 128
  }

  predicate Bytes(s: string) {
    forall k | 0 <= k < |s| :: s[k] as int < 256
  }

  // ---- Recognising UTF-8 ----

  /// How many bytes belong behind a leading one; -1 if it cannot lead.
  function Extra(c: char): (n: int)
    ensures -1 <= n <= 3
  {
    var u := c as int;
    if u < 0x80 then 0 else if 0xC0 <= u < 0xE0 then 1 else if 0xE0 <= u < 0xF0 then 2 else if 0xF0 <= u < 0xF8 then 3 else -1
  }

  predicate Continuation(c: char) {
    0x80 <= c as int < 0xC0
  }

  /// One byte more, where `awaited` bytes of a sequence were to come; -1 once the text is no UTF-8.
  function Taken(awaited: int, c: char): int {
    if awaited < 0 then -1 else if awaited == 0 then Extra(c) else if Continuation(c) then awaited - 1 else -1
  }

  function Awaited(awaited: int, s: string): int {
    if s == [] then awaited else Taken(Awaited(awaited, s[..|s| - 1]), s[|s| - 1])
  }

  predicate ValidUtf8(s: string) {
    Awaited(0, s) == 0
  }

  lemma AwaitedStep(s: string, i: nat)
    requires i < |s|
    ensures Awaited(0, s[..i + 1]) == Taken(Awaited(0, s[..i]), s[i])
  {
    assert s[..i + 1][..i] == s[..i];
  }

  lemma {:induction false} AwaitedConcat(n: int, a: string, b: string)
    ensures Awaited(n, a + b) == Awaited(Awaited(n, a), b)
    decreases |b|
  {
    if b == [] {
      assert a + b == a;
    } else {
      assert (a + b)[..|a + b| - 1] == a + b[..|b| - 1];
      AwaitedConcat(n, a, b[..|b| - 1]);
    }
  }

  lemma {:induction false} BrokenStays(s: string, i: nat)
    requires i <= |s| && Awaited(0, s[..i]) < 0
    ensures !ValidUtf8(s)
    decreases |s| - i
  {
    if i == |s| {
      assert s[..i] == s;
    } else {
      AwaitedStep(s, i);
      BrokenStays(s, i + 1);
    }
  }

  /// `n` continuation bytes stand at position `i`.
  predicate Continued(s: string, i: nat, n: nat) {
    i + n <= |s| && forall k | i <= k < i + n :: Continuation(s[k])
  }

  lemma {:induction false} SequenceEnds(s: string, i: nat, n: nat)
    requires i <= |s| && Awaited(0, s[..i]) == n
    ensures if Continued(s, i, n) then Awaited(0, s[..i + n]) == 0 else !ValidUtf8(s)
    decreases n
  {
    if n > 0 {
      if i == |s| {
        assert s[..i] == s;
      } else {
        AwaitedStep(s, i);
        if Continuation(s[i]) {
          SequenceEnds(s, i + 1, n - 1);
        } else {
          BrokenStays(s, i + 1);
        }
      }
    }
  }

  /// `utf8_sequence_length`: 0 if there is no sequence at `i`.
  method SequenceLength(s: string, i: nat) returns (n: nat)
    requires i < |s|
    ensures n == if Extra(s[i]) >= 0 && Continued(s, i + 1, Extra(s[i])) then 1 + Extra(s[i]) else 0
  {
    var u := s[i] as int;
    if u < 0x80 {
      return 1;
    }
    var need := if 0xC0 <= u < 0xE0 then 2 else if 0xE0 <= u < 0xF0 then 3 else if 0xF0 <= u < 0xF8 then 4 else 0;
    if need == 0 || need > |s| - i {
      return 0;
    }
    for k := 1 to need
      invariant forall j | i + 1 <= j < i + k :: Continuation(s[j])
    {
      if !Continuation(s[i + k]) {
        return 0;
      }
    }
    n := need;
  }

  /// `is_valid_utf8`.
  method IsValidUtf8(s: string) returns (valid: bool)
    ensures valid == ValidUtf8(s)
  {
    var i := 0;
    while i < |s|
      invariant i <= |s| && Awaited(0, s[..i]) == 0
    {
      var n := SequenceLength(s, i);
      AwaitedStep(s, i);
      if Extra(s[i]) < 0 {
        BrokenStays(s, i + 1);
      } else {
        SequenceEnds(s, i + 1, Extra(s[i]));
      }
      if n == 0 {
        return false;
      }
      i := i + n;
    }
    assert s[..i] == s;
    valid := true;
  }

  lemma {:induction false} AsciiIsValid(s: string)
    requires Ascii(s)
    ensures ValidUtf8(s)
  {
    if s != [] {
      AsciiIsValid(s[..|s| - 1]);
    }
  }

  // ---- Latin-1 ----

  function Coded(c: char): (r: string)
    ensures r != [] && (r == [c] <==> (c as int) < 128)
  {
    var u := c as int;
    if u < 128 then [c] else [(0xC0 + u / 64) as char, (0x80 + u % 64) as char]
  }

  function Transcoded(s: string): string {
    if s == [] then [] else Transcoded(s[..|s| - 1]) + Coded(s[|s| - 1])
  }

  /// `latin1_to_utf8`.
  method Latin1ToUtf8(bytes: string) returns (out: string)
    ensures out == Transcoded(bytes)
  {
    out := [];
    for i := 0 to |bytes|
      invariant out == Transcoded(bytes[..i])
    {
      assert bytes[..i + 1][..i] == bytes[..i];
      out := out + Coded(bytes[i]);
    }
    assert bytes[..|bytes|] == bytes;
  }

  lemma {:induction false} TranscodedConcat(a: string, b: string)
    ensures Transcoded(a + b) == Transcoded(a) + Transcoded(b)
    decreases |b|
  {
    if b == [] {
      assert a + b == a;
    } else {
      assert (a + b)[..|a + b| - 1] == a + b[..|b| - 1];
      TranscodedConcat(a, b[..|b| - 1]);
    }
  }

  lemma {:induction false} TranscodedLength(s: string)
    ensures |s| <= |Transcoded(s)| && (|s| == |Transcoded(s)| <==> Ascii(s))
  {
    if s != [] {
      TranscodedLength(s[..|s| - 1]);
    }
  }

  /// Exactly pure ASCII is kept.
  lemma {:induction false} TranscodedKeeps(s: string)
    ensures Transcoded(s) == s <==> Ascii(s)
  {
    TranscodedLength(s);
    if Ascii(s) && s != [] {
      TranscodedKeeps(s[..|s| - 1]);
    }
  }

  lemma CodedApart(c: char, d: char, a: string, b: string)
    requires a + Coded(c) == b + Coded(d)
    ensures c == d && a == b
  {
    var x := a + Coded(c);
    assert x[|x| - 1] == Coded(c)[|Coded(c)| - 1] == Coded(d)[|Coded(d)| - 1];
    if c as int >= 128 && d as int >= 128 {
      assert x[|x| - 2] == Coded(c)[0] == Coded(d)[0];
    }
    assert Coded(c) == Coded(d);
    assert a == x[..|x| - |Coded(c)|] == b;
  }

  lemma {:induction false} TranscodedInjective(a: string, b: string)
    requires Transcoded(a) == Transcoded(b)
    ensures a == b
    decreases |a|
  {
    if a != [] && b != [] {
      CodedApart(a[|a| - 1], b[|b| - 1], Transcoded(a[..|a| - 1]), Transcoded(b[..|b| - 1]));
      TranscodedInjective(a[..|a| - 1], b[..|b| - 1]);
      assert a == a[..|a| - 1] + [a[|a| - 1]] && b == b[..|b| - 1] + [b[|b| - 1]];
    }
  }

  lemma CodedTaken(c: char)
    requires (c as int) < 256
    ensures Awaited(0, Coded(c)) == 0
  {
    var r := Coded(c);
    AwaitedStep(r, 0);
    if |r| == 1 {
      assert r[..1] == r;
    } else {
      AwaitedStep(r, 1);
      assert r[..2] == r;
    }
  }

  /// Bytes of any kind become UTF-8.
  lemma {:induction false} TranscodedValid(s: string)
    requires Bytes(s)
    ensures ValidUtf8(Transcoded(s))
  {
    if s != [] {
      TranscodedValid(s[..|s| - 1]);
      AwaitedConcat(0, Transcoded(s[..|s| - 1]), Coded(s[|s| - 1]));
      CodedTaken(s[|s| - 1]);
    }
  }
}
