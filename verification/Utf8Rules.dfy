/// UTF-8 and Latin-1 in numbers.
module Utf8Rules {
  import opened Encoding
  import opened Sources

  /// Bytes 128 to 191, from position 1 to the end.
  predicate Tail(x: string) {
    forall k | 1 <= k < |x| :: 128 <= x[k] as int <= 191
  }

  /// One character: a byte below 128, or 192 to 223 with one byte behind it, 224 to 239 with two, 240 to 247 with three.
  predicate Sequence(x: string) {
    && 1 <= |x| <= 4 && Tail(x)
    && (|x| == 1 ==> 0 <= x[0] as int <= 127) && (|x| == 2 ==> 192 <= x[0] as int <= 223)
    && (|x| == 3 ==> 224 <= x[0] as int <= 239) && (|x| == 4 ==> 240 <= x[0] as int <= 247)
  }

  /// One character after the other.
  ghost predicate Sequences(x: string)
    decreases |x|
  {
    x == [] || exists n: nat :: 1 <= n <= |x| && Sequence(x[..n]) && Sequences(x[n..])
  }

  lemma SequenceComplete(x: string)
    requires Sequence(x)
    ensures ValidUtf8(x)
  {
    assert x[..0] == [];
    AwaitedStep(x, 0);
    SequenceEnds(x, 1, |x| - 1);
    assert x[..|x|] == x;
  }

  lemma FirstSequence(s: string) returns (n: nat)
    requires s != [] && ValidUtf8(s)
    ensures 1 <= n <= |s| && Sequence(s[..n]) && ValidUtf8(s[n..])
  {
    AwaitedStep(s, 0);
    if Extra(s[0]) < 0 {
      BrokenStays(s, 1);
    }
    SequenceEnds(s, 1, Extra(s[0]));
    n := 1 + Extra(s[0]);
    var x := s[..n];
    forall k | 1 <= k < |x|
      ensures 128 <= x[k] as int <= 191
    {
      assert Continuation(s[k]);
    }
    assert s == x + s[n..];
    AwaitedConcat(0, x, s[n..]);
  }

  lemma OneMore(x: string, rest: string)
    requires Sequence(x) && ValidUtf8(rest)
    ensures ValidUtf8(x + rest)
  {
    SequenceComplete(x);
    AwaitedConcat(0, x, rest);
  }

  /// A text is UTF-8 exactly if it is one character after the other.
  lemma ValidExactly(s: string)
    ensures ValidUtf8(s) <==> Sequences(s)
  {
    if ValidUtf8(s) {
      ValidIsSequences(s);
    }
    if Sequences(s) {
      SequencesAreValid(s);
    }
  }

  lemma {:induction false} ValidIsSequences(s: string)
    requires ValidUtf8(s)
    ensures Sequences(s)
    decreases |s|
  {
    if s != [] {
      var n := FirstSequence(s);
      ValidIsSequences(s[n..]);
    }
  }

  lemma {:induction false} SequencesAreValid(s: string)
    requires Sequences(s)
    ensures ValidUtf8(s)
    decreases |s|
  {
    if s != [] {
      var n: nat :| 1 <= n <= |s| && Sequence(s[..n]) && Sequences(s[n..]);
      SequencesAreValid(s[n..]);
      OneMore(s[..n], s[n..]);
      assert s == s[..n] + s[n..];
    }
  }

  /// A byte from 128 on becomes two, that hold its value in five and six bits.
  lemma CodedInNumbers(c: char)
    requires (c as int) < 256
    ensures (c as int) < 128 ==> Coded(c) == [c]
    ensures (c as int) >= 128 ==>
              |Coded(c)| == 2 && Sequence(Coded(c)) && 64 * (Coded(c)[0] as int - 192) + (Coded(c)[1] as int - 128) == c as int
  {
  }

  /// The mark that is passed over in front of a text: 239, 187 and 191.
  lemma MarkInNumbers(bytes: string)
    ensures |bytes| >= 3 && bytes[0] as int == 239 && bytes[1] as int == 187 && bytes[2] as int == 191 ==> Unmarked(bytes) == bytes[3..]
    ensures !(|bytes| >= 3 && bytes[0] as int == 239 && bytes[1] as int == 187 && bytes[2] as int == 191) ==> Unmarked(bytes) == bytes
  {
  }
}
