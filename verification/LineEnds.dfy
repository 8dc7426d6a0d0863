/// Line ends: what a writer makes of them on request and what reading a source makes of them.
module LineEnds {

  // ---- Reading ----

  /// A carriage return, and a newline right behind it, become one newline.
  function Unified(s: string): (r: string)
    ensures forall k | 0 <= k < |r| :: r[k] != '\r'
  {
    if s == [] then []
    else if s[0] != '\r' then [s[0]] + Unified(s[1..])
    else if |s| > 1 && s[1] == '\n' then ['\n'] + Unified(s[2..])
    else ['\n'] + Unified(s[1..])
  }

  /// The last line gets its newline.
  function Completed(s: string): string {
    if s != [] && s[|s| - 1] != '\n' then s + ['\n'] else s
  }

  lemma UnifiedStep(s: string, i: nat, j: nat)
    requires i < |s| && j == (if s[i] == '\r' && i + 1 < |s| && s[i + 1] == '\n' then i + 2 else i + 1)
    ensures Unified(s[i..]) == [if s[i] == '\r' then '\n' else s[i]] + Unified(s[j..])
  {
    assert s[i..][j - i..] == s[j..];
  }

  lemma Regroup(a: string, b: string, c: string)
    ensures a + (b + c) == a + b + c
  {
  }

  /// `Source::normalise`, steps 3 and 4.
  method UnifyLines(bytes: string) returns (text: string)
    ensures text == Completed(Unified(bytes))
  {
    text := [];
    var i := 0;
    assert bytes[0..] == bytes;
    while i < |bytes|
      invariant i <= |bytes| && Unified(bytes) == text + Unified(bytes[i..])
    {
      var c, next := bytes[i], i + 1;
      if c == '\r' {
        if next < |bytes| && bytes[next] == '\n' {
          next := next + 1;
        }
        c := '\n';
      }
      UnifiedStep(bytes, i, next);
      Regroup(text, [c], Unified(bytes[next..]));
      text := text + [c];
      i := next;
    }
    if text != [] && text[|text| - 1] != '\n' {
      text := text + ['\n'];
    }
  }

  // ---- Writing ----

  /// A carriage return in front of every newline.
  function Returned(s: string): string {
    if s == [] then [] else Returned(s[..|s| - 1]) + (if s[|s| - 1] == '\n' then ['\r', '\n'] else [s[|s| - 1]])
  }

  /// The end of `write_string`.
  method WithReturns(text: string) returns (crlf: string)
    ensures crlf == Returned(text)
  {
    crlf := [];
    for i := 0 to |text|
      invariant crlf == Returned(text[..i])
    {
      assert text[..i + 1][..i] == text[..i];
      if text[i] == '\n' {
        crlf := crlf + ['\r'];
      }
      crlf := crlf + [text[i]];
    }
    assert text[..|text|] == text;
  }

  // ---- One undoes the other ----

  predicate HasReturn(s: string) {
    exists k | 0 <= k < |s| :: s[k] == '\r'
  }

  /// Every carriage return becomes a newline of its own.
  function Replaced(s: string): string {
    seq(|s|, k requires 0 <= k < |s| => if s[k] == '\r' then '\n' else s[k])
  }

  /// Text without carriage returns is kept, and only that.
  lemma {:induction false} UnifiedKeeps(s: string)
    ensures Unified(s) == s <==> !HasReturn(s)
  {
    if !HasReturn(s) && s != [] {
      assert forall k | 0 <= k < |s[1..]| :: s[1..][k] == s[k + 1];
      UnifiedKeeps(s[1..]);
    }
  }

  lemma ReplacedKeeps(s: string)
    ensures Replaced(s) == s <==> !HasReturn(s)
  {
    if HasReturn(s) {
      var k :| 0 <= k < |s| && s[k] == '\r';
      assert Replaced(s)[k] == '\n';
    } else {
      assert Replaced(s) == s;
    }
  }

  /// Line ends are those of the parts, unless one falls between them.
  lemma {:induction false} UnifiedConcat(a: string, b: string)
    requires a == [] || b == [] || a[|a| - 1] != '\r' || b[0] != '\n'
    ensures Unified(a + b) == Unified(a) + Unified(b)
    decreases |a|
  {
    if a == [] {
      assert a + b == b;
    } else if b == [] {
      assert a + b == a;
    } else {
      var n := if a[0] == '\r' && |a| > 1 && a[1] == '\n' then 2 else 1;
      assert (a + b)[n..] == a[n..] + b;
      UnifiedConcat(a[n..], b);
    }
  }

  /// Reading what was written with carriage returns gives back the newlines.
  lemma {:induction false} ReturnedUnifies(s: string)
    ensures Unified(Returned(s)) == Replaced(s)
    decreases |s|
  {
    if s != [] {
      var front, c := s[..|s| - 1], s[|s| - 1];
      ReturnedUnifies(front);
      var tail := if c == '\n' then ['\r', '\n'] else [c];
      UnifiedConcat(Returned(front), tail);
      UnifiedEnd(c);
      assert Replaced(s) == Replaced(front) + Replaced([c]);
    }
  }

  lemma UnifiedEnd(c: char)
    ensures Unified(if c == '\n' then ['\r', '\n'] else [c]) == Replaced([c])
  {
    if c == '\n' {
      assert ['\r', '\n'][2..] == [];
    } else {
      assert [c][1..] == [];
    }
  }

  // ---- What reading does, position by position ----

  /// Without the newlines that stand right behind a carriage return.
  function Unpaired(s: string): string {
    if s == [] then []
    else
      var (front, c) := (s[..|s| - 1], s[|s| - 1]);
      Unpaired(front) + if c == '\n' && front != [] && front[|front| - 1] == '\r' then [] else [c]
  }

  lemma UnifiedPair(a: string, front: string, s: string)
    requires front == a + ['\r'] && s == a + ['\r', '\n']
    ensures Unified(s) == Unified(front)
  {
    UnifiedConcat(a, ['\r']);
    UnifiedConcat(a, ['\r', '\n']);
    assert ['\r'][1..] == [] && ['\r', '\n'][2..] == [];
  }

  lemma UnifiedAfter(front: string, c: char, s: string)
    requires s == front + [c] && !(c == '\n' && front != [] && front[|front| - 1] == '\r')
    ensures Unified(s) == Unified(front) + Replaced([c])
  {
    UnifiedConcat(front, [c]);
    OneUnified(c);
  }

  lemma OneUnified(c: char)
    ensures Unified([c]) == Replaced([c])
  {
    assert [c][1..] == [];
  }

  lemma ReplacedAfter(x: string, c: char)
    ensures Replaced(x + [c]) == Replaced(x) + Replaced([c])
  {
  }

  lemma UnpairedStep(front: string, c: char, s: string, paired: bool)
    requires s == front + [c] && paired == (c == '\n' && front != [] && front[|front| - 1] == '\r')
    ensures Unpaired(s) == if paired then Unpaired(front) else Unpaired(front) + [c]
  {
    assert s[..|s| - 1] == front;
    assert Unpaired(front) + [] == Unpaired(front);
  }

  /// Those are dropped, and every carriage return is a newline.
  lemma {:induction false} UnifiedExactly(s: string)
    ensures Unified(s) == Replaced(Unpaired(s))
    decreases |s|
  {
    if s != [] {
      var front, c := s[..|s| - 1], s[|s| - 1];
      var paired := c == '\n' && front != [] && front[|front| - 1] == '\r';
      UnifiedExactly(front);
      UnpairedStep(front, c, s, paired);
      if paired {
        UnifiedPair(front[..|front| - 1], front, s);
      } else {
        UnifiedAfter(front, c, s);
        ReplacedAfter(Unpaired(front), c);
      }
    }
  }

  /// At most one newline is added, and then every line has one.
  lemma CompletedExactly(s: string)
    ensures s == [] || s[|s| - 1] == '\n' ==> Completed(s) == s
    ensures s != [] && s[|s| - 1] != '\n' ==> Completed(s) == s + ['\n']
  {
  }
}
