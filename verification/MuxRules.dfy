/// Multiplexing in numbers: which switch a signal has, and for which of its values the signal is there.
module MuxRules {
  import opened Bits
  import opened Words
  import opened Signal
  import opened SignalCodec
  import opened Multiplexing

  /// A switched signal is there for the values in its ranges, bounds included, or for its one value if it has none; any
  /// other signal always is.
  lemma PresentExactly(s: MuxSignal, v: nat)
    ensures s.PresentFor(v) <==>
            || (s.role.Plain? || s.role.Multiplexor?)
            || (s.ranges == [] && v == s.value)
            || exists k :: 0 <= k < |s.ranges| && !(v < s.ranges[k].low) && !(s.ranges[k].high < v)
  {
    if k :| 0 <= k < |s.ranges| && s.ranges[k].low <= v <= s.ranges[k].high {
      assert !(v < s.ranges[k].low) && !(s.ranges[k].high < v);
    }
    if k :| 0 <= k < |s.ranges| && !(v < s.ranges[k].low) && !(s.ranges[k].high < v) {
      assert s.ranges[k].low <= v <= s.ranges[k].high;
    }
  }

  // ---- Which switch ----

  lemma {:induction false} FirstNamedIs(m: Message, name: string, i: nat)
    requires i <= |m|
    ensures match FirstNamed(m, name, i)
            case Signal(k) => i <= k < |m| && m[k].name == name && forall j | i <= j < k :: m[j].name != name
            case Nobody => forall j | i <= j < |m| :: m[j].name != name
    decreases |m| - i
  {
    if i < |m| {
      FirstNamedIs(m, name, i + 1);
    }
  }

  /// A signal that names its switch has the first signal of that name, if there is one.
  lemma NamedSwitch(m: Message, i: nat, k: nat)
    requires i < |m| && m[i].switchName != ""
    ensures SwitchOf(m, i) == Found.Signal(k)
       <==> k < |m| && m[k].name == m[i].switchName && forall j | 0 <= j < k :: m[j].name != m[i].switchName
  {
    FirstNamedIs(m, m[i].switchName, 0);
  }

  /// A multiplexor, and with `free` one that is not switched itself.
  predicate IsSwitch(s: MuxSignal, free: bool) {
    s.role.Multiplexor? && (free ==> s.switchName == "")
  }

  lemma {:induction false} FirstRootIs(m: Message, named: bool, i: nat)
    requires i <= |m|
    ensures match FirstRoot(m, named, i)
            case Signal(k) => i <= k < |m| && IsSwitch(m[k], !named) && forall j | i <= j < k :: !IsSwitch(m[j], !named)
            case Nobody => forall j | i <= j < |m| :: !IsSwitch(m[j], !named)
    decreases |m| - i
  {
    if i < |m| {
      FirstRootIs(m, named, i + 1);
    }
  }

  /// One that names none has the first multiplexor that is not switched itself, or else the first there is.
  lemma UnnamedSwitch(m: Message, i: nat, k: nat)
    requires i < |m| && m[i].switchName == ""
    ensures SwitchOf(m, i) == Found.Signal(k)
       <==> && k < |m| && m[k].role.Multiplexor?
            && if exists j :: 0 <= j < |m| && IsSwitch(m[j], true)
               then m[k].switchName == "" && forall j | 0 <= j < k :: !IsSwitch(m[j], true)
               else forall j | 0 <= j < k :: !m[j].role.Multiplexor?
  {
    FirstRootIs(m, false, 0);
    FirstRootIs(m, true, 0);
  }

  // ---- What the switch reads ----

  lemma {:induction false} LowIsRemainder(a: nat, n: nat, p: nat)
    requires p == Pow2(n)
    ensures p > 0 && Low(a, n) == a % p
  {
    if n > 0 {
      LowIsRemainder(a / 2, n - 1, Pow2(n - 1));
      HalfRemainder(a, Pow2(n - 1));
    }
  }

  lemma HalfRemainder(a: nat, p: nat)
    requires p > 0
    ensures 2 * (a / 2 % p) + a % 2 == a % (2 * p)
  {
    var h := a / 2;
    var q, r := h / p, h % p;
    assert h == p * q + r;
    assert a == (2 * p) * q + (2 * r + a % 2);
    RemainderOf(a, 2 * p, q, 2 * r + a % 2);
  }

  lemma RemainderOf(a: nat, d: nat, q: nat, r: nat)
    requires d > 0 && a == d * q + r && r < d
    ensures a % d == r
  {
    var e := a / d;
    if e > q {
      Larger(d, q + 1, e);
    } else if e < q {
      Larger(d, e + 1, q);
    }
  }

  lemma Larger(c: nat, a: nat, b: nat)
    requires a <= b
    ensures c * a <= c * b
  {
  }

  /// A switch selects a signal when it fits the frame and its value, as a 32-bit word, is one the signal is there for.
  lemma SelectsExactly(m: Message, data: seq<Byte>, sw: nat, i: nat)
    requires sw < |m| && i < |m|
    ensures Selects(m, data, sw, i) <==> m[sw].layout.Fits(|data|) && m[i].PresentFor(Raw(data, m[sw].layout) % 0x1_0000_0000)
  {
    if m[sw].layout.Fits(|data|) {
      ThirtyTwo();
      LowIsRemainder(Raw(data, m[sw].layout), 32, 0x1_0000_0000);
    }
  }

  lemma ThirtyTwo()
    ensures Pow2(32) == 0x1_0000_0000
  {
    SixteenBits();
    assert Pow2(20) == 1048576;
    assert Pow2(24) == 16777216;
    assert Pow2(28) == 268435456;
  }

  /// What needs no switch: a plain signal, and a multiplexor that names none.
  lemma RootExactly(s: MuxSignal)
    ensures s.IsRoot() <==> s.role == Plain || (s.role == Multiplexor && s.switchName == "")
  {
  }
}
