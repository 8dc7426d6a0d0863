/// Nested multiplexing, as core/include/canforge/core/Message.hpp resolves it for a received frame.
module Multiplexing {
  import opened Bits
  import opened Words
  import opened Signal
  import opened SignalCodec

  datatype Role = Plain | Multiplexor | Multiplexed | Both

  datatype MuxRange = MuxRange(low: nat, high: nat)

  datatype MuxSignal = MuxSignal(name: string, layout: Layout, role: Role, switchName: string, value: nat, ranges: seq<MuxRange>) {
    /// Always on the wire.
    predicate IsRoot() {
      role.Plain? || (role.Multiplexor? && switchName == "")
    }

    /// `is_present_for`: the switch value `v` selects the signal.
    predicate PresentFor(v: nat) {
      if !role.Multiplexed? && !role.Both? then true
      else if ranges != [] then exists k | 0 <= k < |ranges| :: ranges[k].low <= v <= ranges[k].high
      else value == v
    }
  }

  type Message = seq<MuxSignal>

  // ---- Who switches whom ----

  datatype Found = Nobody | Signal(index: nat)

  function FirstNamed(m: Message, name: string, i: nat): (r: Found)
    requires i <= |m|
    ensures r.Signal? ==> r.index < |m| && m[r.index].name == name
    decreases |m| - i
  {
    if i == |m| then Nobody else if m[i].name == name then Signal(i) else FirstNamed(m, name, i + 1)
  }

  function FirstRoot(m: Message, named: bool, i: nat): (r: Found)
    requires i <= |m|
    ensures r.Signal? ==> r.index < |m|
    decreases |m| - i
  {
    if i == |m| then Nobody
    else if m[i].role.Multiplexor? && (named || m[i].switchName == "") then Signal(i)
    else FirstRoot(m, named, i + 1)
  }

  /// `multiplexor`: the first that is not itself switched, or else the first of any kind.
  function RootSwitch(m: Message): (r: Found)
    ensures r.Signal? ==> r.index < |m|
  {
    var r := FirstRoot(m, false, 0);
    if r.Signal? then r else FirstRoot(m, true, 0)
  }

  /// The signal that switches signal `i`.
  function SwitchOf(m: Message, i: nat): (r: Found)
    requires i < |m|
    ensures r.Signal? ==> r.index < |m|
  {
    if m[i].switchName == "" then RootSwitch(m) else FirstNamed(m, m[i].switchName, 0)
  }

  /// The switch fits the frame and its value selects the signal.
  function Selects(m: Message, data: seq<Byte>, sw: nat, i: nat): bool
    requires sw < |m| && i < |m|
  {
    m[sw].layout.Fits(|data|) && m[i].PresentFor(Low(Raw(data, m[sw].layout), 32))
  }

  const MAX_DEPTH: nat := 8

  /// `is_signal_active`.
  function IsActive(m: Message, data: seq<Byte>, i: nat, depth: nat): bool
    requires i < |m|
    decreases MAX_DEPTH + 2 - depth
  {
    if m[i].IsRoot() then true
    else if depth > MAX_DEPTH then false
    else
      var sw := SwitchOf(m, i);
      sw.Signal? && sw.index != i && IsActive(m, data, sw.index, depth + 1) && Selects(m, data, sw.index, i)
  }

  // ---- What it means ----

  /// A chain of switches from `path[0]` up to a root, each selecting the signal below.
  ghost predicate Chain(m: Message, data: seq<Byte>, path: seq<nat>) {
    && path != [] && path[0] < |m|
    && if |path| == 1 then m[path[0]].IsRoot()
       else
         && !m[path[0]].IsRoot() && SwitchOf(m, path[0]) == Signal(path[1]) && path[1] != path[0]
         && Selects(m, data, path[1], path[0]) && Chain(m, data, path[1..])
  }

  lemma {:induction false} ActiveHasChain(m: Message, data: seq<Byte>, i: nat, depth: nat) returns (path: seq<nat>)
    requires i < |m| && IsActive(m, data, i, depth) && depth <= MAX_DEPTH + 1
    ensures Chain(m, data, path) && path[0] == i && |path| <= MAX_DEPTH + 2 - depth
    decreases MAX_DEPTH + 2 - depth
  {
    if m[i].IsRoot() {
      path := [i];
    } else {
      var rest := ActiveHasChain(m, data, SwitchOf(m, i).index, depth + 1);
      path := [i] + rest;
      assert path[1..] == rest;
    }
  }

  lemma {:induction false} ChainIsActive(m: Message, data: seq<Byte>, path: seq<nat>, depth: nat)
    requires Chain(m, data, path) && |path| + depth <= MAX_DEPTH + 2
    ensures IsActive(m, data, path[0], depth)
    decreases |path|
  {
    if |path| > 1 {
      ChainIsActive(m, data, path[1..], depth + 1);
    }
  }

  /// A signal is active exactly when at most nine links lead from it to a root, every switch on the way
  /// fits the frame, and each selects the level below.
  lemma ActiveExactly(m: Message, data: seq<Byte>, i: nat)
    requires i < |m|
    ensures IsActive(m, data, i, 0) <==> exists path :: Chain(m, data, path) && path[0] == i && |path| <= 10
  {
    if IsActive(m, data, i, 0) {
      var path := ActiveHasChain(m, data, i, 0);
    }
    if path :| Chain(m, data, path) && path[0] == i && |path| <= 10 {
      ChainIsActive(m, data, path, 0);
    }
  }

  /// `k` switches above `i`, if there are so many.
  ghost predicate Above(m: Message, i: nat, j: nat, k: nat)
    requires i < |m|
    decreases k
  {
    if k == 0 then i == j
    else !m[i].IsRoot() && SwitchOf(m, i).Signal? && Above(m, SwitchOf(m, i).index, j, k - 1)
  }

  /// The chain of a signal passes through whatever is above it.
  lemma {:induction false} ChainPassesThrough(m: Message, data: seq<Byte>, path: seq<nat>, j: nat, k: nat)
    requires Chain(m, data, path) && Above(m, path[0], j, k)
    ensures k < |path| && path[k] == j && Chain(m, data, path[k..])
    decreases k
  {
    if k == 0 {
      assert path[0..] == path;
    } else {
      ChainPassesThrough(m, data, path[1..], j, k - 1);
      assert path[1..][k - 1..] == path[k..];
    }
  }

  lemma {:induction false} NoChainOnACycle(m: Message, data: seq<Byte>, path: seq<nat>, k: nat)
    requires Chain(m, data, path) && k > 0
    ensures !Above(m, path[0], path[0], k)
    decreases |path|
  {
    if Above(m, path[0], path[0], k) {
      ChainPassesThrough(m, data, path, path[0], k);
      NoChainOnACycle(m, data, path[k..], k);
    }
  }

  /// A signal that is switched, through any number of levels, by itself is never active.
  lemma CycleIsInactive(m: Message, data: seq<Byte>, i: nat, k: nat)
    requires i < |m| && k > 0 && Above(m, i, i, k)
    ensures !IsActive(m, data, i, 0)
  {
    if IsActive(m, data, i, 0) {
      var path := ActiveHasChain(m, data, i, 0);
      NoChainOnACycle(m, data, path, k);
    }
  }

  // ---- Visiting ----

  /// The conversion of a signal's raw value to a physical one.
  type Scale = (MuxSignal, nat) -> real

  /// What the callback gets: the signal, its raw value, and the physical value that stands for.
  datatype Visit = Visit(index: nat, raw: nat, physical: real)

  /// The signals among the first `n` that fit the frame and are active, in order, with their values.
  function Visits(m: Message, data: seq<Byte>, scale: Scale, n: nat): seq<Visit>
    requires n <= |m|
  {
    if n == 0 then []
    else
      var raw := if m[n - 1].layout.Fits(|data|) then Raw(data, m[n - 1].layout) else 0;
      Visits(m, data, scale, n - 1)
      + if m[n - 1].layout.Fits(|data|) && IsActive(m, data, n - 1, 0) then [Visit(n - 1, raw, scale(m[n - 1], raw))] else []
  }

  /// `for_each_active_signal`, collecting what it passes to its callback.
  method ForEachActiveSignal(m: Message, data: array<Byte>, scale: Scale) returns (visits: seq<Visit>)
    ensures visits == Visits(m, data[..], scale, |m|)
  {
    visits := [];
    for i := 0 to |m|
      invariant visits == Visits(m, data[..], scale, i)
    {
      if !m[i].layout.Fits(data.Length) {
        continue;
      }
      if !IsActive(m, data[..], i, 0) {
        continue;
      }
      var raw := DecodeRaw(m[i].layout, data);
      visits := visits + [Visit(i, raw, scale(m[i], raw))];
    }
  }

  predicate Wanted(m: Message, data: seq<Byte>, i: nat)
    requires i < |m|
  {
    m[i].layout.Fits(|data|) && IsActive(m, data, i, 0)
  }

  ghost predicate Right(m: Message, data: seq<Byte>, scale: Scale, v: Visit, n: nat)
    requires n <= |m|
  {
    && v.index < n && Wanted(m, data, v.index) && v.raw == Raw(data, m[v.index].layout)
    && v.physical == scale(m[v.index], v.raw)
  }

  ghost predicate AllRight(m: Message, data: seq<Byte>, scale: Scale, vs: seq<Visit>, n: nat)
    requires n <= |m|
  {
    && (forall k | 0 <= k < |vs| :: Right(m, data, scale, vs[k], n))
    && (forall j, k | 0 <= j < k < |vs| :: vs[j].index < vs[k].index)
  }

  lemma OneMoreRight(m: Message, data: seq<Byte>, scale: Scale, vs: seq<Visit>, n: nat, v: Visit)
    requires n < |m| && AllRight(m, data, scale, vs, n)
    ensures AllRight(m, data, scale, vs, n + 1)
    ensures v.index == n && Right(m, data, scale, v, n + 1) ==> AllRight(m, data, scale, vs + [v], n + 1)
  {
    assert forall k | 0 <= k < |vs| :: Right(m, data, scale, vs[k], n) && vs[k].index < n;
  }

  /// Only signals that fit and are active are visited, with their values, none twice or out of order.
  lemma {:induction false} VisitsExactly(m: Message, data: seq<Byte>, scale: Scale, n: nat)
    requires n <= |m|
    ensures AllRight(m, data, scale, Visits(m, data, scale, n), n)
  {
    if n > 0 {
      var before := Visits(m, data, scale, n - 1);
      VisitsExactly(m, data, scale, n - 1);
      var raw := if m[n - 1].layout.Fits(|data|) then Raw(data, m[n - 1].layout) else 0;
      OneMoreRight(m, data, scale, before, n - 1, Visit(n - 1, raw, scale(m[n - 1], raw)));
    }
  }

  lemma {:induction false} NoneMissed(m: Message, data: seq<Byte>, scale: Scale, n: nat, i: nat) returns (k: nat)
    requires i < n <= |m| && Wanted(m, data, i)
    ensures var vs := Visits(m, data, scale, n);
            k < |vs| && vs[k].index == i && Right(m, data, scale, vs[k], n)
  {
    if i == n - 1 {
      k := |Visits(m, data, scale, n - 1)|;
    } else {
      k := NoneMissed(m, data, scale, n - 1, i);
    }
  }
}
