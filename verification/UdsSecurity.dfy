/// Security access: unlocking the server takes the key of the last seed it gave, in every state and in every run.
module UdsSecurity {
  import opened Bits
  import opened Uds
  import opened UdsSteps
  import opened UdsRuns
  import opened UdsLimits

  // ---- One request ----

  /// Outside the default session, service 0x27 with an odd sub-function: asks for a seed.
  predicate AsksSeed(s: State, q: seq<Byte>) {
    !s.session.DefaultSession? && |q| >= 2 && q[0] == 0x27 && q[1] % 128 % 2 == 1
  }

  /// Outside the default session, service 0x27 with the sub-function behind that of the seed and four bytes more.
  predicate SendsKey(s: State, q: seq<Byte>) {
    && !s.session.DefaultSession? && |q| >= 6 && q[0] == 0x27
    && q[1] % 128 % 2 == 0 && (q[1] % 128) as nat == s.securityLevel + 1
  }

  /// The four bytes, most significant first.
  function SentKey(q: seq<Byte>): nat
    requires |q| >= 6
  {
    16777216 * q[2] as nat + 65536 * q[3] as nat + 256 * q[4] as nat + q[5] as nat
  }

  lemma KeyRead(q: seq<Byte>)
    requires |q| >= 6
    ensures ReadBe(q[2..6]) == SentKey(q)
  {
    assert q[2..6] == [q[2], q[3], q[4], q[5]];
    FourRead(q[2], q[3], q[4], q[5]);
  }

  /// A locked server is unlocked by exactly one request: the awaited key.
  lemma UnlocksExactly(s: State, q: seq<Byte>, now: nat)
    requires !s.unlocked
    ensures Handle(s, q, now).0.unlocked <==> SendsKey(s, q) && SentKey(q) == s.cfg.Key(s.lastSeed)
  {
    if |q| >= 6 {
      KeyRead(q);
    }
  }

  /// With the awaited sub-function and other bytes the answer is InvalidKey and nothing changes; with the key it is
  /// positive, unless no answer is wanted, and nothing but the lock changes.
  lemma KeyAnswered(s: State, q: seq<Byte>, now: nat)
    requires SendsKey(s, q)
    ensures Handle(s, q, now)
         == if SentKey(q) != s.cfg.Key(s.lastSeed) then (s, Negative(InvalidKey))
            else (s.(unlocked := true), if q[1] >= 128 then Silence else Positive([q[1]]))
  {
    KeyRead(q);
  }

  /// A locked server gives a fresh seed, an unlocked one 0; it is what the next key is checked against.
  lemma SeedAnswered(s: State, q: seq<Byte>, now: nat)
    requires AsksSeed(s, q)
    ensures var seed := if s.unlocked then 0 else s.cfg.seedAt(now) % 0x1_0000_0000;
            Handle(s, q, now) == (s.(securityLevel := (q[1] % 128) as nat, lastSeed := seed),
                                  if q[1] >= 128 then Silence
                                  else Positive([q[1], seed / 16777216 % 256, seed / 65536 % 256, seed / 256 % 256, seed % 256]))
  {
    var seed := if s.unlocked then 0 else s.cfg.seedAt(now) % WORD;
    assert [SubFunction(q)] + PushBe4(seed)
        == [SubFunction(q), seed / 16777216 % 256, seed / 65536 % 256, seed / 256 % 256, seed % 256];
  }

  /// No other request touches the seed.
  lemma OthersKeepTheSeed(s: State, q: seq<Byte>, now: nat)
    requires !AsksSeed(s, q)
    ensures Handle(s, q, now).0.lastSeed == s.lastSeed && Handle(s, q, now).0.securityLevel == s.securityLevel
    ensures Handle(s, q, now).0.cfg == s.cfg
  {
  }

  /// Only a return to the default session, or a reset, locks an unlocked server.
  lemma LocksExactly(s: State, q: seq<Byte>, now: nat)
    requires s.unlocked
    ensures !Handle(s, q, now).0.unlocked
       <==> |q| >= 2 && ((q[0] == 0x10 && q[1] % 128 == 1) || (q[0] == 0x11 && 1 <= q[1] % 128 <= 5))
  {
  }

  // ---- Every run from power-up ----

  /// Before request `j`.
  function Before(cfg: Config, qs: seq<Request>, j: nat): State
    requires j <= |qs|
  {
    Run(Start(cfg), qs[..j])
  }

  lemma AtStart(cfg: Config, qs: seq<Request>)
    ensures Before(cfg, qs, 0) == Start(cfg)
  {
    assert qs[..0] == [];
  }

  lemma OneFurther(cfg: Config, qs: seq<Request>, j: nat)
    requires j < |qs|
    ensures Before(cfg, qs, j + 1) == Next(Before(cfg, qs, j), qs[j])
  {
    assert qs[..j + 1] == qs[..j] + [qs[j]];
    RunSnoc(Start(cfg), qs[..j], qs[j]);
  }

  /// Request `j` was the last of the first `n` to ask for a seed, and what it got is still awaited.
  ghost predicate SeedFrom(cfg: Config, qs: seq<Request>, n: nat, j: nat) {
    && j < n <= |qs| && AsksSeed(Before(cfg, qs, j), qs[j].bytes)
    && (forall i | j < i < n :: !AsksSeed(Before(cfg, qs, i), qs[i].bytes))
    && Before(cfg, qs, j + 1).lastSeed == Before(cfg, qs, n).lastSeed
  }

  /// After `n` requests: a key has been asked for only if a seed was.
  lemma {:induction false} SeedWasAsked(cfg: Config, qs: seq<Request>, n: nat) returns (j: nat)
    requires n <= |qs| && Before(cfg, qs, n).securityLevel != 0
    ensures SeedFrom(cfg, qs, n, j)
    decreases n
  {
    AtStart(cfg, qs);
    assert n > 0;
    var s, q := Before(cfg, qs, n - 1), qs[n - 1];
    OneFurther(cfg, qs, n - 1);
    if AsksSeed(s, q.bytes) {
      j := n - 1;
    } else {
      OthersKeepTheSeed(s, q.bytes, q.at);
      j := SeedWasAsked(cfg, qs, n - 1);
    }
  }

  /// Request `k` unlocked the server, with the key of the seed that request `j` got, the last one before it, and
  /// the server has stayed unlocked ever since.
  ghost predicate UnlockedBy(cfg: Config, qs: seq<Request>, n: nat, j: nat, k: nat) {
    && j < k < n <= |qs| && SeedFrom(cfg, qs, k, j) && !Before(cfg, qs, k).unlocked
    && SendsKey(Before(cfg, qs, k), qs[k].bytes) && SentKey(qs[k].bytes) == cfg.Key(Before(cfg, qs, j + 1).lastSeed)
    && forall i | k < i <= n :: Before(cfg, qs, i).unlocked
  }

  lemma {:induction false} UnlockedUpTo(cfg: Config, qs: seq<Request>, n: nat) returns (j: nat, k: nat)
    requires n <= |qs| && Before(cfg, qs, n).unlocked
    ensures UnlockedBy(cfg, qs, n, j, k)
    decreases n
  {
    AtStart(cfg, qs);
    assert n > 0;
    var s, q := Before(cfg, qs, n - 1), qs[n - 1];
    OneFurther(cfg, qs, n - 1);
    ConfigStays(cfg, qs, n - 1);
    if s.unlocked {
      j, k := UnlockedUpTo(cfg, qs, n - 1);
    } else {
      UnlocksExactly(s, q.bytes, q.at);
      k := n - 1;
      j := SeedWasAsked(cfg, qs, k);
    }
  }

  lemma {:induction false} ConfigStays(cfg: Config, qs: seq<Request>, n: nat)
    requires n <= |qs|
    ensures Before(cfg, qs, n).cfg == cfg
    decreases n
  {
    AtStart(cfg, qs);
    if n > 0 {
      var s, q := Before(cfg, qs, n - 1), qs[n - 1];
      ConfigStays(cfg, qs, n - 1);
      OneFurther(cfg, qs, n - 1);
      if AsksSeed(s, q.bytes) {
        SeedAnswered(s, q.bytes, q.at);
      } else {
        OthersKeepTheSeed(s, q.bytes, q.at);
      }
    }
  }

  /// In every run from power-up an unlocked server has been sent the key of the last seed it gave.
  lemma UnlockedTakesTheKey(cfg: Config, qs: seq<Request>)
    requires Run(Start(cfg), qs).unlocked
    ensures exists j, k :: UnlockedBy(cfg, qs, |qs|, j, k)
  {
    assert qs[..|qs|] == qs;
    var j, k := UnlockedUpTo(cfg, qs, |qs|);
  }
}
