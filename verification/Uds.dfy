/// The UDS server of sim/src/UdsServer.cpp: sessions, security access, erasing, downloading, verifying,
/// data identifiers and trouble codes, as a function on the server's state and as the object.
module Uds {
  import opened Bits
  import opened Words

  const WORD: nat := 4294967296

  /// A trouble code and its status bits.
  datatype Dtc = Dtc(code: nat, status: Byte)

  /// `seedAt` and `keyOf` stand for the toy seed/key algorithm; all that is known of them is that they
  /// give 32-bit words.
  datatype Config = Config(flashSize: nat, flashBase: nat, pendingPerBlock: nat, eraseDuration: nat,
                           seedAt: nat -> nat, keyOf: nat -> nat, identifiers: map<nat, seq<Byte>>, dtcs: seq<Dtc>) {
    function Key(seed: nat): (k: nat)
      ensures k < WORD
    {
      keyOf(seed) % WORD
    }

    ghost predicate Valid() {
      flashSize < WORD && flashBase < WORD
    }
  }

  datatype Session = DefaultSession | Programming | Extended | Safety

  datatype Nrc =
    | ServiceNotSupported
    | SubFunctionNotSupported
    | IncorrectMessageLength
    | RequestSequenceError
    | RequestOutOfRange
    | SecurityAccessDenied
    | InvalidKey
    | GeneralProgrammingFailure
    | WrongBlockSequenceCounter
    | ResponsePending
    | ServiceNotSupportedInActiveSession

  /// `Undefined` stands where the source would read past the end of flash; `UdsLimits` says when that is.
  datatype Response = Silence | Positive(body: seq<Byte>) | Negative(nrc: Nrc) | Undefined

  const SESSION_CONTROL: Byte := 0x10
  const ECU_RESET: Byte := 0x11
  const CLEAR_DIAGNOSTICS: Byte := 0x14
  const READ_DTC: Byte := 0x19
  const READ_DATA: Byte := 0x22
  const SECURITY_ACCESS: Byte := 0x27
  const COMMUNICATION_CONTROL: Byte := 0x28
  const WRITE_DATA: Byte := 0x2E
  const ROUTINE_CONTROL: Byte := 0x31
  const REQUEST_DOWNLOAD: Byte := 0x34
  const TRANSFER_DATA: Byte := 0x36
  const TRANSFER_EXIT: Byte := 0x37
  const TESTER_PRESENT: Byte := 0x3E

  const ERASE: nat := 0xFF00
  const CHECKSUM: nat := 0xFF01

  datatype State = State(cfg: Config, session: Session, unlocked: bool, lastSeed: nat, securityLevel: nat,
                         flash: seq<Byte>, active: bool, complete: bool, address: nat, size: nat, written: nat,
                         expected: nat, deferred: Response, identifiers: map<nat, seq<Byte>>, dtcs: seq<Dtc>,
                         testerPresent: nat)

  /// Erased flash reads as all ones.
  function Erased(n: nat): (r: seq<Byte>)
    ensures |r| == n
  {
    seq(n, _ => 0xFF)
  }

  function Start(cfg: Config): State {
    State(cfg, DefaultSession, false, 0, 0, Erased(cfg.flashSize), false, false, 0, 0, 0, 1, Silence, cfg.identifiers,
          cfg.dtcs, 0)
  }

  /// `read_be`: a big-endian number, as a 32-bit word.
  function ReadBe(bytes: seq<Byte>): (v: nat)
    ensures v < WORD
  {
    if bytes == [] then 0 else (256 * ReadBe(bytes[..|bytes| - 1]) + bytes[|bytes| - 1] as nat) % WORD
  }

  /// `push_be` of a 32-bit word.
  function PushBe4(v: nat): seq<Byte> {
    [v / 16777216 % 256, v / 65536 % 256, v / 256 % 256, v % 256]
  }

  function PushBe3(v: nat): seq<Byte> {
    [v / 65536 % 256, v / 256 % 256, v % 256]
  }

  function PushBe2(v: nat): seq<Byte> {
    [v / 256 % 256, v % 256]
  }

  function Sum(bytes: seq<Byte>): nat {
    if bytes == [] then 0 else Sum(bytes[..|bytes| - 1]) + bytes[|bytes| - 1] as nat
  }

  predicate HasSubFunction(service: Byte) {
    service in {SESSION_CONTROL, ECU_RESET, READ_DTC, SECURITY_ACCESS, COMMUNICATION_CONTROL, ROUTINE_CONTROL, TESTER_PRESENT}
  }

  function SubFunction(q: seq<Byte>): nat {
    if |q| >= 2 then q[1] % 128 else 0
  }

  /// A positive answer, unless the request asks for none.
  function Answer(q: seq<Byte>, body: seq<Byte>): Response
    requires q != []
  {
    if HasSubFunction(q[0]) && |q| >= 2 && q[1] >= 128 then Silence else Positive(body)
  }

  function OnSession(s: State, q: seq<Byte>): (State, Response)
    requires q != []
  {
    var sub := SubFunction(q);
    if |q| < 2 then (s, Negative(IncorrectMessageLength))
    else if sub < 1 || sub > 4 then (s, Negative(SubFunctionNotSupported))
    else
      var session := if sub == 1 then DefaultSession else if sub == 2 then Programming else if sub == 3 then Extended else Safety;
      (s.(session := session, unlocked := s.unlocked && !session.DefaultSession?),
       Answer(q, [sub] + PushBe2(50) + PushBe2(500)))
  }

  function OnReset(s: State, q: seq<Byte>): (State, Response)
    requires q != []
  {
    var sub := SubFunction(q);
    if |q| < 2 then (s, Negative(IncorrectMessageLength))
    else if sub < 1 || sub > 5 then (s, Negative(SubFunctionNotSupported))
    else (s.(session := DefaultSession, unlocked := false, active := false), Answer(q, [sub]))
  }

  function OnSecurity(s: State, q: seq<Byte>, now: nat): (State, Response)
    requires q != []
  {
    var sub := SubFunction(q);
    if |q| < 2 then (s, Negative(IncorrectMessageLength))
    else if s.session.DefaultSession? then (s, Negative(ServiceNotSupportedInActiveSession))
    else if sub % 2 == 1 then
      var seed := if s.unlocked then 0 else s.cfg.seedAt(now) % WORD;
      (s.(securityLevel := sub, lastSeed := seed), Answer(q, [sub] + PushBe4(seed)))
    else if sub != s.securityLevel + 1 then (s, Negative(RequestSequenceError))
    else if |q| < 6 then (s, Negative(IncorrectMessageLength))
    else if ReadBe(q[2..6]) != s.cfg.Key(s.lastSeed) then (s, Negative(InvalidKey))
    else (s.(unlocked := true), Answer(q, [sub]))
  }

  function OnRoutine(s: State, q: seq<Byte>): (State, Response)
    requires q != []
  {
    if |q| < 4 then (s, Negative(IncorrectMessageLength))
    else
      var routine := ReadBe(q[2..4]);
      var body: seq<Byte> := [SubFunction(q)] + PushBe2(routine);
      if routine == ERASE then
        if !s.unlocked then (s, Negative(SecurityAccessDenied))
        else
          var erased := s.(flash := Erased(|s.flash|));
          if s.cfg.eraseDuration != 0 then (erased.(deferred := Positive(body + [0])), Negative(ResponsePending))
          else (erased, Answer(q, body + [0]))
      else if routine == CHECKSUM && s.written > |s.flash| then (s, Undefined)
      else if routine == CHECKSUM then (s, Answer(q, body + PushBe4(Sum(s.flash[..s.written]) % WORD)))
      else (s, Negative(RequestOutOfRange))
  }

  /// The address and size of a download are read: it is allowed and its format makes sense.
  predicate Announces(s: State, q: seq<Byte>) {
    && |q| >= 4 && q[0] == REQUEST_DOWNLOAD && s.session.Programming? && s.unlocked
    && q[2] % 16 != 0 && q[2] / 16 != 0 && |q| >= 3 + q[2] % 16 + q[2] / 16
  }

  function AnnouncedAddress(q: seq<Byte>): nat
    requires |q| >= 3 && |q| >= 3 + q[2] % 16 + q[2] / 16
  {
    ReadBe(q[3..3 + q[2] % 16])
  }

  function AnnouncedSize(q: seq<Byte>): nat
    requires |q| >= 3 && |q| >= 3 + q[2] % 16 + q[2] / 16
  {
    ReadBe(q[3 + q[2] % 16..3 + q[2] % 16 + q[2] / 16])
  }

  /// The range check, in 32-bit arithmetic.
  predicate InRange(cfg: Config, address: nat, size: nat) {
    address >= cfg.flashBase && (address - cfg.flashBase + size) % WORD <= cfg.flashSize
  }

  /// The announcement begins a download.
  predicate Accepts(s: State, q: seq<Byte>) {
    Announces(s, q) && InRange(s.cfg, AnnouncedAddress(q), AnnouncedSize(q))
  }

  function OnDownload(s: State, q: seq<Byte>): (State, Response)
    requires q != [] && q[0] == REQUEST_DOWNLOAD
  {
    if |q| < 4 then (s, Negative(IncorrectMessageLength))
    else if !s.session.Programming? then (s, Negative(ServiceNotSupportedInActiveSession))
    else if !s.unlocked then (s, Negative(SecurityAccessDenied))
    else if !Announces(s, q) then (s, Negative(IncorrectMessageLength))
    else
      var announced := s.(address := AnnouncedAddress(q), size := AnnouncedSize(q));
      if !Accepts(s, q) then (announced, Negative(RequestOutOfRange))
      else (announced.(active := true, complete := false, written := 0, expected := 1), Answer(q, [0x20] + PushBe2(512)))
  }

  /// Where the next block goes, as a 32-bit word.
  function WriteAt(s: State): nat {
    (s.address - s.cfg.flashBase + s.written) % WORD
  }

  function NextBlock(b: nat): nat {
    if (b + 1) % 256 == 0 then 1 else (b + 1) % 256
  }

  /// The block is the one expected and fits the flash: it is written.
  predicate Writes(s: State, q: seq<Byte>) {
    |q| >= 2 && q[0] == TRANSFER_DATA && s.active && q[1] == s.expected && WriteAt(s) + (|q| - 2) <= |s.flash|
  }

  function Write(s: State, data: seq<Byte>): State
    requires WriteAt(s) + |data| <= |s.flash|
  {
    var at := WriteAt(s);
    s.(flash := s.flash[..at] + data + s.flash[at + |data|..], written := (s.written + |data|) % WORD, expected := NextBlock(s.expected))
  }

  function OnTransfer(s: State, q: seq<Byte>): (State, Response)
    requires q != [] && q[0] == TRANSFER_DATA
  {
    if !s.active then (s, Negative(RequestSequenceError))
    else if |q| < 2 then (s, Negative(IncorrectMessageLength))
    else if q[1] != s.expected then
      (s, if q[1] == (s.expected - 1) % 256 then Answer(q, [q[1]]) else Negative(WrongBlockSequenceCounter))
    else if !Writes(s, q) then (s, Negative(RequestOutOfRange))
    else
      var w := Write(s, q[2..]);
      if s.cfg.pendingPerBlock != 0 then (w.(deferred := Positive([q[1]])), Negative(ResponsePending))
      else (w, Answer(q, [q[1]]))
  }

  function OnExit(s: State, q: seq<Byte>): (State, Response)
    requires q != []
  {
    if !s.active then (s, Negative(RequestSequenceError))
    else if s.written != s.size then (s, Negative(GeneralProgrammingFailure))
    else (s.(active := false, complete := true), Answer(q, []))
  }

  function OnReadData(s: State, q: seq<Byte>): Response
    requires q != []
  {
    if |q| < 3 then Negative(IncorrectMessageLength)
    else
      var id := ReadBe(q[1..3]);
      if id !in s.identifiers then Negative(RequestOutOfRange) else Answer(q, PushBe2(id) + s.identifiers[id])
  }

  /// Identifiers from 0xF100 on identify the part and cannot be written.
  function OnWriteData(s: State, q: seq<Byte>): (State, Response)
    requires q != []
  {
    if |q| < 4 then (s, Negative(IncorrectMessageLength))
    else
      var id := ReadBe(q[1..3]);
      if id !in s.identifiers then (s, Negative(RequestOutOfRange))
      else if id >= 0xF100 then (s, Negative(SecurityAccessDenied))
      else (s.(identifiers := s.identifiers[id := q[3..]]), Answer(q, PushBe2(id)))
  }

  /// What is left of the trouble codes when `group` is cleared.
  function Remaining(dtcs: seq<Dtc>, group: nat): seq<Dtc> {
    if dtcs == [] then []
    else
      var d := dtcs[|dtcs| - 1];
      Remaining(dtcs[..|dtcs| - 1], group) + if d.code / 65536 == group / 65536 then [] else [d]
  }

  function OnClear(s: State, q: seq<Byte>): (State, Response)
    requires q != []
  {
    if |q| < 4 then (s, Negative(IncorrectMessageLength))
    else
      var group := ReadBe(q[1..4]);
      (s.(dtcs := if group == 0xFFFFFF then [] else Remaining(s.dtcs, group)), Answer(q, []))
  }

  function Matching(dtcs: seq<Dtc>, mask: Byte): nat {
    if dtcs == [] then 0
    else Matching(dtcs[..|dtcs| - 1], mask) + if And(dtcs[|dtcs| - 1].status, mask) != 0 then 1 else 0
  }

  function Listed(dtcs: seq<Dtc>, all: bool, mask: Byte): seq<Byte> {
    if dtcs == [] then []
    else
      var d := dtcs[|dtcs| - 1];
      Listed(dtcs[..|dtcs| - 1], all, mask) + if all || And(d.status, mask) != 0 then PushBe3(d.code) + [d.status] else []
  }

  function OnReadDtc(s: State, q: seq<Byte>): Response
    requires q != []
  {
    var sub := SubFunction(q);
    if |q| < 2 then Negative(IncorrectMessageLength)
    else if sub == 1 then
      if |q| < 3 then Negative(IncorrectMessageLength)
      else Answer(q, [sub, 0xFF, 0x01] + PushBe2(Matching(s.dtcs, q[2])))
    else if sub == 2 || sub == 10 then
      Answer(q, [sub, 0xFF] + Listed(s.dtcs, sub == 10, if sub == 2 && |q| >= 3 then q[2] else 0xFF))
    else Negative(SubFunctionNotSupported)
  }

  /// `handle`.
  function Handle(s: State, q: seq<Byte>, now: nat): (State, Response) {
    if q == [] then (s, Silence)
    else if q[0] == SESSION_CONTROL then OnSession(s, q)
    else if q[0] == ECU_RESET then OnReset(s, q)
    else if q[0] == TESTER_PRESENT then
      (s.(testerPresent := s.testerPresent + 1),
       if |q| < 2 || SubFunction(q) != 0 then Negative(SubFunctionNotSupported) else Answer(q, [0]))
    else if q[0] == SECURITY_ACCESS then OnSecurity(s, q, now)
    else if q[0] == ROUTINE_CONTROL then OnRoutine(s, q)
    else if q[0] == REQUEST_DOWNLOAD then OnDownload(s, q)
    else if q[0] == TRANSFER_DATA then OnTransfer(s, q)
    else if q[0] == TRANSFER_EXIT then OnExit(s, q)
    else if q[0] == COMMUNICATION_CONTROL then (s, Answer(q, [SubFunction(q)]))
    else if q[0] == READ_DATA then (s, OnReadData(s, q))
    else if q[0] == WRITE_DATA then OnWriteData(s, q)
    else if q[0] == CLEAR_DIAGNOSTICS then OnClear(s, q)
    else if q[0] == READ_DTC then (s, OnReadDtc(s, q))
    else (s, Negative(ServiceNotSupported))
  }

  // ---- The server ----

  class UdsServer {
    const cfg: Config
    const flash: array<Byte>
    var session: Session
    var unlocked: bool
    var lastSeed: nat
    var securityLevel: nat
    var active: bool
    var complete: bool
    var address: nat
    var size: nat
    var written: nat
    var expected: nat
    var deferred: Response
    var identifiers: map<nat, seq<Byte>>
    var dtcs: seq<Dtc>
    var testerPresent: nat

    ghost function View(): State
      reads this, flash
    {
      State(cfg, session, unlocked, lastSeed, securityLevel, flash[..], active, complete, address, size, written, expected, deferred,
            identifiers, dtcs, testerPresent)
    }

    constructor (cfg: Config)
      ensures View() == Start(cfg) && fresh(flash)
    {
      this.cfg := cfg;
      session, unlocked, lastSeed, securityLevel := DefaultSession, false, 0, 0;
      active, complete, address, size, written, expected, deferred := false, false, 0, 0, 0, 1, Silence;
      identifiers, dtcs, testerPresent := cfg.identifiers, cfg.dtcs, 0;
      flash := new Byte[cfg.flashSize](_ => 0xFF);
      new;
      assert flash[..] == Erased(cfg.flashSize);
    }

    /// `handle`.
    method HandleRequest(q: seq<Byte>, now: nat) returns (r: Response)
      modifies this, flash
      ensures (View(), r) == Handle(old(View()), q, now)
    {
      if q == [] {
        return Silence;
      }
      var sub := SubFunction(q);
      if q[0] == SESSION_CONTROL {
        if |q| < 2 {
          return Negative(IncorrectMessageLength);
        }
        if sub < 1 || sub > 4 {
          return Negative(SubFunctionNotSupported);
        }
        session := if sub == 1 then DefaultSession else if sub == 2 then Programming else if sub == 3 then Extended else Safety;
        if session.DefaultSession? {
          unlocked := false;
        }
        r := Answer(q, [sub] + PushBe2(50) + PushBe2(500));
      } else if q[0] == ECU_RESET {
        if |q| < 2 {
          return Negative(IncorrectMessageLength);
        }
        if sub < 1 || sub > 5 {
          return Negative(SubFunctionNotSupported);
        }
        session, unlocked, active := DefaultSession, false, false;
        r := Answer(q, [sub]);
      } else if q[0] == TESTER_PRESENT {
        testerPresent := testerPresent + 1;
        r := if |q| < 2 || sub != 0 then Negative(SubFunctionNotSupported) else Answer(q, [0]);
      } else if q[0] == SECURITY_ACCESS {
        r := AccessSecurity(q, now);
      } else if q[0] == ROUTINE_CONTROL {
        r := ControlRoutine(q);
      } else if q[0] == REQUEST_DOWNLOAD {
        r := RequestDownload(q);
      } else if q[0] == TRANSFER_DATA {
        r := TransferData(q);
      } else if q[0] == TRANSFER_EXIT {
        if !active {
          return Negative(RequestSequenceError);
        }
        if written != size {
          return Negative(GeneralProgrammingFailure);
        }
        active, complete := false, true;
        r := Answer(q, []);
      } else if q[0] == COMMUNICATION_CONTROL {
        r := Answer(q, [sub]);
      } else if q[0] == READ_DATA {
        r := ReadData(q);
      } else if q[0] == WRITE_DATA {
        r := WriteData(q);
      } else if q[0] == CLEAR_DIAGNOSTICS {
        r := ClearDtcs(q);
      } else if q[0] == READ_DTC {
        r := ReadDtcs(q);
      } else {
        r := Negative(ServiceNotSupported);
      }
    }

    method ReadData(q: seq<Byte>) returns (r: Response)
      requires q != []
      ensures r == OnReadData(View(), q)
    {
      if |q| < 3 {
        return Negative(IncorrectMessageLength);
      }
      var id := ReadBe(q[1..3]);
      if id !in identifiers {
        return Negative(RequestOutOfRange);
      }
      r := Answer(q, PushBe2(id) + identifiers[id]);
    }

    method WriteData(q: seq<Byte>) returns (r: Response)
      requires q != []
      modifies this`identifiers
      ensures (View(), r) == OnWriteData(old(View()), q)
    {
      if |q| < 4 {
        return Negative(IncorrectMessageLength);
      }
      var id := ReadBe(q[1..3]);
      if id !in identifiers {
        return Negative(RequestOutOfRange);
      }
      if id >= 0xF100 {
        return Negative(SecurityAccessDenied);
      }
      identifiers := identifiers[id := q[3..]];
      r := Answer(q, PushBe2(id));
    }

    method ClearDtcs(q: seq<Byte>) returns (r: Response)
      requires q != []
      modifies this`dtcs
      ensures (View(), r) == OnClear(old(View()), q)
    {
      if |q| < 4 {
        return Negative(IncorrectMessageLength);
      }
      var group := ReadBe(q[1..4]);
      var kept: seq<Dtc> := [];
      if group != 0xFFFFFF {
        for i := 0 to |dtcs|
          invariant kept == Remaining(dtcs[..i], group)
        {
          assert dtcs[..i + 1][..i] == dtcs[..i];
          if dtcs[i].code / 65536 != group / 65536 {
            kept := kept + [dtcs[i]];
          }
        }
        assert dtcs[..|dtcs|] == dtcs;
      }
      dtcs := kept;
      r := Answer(q, []);
    }

    method ReadDtcs(q: seq<Byte>) returns (r: Response)
      requires q != []
      ensures r == OnReadDtc(View(), q)
    {
      if |q| < 2 {
        return Negative(IncorrectMessageLength);
      }
      var sub := SubFunction(q);
      if sub == 1 {
        if |q| < 3 {
          return Negative(IncorrectMessageLength);
        }
        var count := CountDtcs(q[2]);
        return Answer(q, [sub, 0xFF, 0x01] + PushBe2(count));
      }
      if sub == 2 || sub == 10 {
        var listed := ListDtcs(sub == 10, if sub == 2 && |q| >= 3 then q[2] else 0xFF);
        return Answer(q, [sub, 0xFF] + listed);
      }
      r := Negative(SubFunctionNotSupported);
    }

    method CountDtcs(mask: Byte) returns (count: nat)
      ensures count == Matching(dtcs, mask)
    {
      count := 0;
      for i := 0 to |dtcs|
        invariant count == Matching(dtcs[..i], mask)
      {
        assert dtcs[..i + 1][..i] == dtcs[..i];
        if And(dtcs[i].status, mask) != 0 {
          count := count + 1;
        }
      }
      assert dtcs[..|dtcs|] == dtcs;
    }

    method ListDtcs(all: bool, mask: Byte) returns (body: seq<Byte>)
      ensures body == Listed(dtcs, all, mask)
    {
      body := [];
      for i := 0 to |dtcs|
        invariant body == Listed(dtcs[..i], all, mask)
      {
        assert dtcs[..i + 1][..i] == dtcs[..i];
        if all || And(dtcs[i].status, mask) != 0 {
          body := body + PushBe3(dtcs[i].code) + [dtcs[i].status];
        }
      }
      assert dtcs[..|dtcs|] == dtcs;
    }

    method AccessSecurity(q: seq<Byte>, now: nat) returns (r: Response)
      requires q != []
      modifies this
      ensures (View(), r) == OnSecurity(old(View()), q, now)
    {
      if |q| < 2 {
        return Negative(IncorrectMessageLength);
      }
      if session.DefaultSession? {
        return Negative(ServiceNotSupportedInActiveSession);
      }
      var sub := SubFunction(q);
      if sub % 2 == 1 {
        securityLevel := sub;
        lastSeed := if unlocked then 0 else cfg.seedAt(now) % WORD;
        return Answer(q, [sub] + PushBe4(lastSeed));
      }
      if sub != securityLevel + 1 {
        return Negative(RequestSequenceError);
      }
      if |q| < 6 {
        return Negative(IncorrectMessageLength);
      }
      if ReadBe(q[2..6]) != cfg.Key(lastSeed) {
        return Negative(InvalidKey);
      }
      unlocked := true;
      r := Answer(q, [sub]);
    }

    method ControlRoutine(q: seq<Byte>) returns (r: Response)
      requires q != []
      modifies this, flash
      ensures (View(), r) == OnRoutine(old(View()), q)
    {
      if |q| < 4 {
        return Negative(IncorrectMessageLength);
      }
      var routine := ReadBe(q[2..4]);
      var body: seq<Byte> := [SubFunction(q)] + PushBe2(routine);
      if routine == ERASE {
        if !unlocked {
          return Negative(SecurityAccessDenied);
        }
        EraseFlash();
        if cfg.eraseDuration != 0 {
          deferred := Positive(body + [0]);
          return Negative(ResponsePending);
        }
        return Answer(q, body + [0]);
      }
      if routine == CHECKSUM {
        if written > flash.Length {
          return Undefined;
        }
        var sum := 0;
        for i := 0 to written
          invariant flash[..] == old(flash[..]) && sum == Sum(flash[..i]) % WORD
        {
          assert flash[..i + 1][..i] == flash[..i];
          sum := (sum + flash[i] as nat) % WORD;
        }
        assert flash[..written] == old(flash[..])[..written];
        return Answer(q, body + PushBe4(sum));
      }
      r := Negative(RequestOutOfRange);
    }

    method EraseFlash()
      modifies flash
      ensures flash[..] == Erased(flash.Length)
    {
      for i := 0 to flash.Length
        invariant forall j | 0 <= j < i :: flash[j] == 0xFF
      {
        flash[i] := 0xFF;
      }
    }

    method RequestDownload(q: seq<Byte>) returns (r: Response)
      requires q != [] && q[0] == REQUEST_DOWNLOAD
      modifies this
      ensures (View(), r) == OnDownload(old(View()), q)
    {
      if |q| < 4 {
        return Negative(IncorrectMessageLength);
      }
      if !session.Programming? {
        return Negative(ServiceNotSupportedInActiveSession);
      }
      if !unlocked {
        return Negative(SecurityAccessDenied);
      }
      var a, n := q[2] % 16, q[2] / 16;
      if a == 0 || n == 0 || |q| < 3 + a + n {
        return Negative(IncorrectMessageLength);
      }
      address := AnnouncedAddress(q);
      size := AnnouncedSize(q);
      if !InRange(cfg, address, size) {
        return Negative(RequestOutOfRange);
      }
      active, complete, written, expected := true, false, 0, 1;
      r := Answer(q, [0x20] + PushBe2(512));
    }

    method TransferData(q: seq<Byte>) returns (r: Response)
      requires q != [] && q[0] == TRANSFER_DATA
      modifies this, flash
      ensures (View(), r) == OnTransfer(old(View()), q)
    {
      if !active {
        return Negative(RequestSequenceError);
      }
      if |q| < 2 {
        return Negative(IncorrectMessageLength);
      }
      var block := q[1];
      if block != expected {
        var previous := (expected - 1) % 256;
        if block == previous {
          return Answer(q, [block]);
        }
        return Negative(WrongBlockSequenceCounter);
      }
      var count := |q| - 2;
      var offset := (address - cfg.flashBase + written) % WORD;
      if offset + count > flash.Length {
        return Negative(RequestOutOfRange);
      }
      Copy(q[2..], offset);
      written := (written + count) % WORD;
      expected := (expected + 1) % 256;
      if expected == 0 {
        expected := 1;
      }
      if cfg.pendingPerBlock != 0 {
        deferred := Positive([block]);
        return Negative(ResponsePending);
      }
      r := Answer(q, [block]);
    }

    method Copy(data: seq<Byte>, at: nat)
      requires at + |data| <= flash.Length
      modifies flash
      ensures flash[..] == old(flash[..at]) + data + old(flash[at + |data|..])
    {
      for i := 0 to |data|
        invariant flash[..at] == old(flash[..at]) && flash[at..at + i] == data[..i]
        invariant flash[at + i..] == old(flash[at + i..])
      {
        flash[at + i] := data[i];
      }
      assert flash[..] == flash[..at] + flash[at..at + |data|] + flash[at + |data|..];
    }
  }
}
