/// The services of the UDS server byte by byte: what each request does to the server and what it is answered.
module UdsServices {
  import opened Bits
  import opened Words
  import opened Uds
  import opened UdsSteps

  /// A positive answer, unless the request asks for none.
  function Unless(q: seq<Byte>, body: seq<Byte>): Response
    requires |q| >= 2
  {
    if q[1] >= 128 then Silence else Positive(body)
  }

  // ---- Sessions ----

  /// 10 01 to 10 04: the session, and the times 50 and 500; going back to the default session locks the server.
  lemma SessionControl(s: State, q: seq<Byte>, now: nat)
    requires |q| >= 2 && q[0] == 0x10
    ensures var (t, r) := Handle(s, q, now);
            if 1 <= q[1] % 128 <= 4 then
              && t == s.(session := t.session, unlocked := s.unlocked && q[1] % 128 != 1)
              && (q[1] % 128 == 1 ==> t.session.DefaultSession?) && (q[1] % 128 == 2 ==> t.session.Programming?)
              && (q[1] % 128 == 3 ==> t.session.Extended?) && (q[1] % 128 == 4 ==> t.session.Safety?)
              && r == Unless(q, [q[1] % 128, 0, 50, 1, 244])
            else t == s && r == Negative(SubFunctionNotSupported)
  {
    var sub: Byte := q[1] % 128;
    assert [sub] + PushBe2(50) + PushBe2(500) == [sub, 0, 50, 1, 244];
  }

  /// 11 01 to 11 05: back to the default session, locked, and no download.
  lemma Reset(s: State, q: seq<Byte>, now: nat)
    requires |q| >= 2 && q[0] == 0x11
    ensures Handle(s, q, now)
         == if 1 <= q[1] % 128 <= 5 then (s.(session := DefaultSession, unlocked := false, active := false), Unless(q, [q[1] % 128]))
            else (s, Negative(SubFunctionNotSupported))
  {
  }

  /// 3E 00 keeps the session alive and changes nothing else.
  lemma TesterPresent(s: State, q: seq<Byte>, now: nat)
    requires |q| >= 2 && q[0] == 0x3E
    ensures Handle(s, q, now)
         == (s.(testerPresent := s.testerPresent + 1),
             if q[1] % 128 == 0 then Unless(q, [0]) else Negative(SubFunctionNotSupported))
  {
  }

  // ---- Routines ----

  /// 31 xx FF 00: an unlocked server erases all of flash, and answers at once or after its pending response.
  lemma Erase(s: State, q: seq<Byte>, now: nat)
    requires |q| == 4 && q[0] == 0x31 && q[2] == 0xFF && q[3] == 0x00
    ensures var (t, r) := Handle(s, q, now);
            if !s.unlocked then t == s && r == Negative(SecurityAccessDenied)
            else
              && t == s.(flash := t.flash, deferred := t.deferred)
              && |t.flash| == |s.flash| && (forall k | 0 <= k < |t.flash| :: t.flash[k] == 0xFF)
              && (if s.cfg.eraseDuration == 0 then r == Unless(q, [q[1] % 128, 0xFF, 0x00, 0])
                  else r == Negative(ResponsePending) && t.deferred == Positive([q[1] % 128, 0xFF, 0x00, 0]))
  {
    RoutineNumber(q);
    assert [SubFunction(q) as Byte] + PushBe2(0xFF00) + [0] == [q[1] % 128, 0xFF, 0x00, 0];
  }

  /// Any other routine but FF 01 there is not.
  lemma OtherRoutines(s: State, q: seq<Byte>, now: nat)
    requires |q| == 4 && q[0] == 0x31 && !(q[2] == 0xFF && q[3] <= 1)
    ensures Handle(s, q, now) == (s, Negative(RequestOutOfRange))
  {
    var none: seq<Byte> := [];
    ReadBeSnoc(none, q[2]);
    ReadBeSnoc(none + [q[2]], q[3]);
    assert q[2..4] == none + [q[2]] + [q[3]];
  }

  // ---- Downloads ----

  /// 34: refused in this order outside the programming session, while locked, and for lengths of zero; an address and a
  /// size that fit flash begin a download.
  lemma Download(s: State, q: seq<Byte>, now: nat)
    requires |q| >= 4 && q[0] == 0x34
    ensures var (t, r) := Handle(s, q, now);
            && (!s.session.Programming? ==> t == s && r == Negative(ServiceNotSupportedInActiveSession))
            && (s.session.Programming? && !s.unlocked ==> t == s && r == Negative(SecurityAccessDenied))
            && (s.session.Programming? && s.unlocked && (q[2] % 16 == 0 || q[2] / 16 == 0 || |q| < 3 + q[2] % 16 + q[2] / 16) ==>
                  t == s && r == Negative(IncorrectMessageLength))
  {
  }

  /// With four bytes of each: the region must not begin below flash, nor, in 32-bit arithmetic, end behind it.
  lemma DownloadAccepted(s: State, q: seq<Byte>, address: nat, size: nat, now: nat)
    requires s.session.Programming? && s.unlocked && address < WORD && size < WORD
    requires q == [0x34, 0x00, 0x44] + PushBe4(address) + PushBe4(size)
    ensures Handle(s, q, now)
         == if address >= s.cfg.flashBase && (address - s.cfg.flashBase + size) % 0x1_0000_0000 <= s.cfg.flashSize then
              (s.(address := address, size := size, active := true, complete := false, written := 0, expected := 1),
               Positive([0x20, 0x02, 0x00]))
            else (s.(address := address, size := size), Negative(RequestOutOfRange))
  {
    DownloadRead(address, size, q);
    assert [0x20 as Byte] + PushBe2(512) == [0x20, 0x02, 0x00];
  }

  /// 36: the block must be the one expected; the one before it is answered again, and any other refused.
  lemma Transfer(s: State, q: seq<Byte>, now: nat)
    requires |q| >= 2 && q[0] == 0x36
    ensures var (t, r) := Handle(s, q, now);
            && (!s.active ==> t == s && r == Negative(RequestSequenceError))
            && (s.active && q[1] != s.expected ==>
                  t == s && r == if q[1] as nat == (s.expected - 1) % 256 then Positive([q[1]]) else Negative(WrongBlockSequenceCounter))
            && (s.active && q[1] == s.expected && WriteAt(s) + (|q| - 2) > |s.flash| ==> t == s && r == Negative(RequestOutOfRange))
  {
  }

  /// 37: a download is over when as many bytes have been written as were announced.
  lemma Exit(s: State, now: nat)
    ensures Handle(s, [0x37], now)
         == if !s.active then (s, Negative(RequestSequenceError))
            else if s.written != s.size then (s, Negative(GeneralProgrammingFailure))
            else (s.(active := false, complete := true), Positive([]))
  {
  }

  // ---- Identifiers ----

  lemma TwoBytes(a: Byte, b: Byte)
    ensures ReadBe([a, b]) == 256 * a as nat + b as nat
  {
    var none: seq<Byte> := [];
    ReadBeSnoc(none, a);
    ReadBeSnoc(none + [a], b);
    assert none + [a] + [b] == [a, b];
  }

  /// 22 hh ll: what is stored under an identifier.
  lemma ReadIdentifier(s: State, hi: Byte, lo: Byte, now: nat)
    ensures var id := 256 * hi as nat + lo as nat;
            Handle(s, [0x22, hi, lo], now)
            == (s, if id in s.identifiers then Positive([hi, lo] + s.identifiers[id]) else Negative(RequestOutOfRange))
  {
    TwoBytes(hi, lo);
    assert [0x22, hi, lo][1..3] == [hi, lo];
    assert PushBe2(256 * hi as nat + lo as nat) == [hi, lo];
  }

  /// 2E hh ll and a value: stored under an identifier that exists and is below F100; then reading gives it back.
  lemma WriteIdentifier(s: State, hi: Byte, lo: Byte, value: seq<Byte>, now: nat)
    requires value != []
    ensures var (id, q) := (256 * hi as nat + lo as nat, [0x2E, hi, lo] + value);
            Handle(s, q, now)
            == if id !in s.identifiers then (s, Negative(RequestOutOfRange))
               else if id >= 0xF100 then (s, Negative(SecurityAccessDenied))
               else (s.(identifiers := s.identifiers[id := value]), Positive([hi, lo]))
  {
    var q := [0x2E, hi, lo] + value;
    TwoBytes(hi, lo);
    assert q[1..3] == [hi, lo] && q[3..] == value;
    assert PushBe2(256 * hi as nat + lo as nat) == [hi, lo];
  }

  // ---- Trouble codes ----

  /// The status and the mask have a bit in common.
  ghost predicate Shares(status: Byte, mask: Byte) {
    exists b: nat :: BitAt(status, b) == 1 && BitAt(mask, b) == 1
  }

  lemma SharesByBits(status: Byte, mask: Byte)
    ensures And(status, mask) != 0 <==> Shares(status, mask)
  {
    forall b: nat
      ensures BitAt(And(status, mask), b) == (if BitAt(status, b) == 1 && BitAt(mask, b) == 1 then 1 else 0)
      ensures BitAt(0, b) == 0
    {
      AndBit(status, mask, b);
      BitOfZero(b);
    }
    if !Shares(status, mask) {
      SameBits(And(status, mask), 0);
    }
  }

  /// The codes whose status shares a bit with the mask, or all of them.
  ghost function Chosen(dtcs: seq<Dtc>, all: bool, mask: Byte): seq<Dtc> {
    if dtcs == [] then []
    else
      var d := dtcs[|dtcs| - 1];
      Chosen(dtcs[..|dtcs| - 1], all, mask) + if all || Shares(d.status, mask) then [d] else []
  }

  /// Three bytes of code and one of status each.
  function Spelled(dtcs: seq<Dtc>): seq<Byte> {
    if dtcs == [] then []
    else
      var d := dtcs[|dtcs| - 1];
      Spelled(dtcs[..|dtcs| - 1]) + [d.code / 65536 % 256, d.code / 256 % 256, d.code % 256, d.status]
  }

  lemma SpelledSnoc(dtcs: seq<Dtc>, d: Dtc)
    ensures Spelled(dtcs + [d]) == Spelled(dtcs) + (PushBe3(d.code) + [d.status])
  {
    assert (dtcs + [d])[..|dtcs|] == dtcs;
    assert PushBe3(d.code) + [d.status] == [d.code / 65536 % 256, d.code / 256 % 256, d.code % 256, d.status];
  }

  lemma {:induction false} CodesCounted(dtcs: seq<Dtc>, mask: Byte)
    ensures Matching(dtcs, mask) == |Chosen(dtcs, false, mask)|
  {
    if dtcs != [] {
      CodesCounted(dtcs[..|dtcs| - 1], mask);
      SharesByBits(dtcs[|dtcs| - 1].status, mask);
    }
  }

  lemma {:induction false} CodesListed(dtcs: seq<Dtc>, all: bool, mask: Byte)
    ensures Listed(dtcs, all, mask) == Spelled(Chosen(dtcs, all, mask))
  {
    if dtcs != [] {
      var front, d := dtcs[..|dtcs| - 1], dtcs[|dtcs| - 1];
      CodesListed(front, all, mask);
      SharesByBits(d.status, mask);
      SpelledSnoc(Chosen(front, all, mask), d);
      assert Chosen(front, all, mask) + [] == Chosen(front, all, mask);
      assert Listed(front, all, mask) + [] == Listed(front, all, mask);
    }
  }

  /// 19 01 counts the codes whose status shares a bit with the mask, and 19 02 lists them; 19 0A lists all.
  lemma ReadCodes(s: State, mask: Byte, now: nat)
    ensures var n := |Chosen(s.dtcs, false, mask)|;
            Handle(s, [0x19, 0x01, mask], now) == (s, Positive([0x01, 0xFF, 0x01, n / 256 % 256, n % 256]))
    ensures Handle(s, [0x19, 0x02, mask], now) == (s, Positive([0x02, 0xFF] + Spelled(Chosen(s.dtcs, false, mask))))
    ensures Handle(s, [0x19, 0x0A], now) == (s, Positive([0x0A, 0xFF] + Spelled(Chosen(s.dtcs, true, 0xFF))))
  {
    CodesCounted(s.dtcs, mask);
    CodesListed(s.dtcs, false, mask);
    CodesListed(s.dtcs, true, 0xFF);
    var n := |Chosen(s.dtcs, false, mask)|;
    assert [0x01 as Byte, 0xFF, 0x01] + PushBe2(n) == [0x01, 0xFF, 0x01, n / 256 % 256, n % 256];
  }

  /// 14 and a group: all codes go for FF FF FF, and those of the same first byte for any other.
  lemma ClearCodes(s: State, a: Byte, b: Byte, c: Byte, now: nat)
    ensures var t := Handle(s, [0x14, a, b, c], now).0;
            && Handle(s, [0x14, a, b, c], now).1 == Positive([]) && t == s.(dtcs := t.dtcs)
            && (a == 0xFF && b == 0xFF && c == 0xFF ==> t.dtcs == [])
            && (!(a == 0xFF && b == 0xFF && c == 0xFF) ==>
                  forall d :: d in t.dtcs <==> d in s.dtcs && d.code / 65536 != a as nat)
  {
    var group := 65536 * a as nat + 256 * b as nat + c as nat;
    ThreeBytes(a, b, c);
    assert [0x14, a, b, c][1..4] == [a, b, c];
    assert group / 65536 == a as nat && (group == 0xFFFFFF <==> a == 0xFF && b == 0xFF && c == 0xFF);
    CodesRemain(s.dtcs, group);
  }

  lemma ThreeBytes(a: Byte, b: Byte, c: Byte)
    ensures ReadBe([a, b, c]) == 65536 * a as nat + 256 * b as nat + c as nat
  {
    TwoBytes(a, b);
    ReadBeSnoc([a, b], c);
    assert [a, b] + [c] == [a, b, c];
  }

  lemma {:induction false} CodesRemain(dtcs: seq<Dtc>, group: nat)
    ensures forall d :: d in Remaining(dtcs, group) <==> d in dtcs && d.code / 65536 != group / 65536
  {
    if dtcs != [] {
      CodesRemain(dtcs[..|dtcs| - 1], group);
      assert forall d :: d in dtcs <==> d in dtcs[..|dtcs| - 1] || d == dtcs[|dtcs| - 1];
    }
  }
}
