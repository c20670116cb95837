/** Two gateways agree: what the peer's connection sends for a packet is just what the relay's
    exchange waits for, and what the relay sends back for it the peer passes over. */
module Agreement {
  import opened Bytes
  import Crc
  import opened Fields
  import opened Flags
  import S = Subrecords
  import Records
  import opened Services
  import opened Packets
  import opened Answers
  import opened Relaying
  import opened Exchange
  import opened ExchangeExact
  import C = Connection

  // ---- the answer confirms every record ----

  lemma {:induction false} ArrivesInPair(ss: Frame, i: nat)
    requires i < |ss| && HasData(ss[i])
    ensures ss[i].rn in Arrivals(ss, ss[i].sst, ss[i].rst)
    decreases |ss|
  {
    if i < |ss| - 1 {
      assert ss[..|ss| - 1][i] == ss[i];
      ArrivesInPair(ss[..|ss| - 1], i);
    }
  }

  predicate AllConfirm(atoms: seq<Atom>) {
    forall i :: 0 <= i < |atoms| ==> atoms[i].Confirm? && atoms[i].status == PC_OK
  }

  lemma FrameAtomsSnoc(ss: Frame, s: ServiceRecord)
    ensures FrameAtoms(ss + [s]) == FrameAtoms(ss) + ServiceAtoms(s)
  {
    assert (ss + [s])[..|ss|] == ss;
  }

  lemma ConfirmationAtoms(g: Group, rn: nat)
    ensures var a := ServiceAtoms(AnswerRecord(g, rn));
            |a| == |g.crns| && forall i :: 0 <= i < |a| ==> a[i] == Confirm(Key(g.crns[i], g.sst, g.rst), PC_OK)
  {
  }

  lemma {:induction false} AnswerAtoms(g: seq<Group>, rn: nat)
    ensures AllConfirm(FrameAtoms(AnswerRecords(g, rn)))
    ensures forall i, c :: 0 <= i < |g| && c in g[i].crns ==> Confirmed(FrameAtoms(AnswerRecords(g, rn)), Key(c, g[i].sst, g[i].rst))
    decreases |g|
  {
    if g == [] {
      assert AnswerRecords(g, rn) == [];
      return;
    }
    hide Confirmed, FrameAtoms, AnswerRecord;
    var n := |g| - 1;
    var front := AnswerRecords(g[..n], rn);
    var last := AnswerRecord(g[n], rn + n);
    assert AnswerRecords(g, rn) == front + [last];
    AnswerAtoms(g[..n], rn);
    FrameAtomsSnoc(front, last);
    ConfirmationAtoms(g[n], rn + n);
    var a, b := FrameAtoms(front), ServiceAtoms(last);
    forall i, c | 0 <= i < |g| && c in g[i].crns
      ensures Confirmed(a + b, Key(c, g[i].sst, g[i].rst))
    {
      if i < n {
        assert c in g[..n][i].crns;
        ConfirmedLeft(a, b, Key(c, g[i].sst, g[i].rst));
      } else {
        var k :| 0 <= k < |g[n].crns| && g[n].crns[k] == c;
        ConfirmedRight(a, b, k, Key(c, g[i].sst, g[i].rst));
      }
    }
  }

  lemma ConfirmedLeft(a: seq<Atom>, b: seq<Atom>, k: Key)
    requires Confirmed(a, k)
    ensures Confirmed(a + b, k)
  {
    var i :| 0 <= i < |a| && a[i] == Confirm(k, PC_OK);
    assert (a + b)[i] == a[i];
  }

  lemma ConfirmedRight(a: seq<Atom>, b: seq<Atom>, i: nat, k: Key)
    requires i < |b| && b[i] == Confirm(k, PC_OK)
    ensures Confirmed(a + b, k)
  {
    assert (a + b)[|a| + i] == b[i];
  }

  /** Every record the relay waits for is confirmed, and nothing is refused. */
  lemma AnswerConfirmsAll(ss: Frame, rn: nat)
    ensures var atoms := FrameAtoms(AnswerRecords(Groups(ss), rn));
            AllConfirm(atoms) && forall k :: k in Outstanding(ss) ==> Confirmed(atoms, k)
  {
    hide Confirmed, FrameAtoms, AnswerRecord, Groups, Arrivals;
    var g := Groups(ss);
    AnswerAtoms(g, rn);
    AnswerPartitions(ss);
    forall k | k in Outstanding(ss)
      ensures Confirmed(FrameAtoms(AnswerRecords(g, rn)), k)
    {
      var i :| 0 <= i < |ss| && HasData(ss[i]) && k == Key(ss[i].rn, ss[i].rst, ss[i].sst);
      ArrivesInPair(ss, i);
      var j := Find(g, ss[i].rst, ss[i].sst);
      assert j < |g|;
      assert ss[i].rn in g[j].crns;
    }
  }

  // ---- the frames the peer sends ----

  function Wire(ps: seq<Packet>): (frames: seq<seq<byte>>)
    requires forall i :: 0 <= i < |ps| ==> Packets.Encode(ps[i]).Ok?
    ensures |frames| == |ps| && forall i :: 0 <= i < |ps| ==> frames[i] == Packets.Encode(ps[i]).value
  {
    seq(|ps|, i requires 0 <= i < |ps| => Packets.Encode(ps[i]).value)
  }

  lemma SealedSame(p: Packet)
    requires Packets.Encode(p).Ok? && Packets.Unplaced(p.sfrd)
    ensures var q := Sealed(p); q.pt == p.pt && q.sfrd == p.sfrd && q.pid == p.pid
  {
    Packets.WrittenSame(p.sfrd);
    hide Packets.Encode, Packets.Written, EncodeFrame, EncodedHeader;
  }

  lemma ReplyAtoms(s: C.State, p: Packet)
    requires p.pt == PT_APPDATA && p.sfrd.AppData? && Packets.Encode(C.Reply(s, PC_OK, p.pid, p.sfrd.services)).Ok?
    ensures var a := C.Reply(s, PC_OK, p.pid, p.sfrd.services);
            RawAtoms(p.pid, Packets.Encode(a).value)
            == [Transport(PC_OK)] + FrameAtoms(AnswerRecords(Groups(p.sfrd.services), C.Next16(s.rn)))
  {
    hide ReadPacket, Packets.Encode, Sealed, FrameAtoms, AnswerRecord, Groups, ResponseLength, Packets.Canonical;
    var ss := p.sfrd.services;
    var a := C.Reply(s, PC_OK, p.pid, ss);
    AnswerSize(p.pid, ss, C.Next16(s.rn), C.Next16(s.pid));
    Packets.DecodeEncode(a);
    AnswerUnplaced(PC_OK, p.pid, ss, C.Next16(s.rn), C.Next16(s.pid));
    SealedSame(a);
    var records := AnswerRecords(Groups(ss), C.Next16(s.rn));
    NoAtoms();
    var said := [Transport(PC_OK)] + FrameAtoms(records);
    assert said + [] == said;
  }

  lemma VerdictEncodes(data: S.Subrecord, rn: uint16, pid: uint16)
    requires data.ResultCode? || data == S.AuthParams(0)
    ensures Packets.Canonical(AuthPacket(data, rn, pid)) && Packets.Encode(AuthPacket(data, rn, pid)).Ok?
  {
    hide Crc.Crc8, Crc.Crc16;
    var v := AuthPacket(data, rn, pid);
    var s := v.sfrd.services[0];
    AnswerFlags(s);
    VerdictBody(data, s);
    var f := "00" + "0" + "00" + "0" + "00";
    assert f == "00000000";
    ParsedPrints(f);
  }

  lemma VerdictBody(data: S.Subrecord, s: ServiceRecord)
    requires data.ResultCode? || data == S.AuthParams(0)
    requires s.rd == [Records.RecordData(S.TypeOf(data), 1, data)] && s.rl == 4
    requires FlagsValid(s) && Services.FlagByte(s).Value? && WriteAll(SlotsOf(s), Values(s)) == []
    ensures Services.Encode([s]).Ok? && |Services.Encode([s]).value| == 11
    ensures Records.Canonical(s.rd)
  {
    var one := Records.EncodeOne(s.rd[0]);
    assert one.Ok? && |one.value| == 4;
    assert s.rd[1..] == [];
    assert Records.Concat(s.rd) == Ok(one.value + []);
    assert EncodeOne(s).Ok? && |EncodeOne(s).value| == 11;
    assert [s][1..] == [];
    assert Services.Concat([s]) == Ok(EncodeOne(s).value + []);
  }

  function VerdictAtom(data: S.Subrecord): Atom {
    if data.ResultCode? then AuthResult(data.rcd, true) else AuthAsk(true)
  }

  lemma OneDataRecord(s: ServiceRecord)
    requires HasData(s)
    ensures |Groups([s])| == 1 && DataCount([s]) == 1
  {
    assert [s][..0] == [];
    assert Groups([]) == [];
  }

  lemma VerdictAtoms(data: S.Subrecord, rn: uint16, id: uint16, pid: uint16)
    requires data.ResultCode? || data == S.AuthParams(0)
    requires Packets.Encode(AuthPacket(data, rn, id)).Ok?
    ensures RawAtoms(pid, Packets.Encode(AuthPacket(data, rn, id)).value) == [VerdictAtom(data)]
  {
    hide ReadPacket, Packets.Encode, Sealed, Packets.Canonical, Answer;
    var v := AuthPacket(data, rn, id);
    VerdictEncodes(data, rn, id);
    Packets.DecodeEncode(v);
    var s := v.sfrd.services[0];
    assert Records.Unplaced(s.rd);
    SealedSame(v);
    assert s.rd[0].srt != S.RECORD_RESPONSE;
    OneDataRecord(s);
    AnswerSize(id, [s], 0, id);
    assert [s][..0] == [];
    NoAtoms();
    assert FrameAtoms([s]) == [] + ServiceAtoms(s);
    assert ServiceAtoms(s) == [VerdictAtom(data)];
    assert [VerdictAtom(data)] + [] == [VerdictAtom(data)];
  }

  // ---- the exchange ends with them ----

  lemma {:induction false} AnswerAlone(a: seq<Atom>, outstanding: set<Key>, expectAuth: bool)
    requires AllConfirm(a)
    ensures LastTransport([Transport(PC_OK)] + a) == Some(PC_OK) && LastAuth([Transport(PC_OK)] + a) == None
    ensures !Asked([Transport(PC_OK)] + a) && Accepting(outstanding, expectAuth, [Transport(PC_OK)] + a)
    decreases |a|
  {
    var all := [Transport(PC_OK)] + a;
    if a == [] {
      assert all == [Transport(PC_OK)];
      return;
    }
    hide LastTransport, LastAuth, Asked, Confirmed, Accepting;
    var n := |a| - 1;
    AnswerAlone(a[..n], outstanding, expectAuth);
    assert all == [Transport(PC_OK)] + a[..n] + [a[n]];
    ConfirmedMore([Transport(PC_OK)] + a[..n], a[n], Key(0, 0, 0));
    AcceptingMore(outstanding, expectAuth, [Transport(PC_OK)] + a[..n], a[n]);
  }

  lemma OneFrame(pid: uint16, f: seq<byte>, rest: seq<seq<byte>>)
    ensures AllAtoms(pid, ([f] + rest)[..0]) == [] && AllAtoms(pid, ([f] + rest)[..1]) == RawAtoms(pid, f)
  {
    hide RawAtoms;
    assert ([f] + rest)[..1] == [f] && [f][1..] == [];
    assert RawAtoms(pid, f) + [] == RawAtoms(pid, f);
  }

  lemma TwoFrames(pid: uint16, f: seq<byte>, g: seq<byte>, rest: seq<seq<byte>>)
    ensures AllAtoms(pid, ([f, g] + rest)[..0]) == [] && AllAtoms(pid, ([f, g] + rest)[..1]) == RawAtoms(pid, f)
    ensures AllAtoms(pid, ([f, g] + rest)[..2]) == RawAtoms(pid, f) + RawAtoms(pid, g)
  {
    hide RawAtoms;
    OneFrame(pid, f, [g] + rest);
    OneFrame(pid, g, rest);
    assert [f, g] + rest == [f] + ([g] + rest);
    assert ([f, g] + rest)[..2] == [f, g] && [f, g][1..] == [g] && ([g] + rest)[..1] == [g];
  }

  lemma NothingSaid()
    ensures LastTransport([]) == None
  {
  }

  /** Without authorization the relay is done with the response, and reads no further. */
  lemma ResponseSuffices(s: C.State, p: Packet, rest: seq<seq<byte>>)
    requires p.pt == PT_APPDATA && p.sfrd.AppData? && Packets.Encode(C.Reply(s, PC_OK, p.pid, p.sfrd.services)).Ok?
    ensures var f := Packets.Encode(C.Reply(s, PC_OK, p.pid, p.sfrd.services)).value;
            var r := Run(p.pid, p.sfrd.services, false, [f] + rest);
            r.Success? && r.consumed == 1 && !r.required
  {
    hide Run, RawAtoms, FrameAtoms, Groups, AnswerRecord, LastTransport, LastAuth, Confirmed, Asked, Accepting,
         Outstanding, AllAtoms, Packets.Encode, C.Reply;
    var f := Packets.Encode(C.Reply(s, PC_OK, p.pid, p.sfrd.services)).value;
    var ss := p.sfrd.services;
    var a := FrameAtoms(AnswerRecords(Groups(ss), C.Next16(s.rn)));
    ReplyAtoms(s, p);
    AnswerConfirmsAll(ss, C.Next16(s.rn));
    AnswerAlone(a, Outstanding(ss), false);
    ConfirmsAfter(a, Outstanding(ss));
    OneFrame(p.pid, f, rest);
    NothingSaid();
    SuccessIsExact(p.pid, ss, false, [f] + rest, 1);
  }

  lemma ConfirmsAfter(a: seq<Atom>, outstanding: set<Key>)
    requires forall k :: k in outstanding ==> Confirmed(a, k)
    ensures forall k :: k in outstanding ==> Confirmed([Transport(PC_OK)] + a, k)
  {
    forall k | k in outstanding
      ensures Confirmed([Transport(PC_OK)] + a, k)
    {
      var i :| 0 <= i < |a| && a[i] == Confirm(k, PC_OK);
      ConfirmedRight([Transport(PC_OK)], a, i, k);
    }
  }

  /** When authorization is awaited it takes the verdict too, and no more. */
  lemma VerdictSuffices(s: C.State, p: Packet, data: S.Subrecord, rn: uint16, id: uint16, rest: seq<seq<byte>>)
    requires p.pt == PT_APPDATA && p.sfrd.AppData? && Packets.Encode(C.Reply(s, PC_OK, p.pid, p.sfrd.services)).Ok?
    requires data == S.ResultCode(PC_OK) || data == S.AuthParams(0)
    requires Packets.Encode(AuthPacket(data, rn, id)).Ok?
    ensures var f := Packets.Encode(C.Reply(s, PC_OK, p.pid, p.sfrd.services)).value;
            var g := Packets.Encode(AuthPacket(data, rn, id)).value;
            var r := Run(p.pid, p.sfrd.services, true, [f, g] + rest);
            r.Success? && r.consumed == 2 && (r.required <==> data.AuthParams?)
  {
    hide Run, RawAtoms, FrameAtoms, Groups, AnswerRecord, LastTransport, LastAuth, Confirmed, Asked, Accepting,
         Outstanding, AllAtoms, Packets.Encode, C.Reply, AuthPacket;
    var f := Packets.Encode(C.Reply(s, PC_OK, p.pid, p.sfrd.services)).value;
    var g := Packets.Encode(AuthPacket(data, rn, id)).value;
    var ss := p.sfrd.services;
    var out := Outstanding(ss);
    var a := FrameAtoms(AnswerRecords(Groups(ss), C.Next16(s.rn)));
    var first := [Transport(PC_OK)] + a;
    ReplyAtoms(s, p);
    VerdictAtoms(data, rn, id, p.pid);
    AnswerConfirmsAll(ss, C.Next16(s.rn));
    AnswerAlone(a, out, true);
    ConfirmsAfter(a, out);
    TwoFrames(p.pid, f, g, rest);
    NothingSaid();
    ConfirmedMore(first, VerdictAtom(data), Key(0, 0, 0));
    AcceptingMore(out, true, first, VerdictAtom(data));
    forall k | k in out
      ensures Confirmed(first + [VerdictAtom(data)], k)
    {
      ConfirmedMore(first, VerdictAtom(data), k);
    }
    SuccessIsExact(p.pid, ss, true, [f, g] + rest, 2);
  }

  /** A peer that takes a packet, and whose answers go out, ends the relay's exchange: it succeeds
      having read just what the peer sent, one response and, exactly when the relay awaits a word on
      authorization, one verdict; and credentials are required when the peer asks for them. */
  lemma PeersAgree(cfg: C.Config, s: C.State, onSession: bool, input: C.Input, p: Packet, rest: seq<seq<byte>>)
    requires ReadPacket(input.raw) == Accepted(p) && p.pt == PT_APPDATA && p.sfrd.AppData?
    requires var o := C.Handle(cfg, s, onSession, input); o.code == PC_OK && !o.ends
    ensures var o := C.Handle(cfg, s, onSession, input);
            var login := C.ReadLogin(cfg, p.sfrd.services);
            && (forall i :: 0 <= i < |o.sent| ==> Packets.Encode(o.sent[i]).Ok?)
            && var r := Run(p.pid, p.sfrd.services, login.authRequest, Wire(o.sent) + rest);
               r.Success? && r.consumed == |o.sent| == (if login.authRequest then 2 else 1)
               && (r.required <==> login.authRequest && C.AsksCredentials(s, login))
  {
    hide ReadPacket, Run, Packets.Encode, C.Reply, AuthPacket, C.ReadLogin, C.SentCount, C.OfferOf, C.CodeAfter,
         C.After, C.AsksCredentials;
    var ss := p.sfrd.services;
    var login := C.ReadLogin(cfg, ss);
    var asks := C.AsksCredentials(s, login);
    var sent := C.Handle(cfg, s, onSession, input).sent;
    DataIsThere(input.raw, p);
    var r := C.Respond(s, PC_OK, p.pid, ss, login.authRequest, asks, input);
    assert sent == r.sent;
    AnswersEncode(s, p, login.authRequest, asks, input, r, C.Reply(s, PC_OK, p.pid, ss));
    if login.authRequest {
      var rn: uint16 := C.Next16((s.rn + C.SentCount(PC_OK, ss)) % 0x1_0000);
      var id := C.Next16(sent[0].pid);
      VerdictSuffices(s, p, C.Verdict(PC_OK, asks), rn, id, rest);
      assert Wire(sent) == [Packets.Encode(sent[0]).value, Packets.Encode(sent[1]).value];
    } else {
      ResponseSuffices(s, p, rest);
      assert Wire(sent) == [Packets.Encode(sent[0]).value];
    }
  }

  /** The verdict that follows an answer. */
  function VerdictAfter(s: C.State, p: Packet, asks: bool, pid: uint16): Packet
    requires p.sfrd.AppData?
  {
    var rn: uint16 := C.Next16((s.rn + C.SentCount(PC_OK, p.sfrd.services)) % 0x1_0000);
    AuthPacket(C.Verdict(PC_OK, asks), rn, C.Next16(pid))
  }

  lemma AnswersEncode(s: C.State, p: Packet, auth: bool, asks: bool, input: C.Input, r: C.Sending, a: Packet)
    requires p.pt == PT_APPDATA && p.sfrd.AppData? && !r.failed
    requires a == C.Reply(s, PC_OK, p.pid, p.sfrd.services)
    requires r == C.Respond(s, PC_OK, p.pid, p.sfrd.services, auth, asks, input)
    ensures r.sent == if auth then [a, VerdictAfter(s, p, asks, a.pid)] else [a]
    ensures Packets.Encode(a).Ok? && (auth ==> Packets.Encode(VerdictAfter(s, p, asks, a.pid)).Ok?)
  {
    hide Packets.Encode, C.Reply, AuthPacket, C.SentCount;
  }

  /** A peer that refuses a packet, and says so, ends the exchange at once as failed. */
  lemma RefusalFails(cfg: C.Config, s: C.State, onSession: bool, input: C.Input, p: Packet, expectAuth: bool, rest: seq<seq<byte>>)
    requires ReadPacket(input.raw) == Accepted(p) && p.pt == PT_APPDATA && p.sfrd.AppData?
    requires var o := C.Handle(cfg, s, onSession, input); o.code != PC_OK && o.sent != []
    ensures var o := C.Handle(cfg, s, onSession, input);
            Packets.Encode(o.sent[0]).Ok? && Run(p.pid, p.sfrd.services, expectAuth, [Packets.Encode(o.sent[0]).value] + rest).Failure?
  {
    hide ReadPacket, Packets.Encode, C.Reply, AuthPacket, C.ReadLogin, C.SentCount, C.OfferOf, C.After,
         C.AsksCredentials, Outstanding, Await, Receive, RawAtoms;
    var o := C.Handle(cfg, s, onSession, input);
    var a := C.Reply(s, o.code, p.pid, p.sfrd.services);
    assert o.sent[0] == a && Packets.Encode(a).Ok?;
    RefusalAtoms(s, o.code, p);
    var f := Packets.Encode(a).value;
    ReceiveAbsorbs(p.pid, expectAuth, Begin(p.sfrd.services, expectAuth), f);
    RejectedAtOnce(expectAuth, Begin(p.sfrd.services, expectAuth), o.code);
    FailsAtFirst(p.pid, p.sfrd.services, expectAuth, f, rest);
  }

  lemma FailsAtFirst(pid: uint16, ss: Frame, expectAuth: bool, f: seq<byte>, rest: seq<seq<byte>>)
    requires Receive(pid, expectAuth, Begin(ss, expectAuth), f).Err?
    ensures Run(pid, ss, expectAuth, [f] + rest).Failure?
  {
    hide Receive, Outstanding, RepliesOf;
  }

  lemma RejectedAtOnce(expectAuth: bool, st: Progress, code: byte)
    requires !Positive(code)
    ensures AbsorbAll(expectAuth, st, [Transport(code)]).Err?
  {
    EmptyAbsorbed(expectAuth, st);
    AbsorbOne(expectAuth, st, [], Transport(code));
    assert [] + [Transport(code)] == [Transport(code)];
  }

  lemma RefusalAtoms(s: C.State, code: byte, p: Packet)
    requires code != PC_OK && p.sfrd.AppData? && Packets.Encode(C.Reply(s, code, p.pid, p.sfrd.services)).Ok?
    ensures RawAtoms(p.pid, Packets.Encode(C.Reply(s, code, p.pid, p.sfrd.services)).value) == [Transport(code)]
  {
    hide ReadPacket, Packets.Encode, Sealed, FrameAtoms, Groups, ResponseLength, Packets.Canonical;
    var a := C.Reply(s, code, p.pid, p.sfrd.services);
    RefusalEncodes(code, p.pid, p.sfrd.services, C.Next16(s.rn), C.Next16(s.pid));
    Packets.DecodeEncode(a);
    AnswerUnplaced(code, p.pid, p.sfrd.services, C.Next16(s.rn), C.Next16(s.pid));
    SealedSame(a);
    assert [Transport(code)] + [] + [] == [Transport(code)];
  }

  // ---- what is awaited is what is sent ----

  predicate GivesIdentity(s: ServiceRecord) {
    AuthPair(s) && exists k :: 0 <= k < |s.rd| && s.rd[k].srt == S.TERM_IDENTITY
  }

  /** WriteContext's expectAuth: a terminal identity among the authorization records. */
  predicate ExpectsAuth(ss: Frame) {
    exists i :: 0 <= i < |ss| && GivesIdentity(ss[i])
  }

  predicate Logs(s: ServiceRecord, r: S.Subrecord) {
    AuthPair(s) && exists k :: 0 <= k < |s.rd| && s.rd[k].srd == r
  }

  lemma LogsSubrecords(s: ServiceRecord, r: S.Subrecord)
    ensures Logs(s, r) <==> AuthPair(s) && r in C.Subrecords(s.rd)
  {
    if Logs(s, r) {
      var k :| 0 <= k < |s.rd| && s.rd[k].srd == r;
      assert C.Subrecords(s.rd)[k] == r;
    }
  }

  lemma {:induction false} AuthRecordsAre(ss: Frame, r: S.Subrecord)
    ensures r in C.AuthRecords(ss) <==> exists i :: 0 <= i < |ss| && Logs(ss[i], r)
  {
    if ss == [] {
      return;
    }
    hide Logs;
    var n := |ss| - 1;
    AuthRecordsAre(ss[..n], r);
    LogsSubrecords(ss[n], r);
    if i :| 0 <= i < n && Logs(ss[..n][i], r) {
      assert Logs(ss[i], r);
    }
    if i :| 0 <= i < |ss| && Logs(ss[i], r) {
      if i < n {
        assert Logs(ss[..n][i], r);
      }
    }
  }

  lemma ExpectedIsLogged(ss: Frame, i: nat)
    requires Services.Canonical(ss) && i < |ss| && GivesIdentity(ss[i])
    ensures C.AnyIdentity(C.AuthRecords(ss))
  {
    hide C.AuthRecords, Services.Canonical;
    TypesMatch(ss);
    var k :| 0 <= k < |ss[i].rd| && ss[i].rd[k].srt == S.TERM_IDENTITY;
    assert Logs(ss[i], ss[i].rd[k].srd);
    AuthRecordsAre(ss, ss[i].rd[k].srd);
    var j :| 0 <= j < |C.AuthRecords(ss)| && C.AuthRecords(ss)[j] == ss[i].rd[k].srd;
  }

  lemma LoggedIsExpected(ss: Frame, j: nat)
    requires Services.Canonical(ss) && !HasCredentials(ss) && j < |C.AuthRecords(ss)|
    requires C.AuthRecords(ss)[j].Identity? || C.AuthRecords(ss)[j].Credentials?
    ensures ExpectsAuth(ss)
  {
    hide C.AuthRecords, Services.Canonical;
    var r := C.AuthRecords(ss)[j];
    TypesMatch(ss);
    AuthRecordsAre(ss, r);
    var i :| 0 <= i < |ss| && Logs(ss[i], r);
    var k :| 0 <= k < |ss[i].rd| && ss[i].rd[k].srd == r;
    assert ss[i].rd[k].srt == S.TypeOf(r);
    if r.Identity? {
      assert GivesIdentity(ss[i]);
    }
  }

  /** For a packet without credentials, as the relay demands, the peer sends a verdict exactly when
      the relay expects one. */
  lemma ExpectationsMeet(cfg: C.Config, raw: seq<byte>, p: Packet)
    requires ReadPacket(raw) == Accepted(p) && p.pt == PT_APPDATA && p.sfrd.AppData?
    requires !HasCredentials(p.sfrd.services)
    ensures C.ReadLogin(cfg, p.sfrd.services).authRequest <==> ExpectsAuth(p.sfrd.services)
  {
    hide ReadPacket, C.AuthRecords, Packets.Encode, Packets.Parses, HasCredentials, GivesIdentity,
         Services.Canonical, C.AllAuth, C.AllIdentity;
    Packets.EncodeDecode(raw, p);
    var ss := p.sfrd.services;
    if i :| 0 <= i < |ss| && GivesIdentity(ss[i]) {
      ExpectedIsLogged(ss, i);
    }
    if j :| 0 <= j < |C.AuthRecords(ss)| && (C.AuthRecords(ss)[j].Identity? || C.AuthRecords(ss)[j].Credentials?) {
      LoggedIsExpected(ss, j);
    }
  }

  lemma TypesMatch(ss: Frame)
    requires Services.Canonical(ss)
    ensures forall i, k :: 0 <= i < |ss| && 0 <= k < |ss[i].rd| ==> ss[i].rd[k].srt == S.TypeOf(ss[i].rd[k].srd)
  {
    hide Services.FlagsValid, S.Canonical;
    forall i, k | 0 <= i < |ss| && 0 <= k < |ss[i].rd|
      ensures ss[i].rd[k].srt == S.TypeOf(ss[i].rd[k].srd)
    {
      assert CanonicalOne(ss[i]);
      assert Records.CanonicalOne(ss[i].rd[k]);
    }
  }

  // ---- no loop of confirmations ----

  /** What the relay sends back for a verdict, or for any data packet, the peer passes over, so it
      answers nothing and changes nothing. */
  lemma ConfirmationPassedOver(cfg: C.Config, s: C.State, onSession: bool, q: Packet, input: C.Input)
    requires q.pt == PT_APPDATA && q.sfrd.AppData? && Packets.Encode(OwnAnswer(q)).Ok?
    requires input.raw == Packets.Encode(OwnAnswer(q)).value
    ensures C.Handle(cfg, s, onSession, input) == C.Turn(s, [], None, PC_OK, false)
  {
    hide ReadPacket, Packets.Encode, Sealed, Groups, Packets.Canonical;
    AnswerSize(q.pid, q.sfrd.services, 0, q.pid);
    Packets.DecodeEncode(OwnAnswer(q));
    AnswerUnplaced(PC_OK, q.pid, q.sfrd.services, 0, q.pid);
    SealedSame(OwnAnswer(q));
  }
}
