/** Whole connections: what holds over every run of frames. */
module ConnectionRuns {
  import opened Bytes
  import S = Subrecords
  import SrTermIdentity
  import Records
  import opened Services
  import opened Packets
  import opened Answers
  import Relaying
  import opened Connection
  import Queues

  /** The state after some frames, and what each of them came to. */
  function StateAfter(cfg: Config, onSession: bool, ins: seq<Input>): State {
    if ins == [] then Start(cfg) else Handle(cfg, StateAfter(cfg, onSession, ins[..|ins| - 1]), onSession, ins[|ins| - 1]).next
  }

  function TurnOf(cfg: Config, onSession: bool, ins: seq<Input>, i: nat): Turn
    requires i < |ins|
  {
    Handle(cfg, StateAfter(cfg, onSession, ins[..i]), onSession, ins[i])
  }

  /** The frames of one connection: it goes on after all but the last. */
  predicate Run(cfg: Config, onSession: bool, ins: seq<Input>) {
    forall i :: 0 <= i < |ins| - 1 ==> !TurnOf(cfg, onSession, ins, i).ends
  }

  /** Everything sent. */
  function Sent(cfg: Config, onSession: bool, ins: seq<Input>): seq<Packet> {
    if ins == [] then []
    else Sent(cfg, onSession, ins[..|ins| - 1]) + Handle(cfg, StateAfter(cfg, onSession, ins[..|ins| - 1]), onSession, ins[|ins| - 1]).sent
  }

  // ---- one frame ----

  lemma AnswersSent(s: State, code: byte, requestId: uint16, ss: Frame, auth: bool, asks: bool, input: Input)
    ensures var r := Respond(s, code, requestId, ss, auth, asks, input);
            r.sent != [] ==>
              && r.sent[0].pt == PT_RESPONSE && r.sent[0].sfrd.Response?
              && r.sent[0].sfrd.response.rpid == requestId && r.sent[0].sfrd.response.result == code
              && |r.sent| <= 2 && (|r.sent| == 2 ==> r.sent[1].pt == PT_APPDATA)
  {
    hide Packets.Encode, Groups, ResponseLength;
  }

  /** A frame that is answered gets one response, which names its packet and says what came of it,
      and after it at most the authorization verdict. */
  lemma OneResponse(cfg: Config, s: State, onSession: bool, input: Input)
    ensures var o := Handle(cfg, s, onSession, input);
            o.sent != [] ==>
              && o.sent[0].pt == PT_RESPONSE && o.sent[0].sfrd.Response?
              && o.sent[0].sfrd.response.rpid == RequestId(input.raw) && o.sent[0].sfrd.response.result == o.code
              && |o.sent| <= 2 && (|o.sent| == 2 ==> o.sent[1].pt == PT_APPDATA)
  {
    hide ReadPacket, Respond, ReadLogin, After, OfferOf, CodeAfter, AsksCredentials;
    match ReadPacket(input.raw)
    case Rejected(code, pt, pid) => AnswersSent(s, code, pid, [], false, false, input);
    case Accepted(p) =>
      if p.pt == PT_APPDATA {
        DataIsThere(input.raw, p);
        var login := ReadLogin(cfg, p.sfrd.services);
        var code := CodeAfter(s, login, OfferOf(s, login, onSession, input, p).Some?, input);
        AnswersSent(s, code, p.pid, p.sfrd.services, login.authRequest, AsksCredentials(s, login), input);
      }
  }

  function RequestId(raw: seq<byte>): uint16 {
    match ReadPacket(raw)
    case Accepted(p) => p.pid
    case Rejected(_, _, pid) => pid
  }

  predicate IsData(raw: seq<byte>) {
    match ReadPacket(raw)
    case Accepted(p) => p.pt == PT_APPDATA
    case Rejected(_, pt, _) => pt == PT_APPDATA
  }

  /** A data frame is answered unless the answer cannot be written, the wait for its delivery is given
      up, or a successful answer is too long; then the connection ends, so that no frame is left
      unanswered and the next one read. A refusal is always sent, before the connection ends if it
      is a denial. Other frames are passed over. */
  lemma HandledIsAnswered(cfg: Config, s: State, onSession: bool, input: Input)
    ensures var o := Handle(cfg, s, onSession, input);
            && (IsData(input.raw) && o.sent == [] ==> o.ends && (!input.wroteAnswer || o.code == PC_OK))
            && (IsData(input.raw) && o.code != PC_OK && input.wroteAnswer ==> o.sent != [])
            && (!IsData(input.raw) ==> o == Turn(s, [], None, o.code, false))
  {
    hide ReadPacket, Packets.Encode, Reply, ReadLogin, AuthPacket, OfferOf, CodeAfter, After, AsksCredentials, SentCount;
    match ReadPacket(input.raw)
    case Rejected(code, pt, pid) =>
      RejectedSays(input.raw);
      RefusalSent(s, code, pid, [], false, false, input);
    case Accepted(p) =>
      if p.pt == PT_APPDATA {
        DataIsThere(input.raw, p);
        var login := ReadLogin(cfg, p.sfrd.services);
        var code := CodeAfter(s, login, OfferOf(s, login, onSession, input, p).Some?, input);
        RefusalSent(s, code, p.pid, p.sfrd.services, login.authRequest, AsksCredentials(s, login), input);
      }
  }

  lemma RefusalSent(s: State, code: byte, requestId: uint16, ss: Frame, auth: bool, asks: bool, input: Input)
    ensures var r := Respond(s, code, requestId, ss, auth, asks, input);
            && (r.sent == [] ==> r.failed && (!input.wroteAnswer || code == PC_OK))
            && (code != PC_OK && input.wroteAnswer ==> r.sent != [])
  {
    hide Packets.Encode, Packets.Canonical, ResponseLength, Groups;
    if code != PC_OK {
      RefusalEncodes(code, requestId, ss, Next16(s.rn), Next16(s.pid));
    }
  }

  /** A packet refused leaves authorization, source and identity as they were; authorization never
      reverts; and a denial ends the connection. */
  lemma RefusedChangesNothing(cfg: Config, s: State, onSession: bool, input: Input)
    ensures var o := Handle(cfg, s, onSession, input);
            && (o.code != PC_OK ==> o.next == s.(pid := o.next.pid, rn := o.next.rn))
            && (s.authorized ==> o.next.authorized)
            && (IsData(input.raw) && o.code == PC_AUTH_DENIED ==> o.ends)
  {
    hide ReadPacket, Respond, ReadLogin, IdentityOctets;
  }

  /** A data packet taken in. */
  predicate TakesIn(cfg: Config, onSession: bool, ins: seq<Input>, i: nat)
    requires i < |ins|
  {
    IsData(ins[i].raw) && TurnOf(cfg, onSession, ins, i).code == PC_OK
  }

  /** Authorization, source and identity are always those that the last packet taken in left: what was
      refused since, and what was passed over, set nothing but the counters. */
  lemma {:induction false} SetByAccepted(cfg: Config, onSession: bool, ins: seq<Input>, n: nat)
    requires n <= |ins| && forall i :: n <= i < |ins| ==> !TakesIn(cfg, onSession, ins, i)
    ensures var s := StateAfter(cfg, onSession, ins);
            s == StateAfter(cfg, onSession, ins[..n]).(pid := s.pid, rn := s.rn)
    decreases |ins|
  {
    hide Handle, IsData;
    if n == |ins| {
      assert ins[..n] == ins;
    } else {
      var m := |ins| - 1;
      var less := ins[..m];
      forall i | n <= i < m
        ensures !TakesIn(cfg, onSession, less, i)
      {
        assert less[..i] == ins[..i];
        assert !TakesIn(cfg, onSession, ins, i);
      }
      SetByAccepted(cfg, onSession, less, n);
      assert less[..n] == ins[..n];
      assert !TakesIn(cfg, onSession, ins, m);
      var s := StateAfter(cfg, onSession, less);
      RefusedChangesNothing(cfg, s, onSession, ins[m]);
      HandledIsAnswered(cfg, s, onSession, ins[m]);
    }
  }

  /** Once authorized a connection stays so, and it reads nothing after a denial. */
  lemma {:induction false} AuthorizedUntilDenied(cfg: Config, onSession: bool, ins: seq<Input>, n: nat)
    requires Run(cfg, onSession, ins) && n <= |ins|
    ensures StateAfter(cfg, onSession, ins[..n]).authorized ==> StateAfter(cfg, onSession, ins).authorized
    ensures n < |ins| - 1 && IsData(ins[n].raw) ==> TurnOf(cfg, onSession, ins, n).code != PC_AUTH_DENIED
    decreases |ins|
  {
    hide Handle, IsData;
    if n == |ins| {
      assert ins[..n] == ins;
    } else {
      var m := |ins| - 1;
      RunShorter(cfg, onSession, ins);
      AuthorizedUntilDenied(cfg, onSession, ins[..m], n);
      assert ins[..m][..n] == ins[..n];
      RefusedChangesNothing(cfg, StateAfter(cfg, onSession, ins[..m]), onSession, ins[m]);
      RefusedChangesNothing(cfg, StateAfter(cfg, onSession, ins[..n]), onSession, ins[n]);
    }
  }

  /** A data packet answered OK was taken by the queue, and delivered everywhere first where that is
      asked for, unless it only made the gateway ask for credentials. */
  lemma OkMeansQueued(cfg: Config, s: State, onSession: bool, input: Input, p: Packet)
    requires ReadPacket(input.raw) == Accepted(p) && p.pt == PT_APPDATA && p.sfrd.AppData?
    ensures var o := Handle(cfg, s, onSession, input);
            o.code == PC_OK && o.sent != [] ==>
              if AsksCredentials(s, ReadLogin(cfg, p.sfrd.services)) then o.offered.None?
              else o.offered.Some? && o.offered.value.packet == p && o.offered.value.raw == input.raw
                   && input.queue.Taken? && (cfg.delivered ==> input.doneFirst)
  {
    hide ReadPacket, Respond, ReadLogin, IdentityOctets;
  }

  // ---- packet identifiers and record numbers ----

  function FrameNumbers(ss: Frame): (ns: seq<uint16>)
    ensures |ns| == |ss| && forall i :: 0 <= i < |ns| ==> ns[i] == ss[i].rn
  {
    seq(|ss|, i requires 0 <= i < |ss| => ss[i].rn)
  }

  /** The numbers of the service records of a packet. */
  function NumbersOf(p: Packet): seq<uint16> {
    match p.sfrd
    case AppData(ss) => FrameNumbers(ss)
    case Response(r) => if r.sdr.Some? then FrameNumbers(r.sdr.value) else []
    case NoData => []
  }

  function Numbers(ps: seq<Packet>): seq<uint16> {
    if ps == [] then [] else Numbers(ps[..|ps| - 1]) + NumbersOf(ps[|ps| - 1])
  }

  function Ids(ps: seq<Packet>): (ids: seq<uint16>)
    ensures |ids| == |ps| && forall i :: 0 <= i < |ids| ==> ids[i] == ps[i].pid
  {
    seq(|ps|, i requires 0 <= i < |ps| => ps[i].pid)
  }

  /** The next numbers after one, counted in sixteen bits. */
  predicate Following(ns: seq<uint16>, from: nat) {
    forall i :: 0 <= i < |ns| ==> ns[i] == (from + i + 1) % 0x1_0000
  }

  lemma FollowingJoin(a: seq<uint16>, b: seq<uint16>, from: nat)
    requires Following(a, from) && Following(b, (from + |a|) % 0x1_0000)
    ensures Following(a + b, from)
  {
    forall i | 0 <= i < |a + b|
      ensures (a + b)[i] == (from + i + 1) % 0x1_0000
    {
      if i >= |a| {
        Wrap(from + |a|, i - |a| + 1);
      }
    }
  }

  lemma Wrap(a: nat, b: nat)
    ensures (a % 0x1_0000 + b) % 0x1_0000 == (a + b) % 0x1_0000
  {
  }

  lemma ReplyNumbers(s: State, code: byte, requestId: uint16, ss: Frame)
    ensures var a := Reply(s, code, requestId, ss);
            a.pid == Next16(s.pid) && Following(NumbersOf(a), s.rn) && |NumbersOf(a)| == SentCount(code, ss)
  {
    hide Groups, ResponseLength;
    var a := Reply(s, code, requestId, ss);
    if code == PC_OK {
      var records := AnswerRecords(Groups(ss), Next16(s.rn));
      forall i | 0 <= i < |records|
        ensures records[i].rn == (s.rn + i + 1) % 0x1_0000
      {
        OneUp(s.rn, i);
      }
    }
  }

  lemma VerdictNumbers(data: S.Subrecord, rn: uint16, pid: uint16)
    ensures NumbersOf(AuthPacket(data, rn, pid)) == [rn]
  {
  }

  lemma NumbersOfTwo(a: Packet, b: Packet)
    ensures Numbers([]) == [] && Numbers([a]) == NumbersOf(a) && Numbers([a, b]) == NumbersOf(a) + NumbersOf(b)
  {
    hide NumbersOf;
    assert [a][..0] == [] && [a, b][..1] == [a];
    assert Numbers([a]) == [] + NumbersOf(a);
  }

  lemma SendingNumbers(s: State, code: byte, requestId: uint16, ss: Frame, auth: bool, asks: bool, input: Input)
    ensures var r := Respond(s, code, requestId, ss, auth, asks, input);
            && Following(Ids(r.sent), s.pid) && Following(Numbers(r.sent), s.rn)
            && (!r.failed ==> r.pid == (s.pid + |r.sent|) % 0x1_0000 && r.rn == (s.rn + |Numbers(r.sent)|) % 0x1_0000)
  {
    hide Packets.Encode, Reply, NumbersOf, Numbers, AuthPacket, SentCount;
    var a := Reply(s, code, requestId, ss);
    var rn: uint16 := (s.rn + SentCount(code, ss)) % 0x1_0000;
    var v := AuthPacket(Verdict(code, asks), Next16(rn), Next16(a.pid));
    ReplyNumbers(s, code, requestId, ss);
    VerdictNumbers(Verdict(code, asks), Next16(rn), Next16(a.pid));
    NumbersOfTwo(a, v);
    VerdictId(Verdict(code, asks), Next16(rn), Next16(a.pid));
    Wrap(s.rn + SentCount(code, ss), 1);
    FollowingJoin(NumbersOf(a), [Next16(rn)], s.rn);
    Wrap(s.pid + 1, 1);
  }

  lemma VerdictId(data: S.Subrecord, rn: uint16, pid: uint16)
    ensures AuthPacket(data, rn, pid).pid == pid
  {
  }

  /** One turn sends the next identifiers and numbers, and keeps count of them. */
  lemma TurnNumbers(cfg: Config, s: State, onSession: bool, input: Input)
    ensures var o := Handle(cfg, s, onSession, input);
            && Following(Ids(o.sent), s.pid) && Following(Numbers(o.sent), s.rn)
            && (!o.ends ==> o.next.pid == (s.pid + |o.sent|) % 0x1_0000 && o.next.rn == (s.rn + |Numbers(o.sent)|) % 0x1_0000)
  {
    hide ReadPacket, Respond, ReadLogin, After, OfferOf, CodeAfter, AsksCredentials, NumbersOf;
    match ReadPacket(input.raw)
    case Rejected(code, pt, pid) => SendingNumbers(s, code, pid, [], false, false, input);
    case Accepted(p) =>
      if p.pt == PT_APPDATA {
        DataIsThere(input.raw, p);
        var login := ReadLogin(cfg, p.sfrd.services);
        var code := CodeAfter(s, login, OfferOf(s, login, onSession, input, p).Some?, input);
        SendingNumbers(s, code, p.pid, p.sfrd.services, login.authRequest, AsksCredentials(s, login), input);
      }
  }

  lemma NumbersSnoc(a: seq<Packet>, p: Packet)
    ensures Numbers(a + [p]) == Numbers(a) + NumbersOf(p)
  {
    hide NumbersOf;
    assert (a + [p])[..|a|] == a;
  }

  lemma {:induction false} NumbersJoin(a: seq<Packet>, b: seq<Packet>)
    ensures Numbers(a + b) == Numbers(a) + Numbers(b)
    ensures Ids(a + b) == Ids(a) + Ids(b)
  {
    hide NumbersOf, Numbers;
    if b == [] {
      assert a + b == a;
      NumbersOfNone();
    } else {
      var n := |b| - 1;
      NumbersJoin(a, b[..n]);
      NumbersSnoc(a + b[..n], b[n]);
      NumbersSnoc(b[..n], b[n]);
      assert a + b[..n] + [b[n]] == a + b && b[..n] + [b[n]] == b;
    }
  }

  lemma NumbersOfNone()
    ensures Numbers([]) == []
  {
  }

  lemma RunShorter(cfg: Config, onSession: bool, ins: seq<Input>)
    requires Run(cfg, onSession, ins) && ins != []
    ensures Run(cfg, onSession, ins[..|ins| - 1])
    ensures |ins| > 1 ==> !TurnOf(cfg, onSession, ins[..|ins| - 1], |ins| - 2).ends
  {
    hide Handle;
    var less := ins[..|ins| - 1];
    forall i | 0 <= i < |less|
      ensures TurnOf(cfg, onSession, less, i) == TurnOf(cfg, onSession, ins, i)
    {
      assert less[..i] == ins[..i];
    }
    if |ins| > 1 {
      assert !TurnOf(cfg, onSession, ins, |ins| - 2).ends;
    }
  }

  /** Packets and records numbered from 1 on, with the counters where they stand. */
  predicate Counted(sent: seq<Packet>, s: State, open: bool) {
    && Following(Ids(sent), 0) && Following(Numbers(sent), 0)
    && (open ==> s.pid == |sent| % 0x1_0000 && s.rn == |Numbers(sent)| % 0x1_0000)
  }

  lemma CountedJoin(before: seq<Packet>, now: seq<Packet>, s: State, next: State, open: bool)
    requires Counted(before, s, true) && Following(Ids(now), s.pid) && Following(Numbers(now), s.rn)
    requires open ==> next.pid == (s.pid + |now|) % 0x1_0000 && next.rn == (s.rn + |Numbers(now)|) % 0x1_0000
    ensures Counted(before + now, next, open)
  {
    hide Following, Numbers;
    NumbersJoin(before, now);
    FollowingJoin(Ids(before), Ids(now), 0);
    FollowingJoin(Numbers(before), Numbers(now), 0);
    Wrap(|before|, |now|);
    Wrap(|Numbers(before)|, |Numbers(now)|);
  }

  lemma NothingCounted(cfg: Config, open: bool)
    ensures Counted([], Start(cfg), open)
  {
  }

  /** The connection has not ended with its last frame. */
  predicate Open(cfg: Config, onSession: bool, ins: seq<Input>) {
    ins == [] || !TurnOf(cfg, onSession, ins, |ins| - 1).ends
  }

  /** Over a whole connection the packets sent are numbered 1, 2, 3 and so on in sixteen bits, and
      so are the service records in them. */
  lemma {:induction false} NumbersFollow(cfg: Config, onSession: bool, ins: seq<Input>)
    requires Run(cfg, onSession, ins)
    ensures Following(Ids(Sent(cfg, onSession, ins)), 0) && Following(Numbers(Sent(cfg, onSession, ins)), 0)
    ensures Counted(Sent(cfg, onSession, ins), StateAfter(cfg, onSession, ins), Open(cfg, onSession, ins))
  {
    hide Handle, Counted, Run, Numbers, Following;
    if ins == [] {
      NothingCounted(cfg, true);
    } else {
      var n := |ins| - 1;
      RunShorter(cfg, onSession, ins);
      NumbersFollow(cfg, onSession, ins[..n]);
      var s := StateAfter(cfg, onSession, ins[..n]);
      TurnNumbers(cfg, s, onSession, ins[n]);
      CountedJoin(Sent(cfg, onSession, ins[..n]), Handle(cfg, s, onSession, ins[n]).sent, s, StateAfter(cfg, onSession, ins),
                  Open(cfg, onSession, ins));
    }
    CountedFollows(Sent(cfg, onSession, ins), StateAfter(cfg, onSession, ins), Open(cfg, onSession, ins));
  }

  lemma CountedFollows(sent: seq<Packet>, s: State, open: bool)
    requires Counted(sent, s, open)
    ensures Following(Ids(sent), 0) && Following(Numbers(sent), 0)
  {
  }

  // ---- authorization ----

  /** A packet all of whose credentials are valid, and that has some. */
  predicate LogsIn(cfg: Config, raw: seq<byte>) {
    match ReadPacket(raw)
    case Rejected(_, _, _) => false
    case Accepted(p) =>
      p.pt == PT_APPDATA && p.sfrd.AppData?
      && AnyValid(cfg, AuthRecords(p.sfrd.services)) && AllValid(cfg, AuthRecords(p.sfrd.services))
  }

  lemma TurnAuthorizes(cfg: Config, s: State, onSession: bool, input: Input)
    requires cfg.authEnabled
    ensures var o := Handle(cfg, s, onSession, input);
            (o.next.authorized || o.offered.Some?) && !s.authorized ==> LogsIn(cfg, input.raw)
  {
    hide ReadPacket, Respond, IdentityOctets, AuthRecords, AnyValid, AllValid;
    match ReadPacket(input.raw)
    case Rejected(_, _, _) =>
    case Accepted(p) =>
      if p.pt == PT_APPDATA {
        DataIsThere(input.raw, p);
      }
  }

  lemma {:induction false} AuthorizedLoggedIn(cfg: Config, onSession: bool, ins: seq<Input>)
    requires cfg.authEnabled && StateAfter(cfg, onSession, ins).authorized
    ensures exists j :: 0 <= j < |ins| && LogsIn(cfg, ins[j].raw)
  {
    hide Handle, LogsIn;
    if ins != [] {
      var n := |ins| - 1;
      var s := StateAfter(cfg, onSession, ins[..n]);
      if s.authorized {
        AuthorizedLoggedIn(cfg, onSession, ins[..n]);
        var j :| 0 <= j < n && LogsIn(cfg, ins[..n][j].raw);
        assert ins[j] == ins[..n][j];
      } else {
        TurnAuthorizes(cfg, s, onSession, ins[n]);
      }
    }
  }

  /** With authorization on, every packet put to the queue is one, or comes after one, all of whose
      credentials were valid. */
  lemma QueuedAfterLogin(cfg: Config, onSession: bool, ins: seq<Input>, i: nat)
    requires cfg.authEnabled && i < |ins| && TurnOf(cfg, onSession, ins, i).offered.Some?
    ensures exists j :: 0 <= j <= i && LogsIn(cfg, ins[j].raw)
  {
    hide Handle, LogsIn;
    var s := StateAfter(cfg, onSession, ins[..i]);
    if s.authorized {
      AuthorizedLoggedIn(cfg, onSession, ins[..i]);
      var j :| 0 <= j < i && LogsIn(cfg, ins[..i][j].raw);
      assert ins[j] == ins[..i][j];
    } else {
      TurnAuthorizes(cfg, s, onSession, ins[i]);
    }
  }

  // ---- what reaches the queue can be relayed and restored ----

  predicate CanonicalRecords(rs: seq<S.Subrecord>) {
    forall i :: 0 <= i < |rs| ==> S.Canonical(rs[i])
  }

  lemma {:induction false} AuthRecordsCanonical(ss: Frame)
    requires Services.Canonical(ss)
    ensures CanonicalRecords(AuthRecords(ss))
  {
    hide S.Canonical, Services.FlagsValid;
    if ss != [] {
      var n := |ss| - 1;
      AuthRecordsCanonical(ss[..n]);
      assert CanonicalOne(ss[n]);
      forall i | 0 <= i < |ss[n].rd|
        ensures S.Canonical(Subrecords(ss[n].rd)[i])
      {
        assert Records.CanonicalOne(ss[n].rd[i]);
      }
    }
  }

  lemma {:induction false} LastIsOne(rs: seq<S.Subrecord>)
    requires CanonicalRecords(rs) && LastIdentity(rs).Some?
    ensures SrTermIdentity.Canonical(LastIdentity(rs).value)
  {
    assert S.Canonical(rs[|rs| - 1]);
    if !rs[|rs| - 1].Identity? {
      LastIsOne(rs[..|rs| - 1]);
    }
  }

  /** The identity kept for relaying is always one that can be sent and read back. */
  lemma IdentityStaysKnown(cfg: Config, s: State, onSession: bool, input: Input)
    requires Queues.IdentityKnown(s.identity)
    ensures var o := Handle(cfg, s, onSession, input);
            Queues.IdentityKnown(o.next.identity) && (o.offered.Some? ==> Queues.IdentityKnown(o.offered.value.identity))
  {
    hide ReadPacket, Respond, AuthRecords, AnyValid, AllValid, SrTermIdentity.Decode, SrTermIdentity.Encode,
         SrTermIdentity.Canonical;
    match ReadPacket(input.raw)
    case Rejected(_, _, _) =>
    case Accepted(p) =>
      if p.pt == PT_APPDATA {
        DataIsThere(input.raw, p);
        LoginIdentity(cfg, input.raw, p);
      }
  }

  lemma LoginIdentity(cfg: Config, raw: seq<byte>, p: Packet)
    requires ReadPacket(raw) == Accepted(p) && p.pt == PT_APPDATA && p.sfrd.AppData?
    ensures var last := ReadLogin(cfg, p.sfrd.services).last;
            last.Some? ==> Queues.IdentityKnown(IdentityOctets(last.value))
  {
    hide ReadPacket, SrTermIdentity.Decode, SrTermIdentity.Canonical, SrTermIdentity.Encode;
    Packets.EncodeDecode(raw, p);
    AuthRecordsCanonical(p.sfrd.services);
    var last := ReadLogin(cfg, p.sfrd.services).last;
    if last.Some? {
      LastIsOne(AuthRecords(p.sfrd.services));
      SrTermIdentity.DecodeEncode(last.value);
    }
  }
}
