/** One incoming connection: handleConnection (gateway/server/connection.go) frame by frame.
    What the queue answers, whether a packet is done before the server stops and whether a write
    succeeds come with each frame. */
module Connection {
  import opened Bytes
  import S = Subrecords
  import SrTermIdentity
  import SrAuthInfo
  import Records
  import opened Services
  import opened Packets
  import opened Answers
  import Relaying

  datatype Config = Config(authEnabled: bool, password: seq<byte>, delivered: bool)

  /** The variables that outlive a frame. */
  datatype State = State(authorized: bool, terminal: Option<uint32>, identity: seq<byte>, pid: uint16, rn: uint16)

  function Start(cfg: Config): State {
    State(!cfg.authEnabled, None, [], 0, 0)
  }

  datatype QueueAnswer = Taken | CredentialsRefused | Refused

  datatype Input = Input(raw: seq<byte>, queue: QueueAnswer, doneFirst: bool, wroteAnswer: bool, wroteAuth: bool)

  /** What enqueue is called with. */
  datatype Offer = Offer(packet: Packet, raw: seq<byte>, terminal: Option<uint32>, identity: seq<byte>)

  /** What came of a frame: the state after it, the packets sent, the packet put to the queue, the
      code it got, and whether the connection ends here. */
  datatype Turn = Turn(next: State, sent: seq<Packet>, offered: Option<Offer>, code: byte, ends: bool)

  // ---- the authorization records of a packet ----

  function Subrecords(rs: seq<Records.RecordData>): (s: seq<S.Subrecord>)
    ensures |s| == |rs| && forall i :: 0 <= i < |s| ==> s[i] == rs[i].srd
  {
    seq(|rs|, i requires 0 <= i < |rs| => rs[i].srd)
  }

  /** The subrecords of the authorization services, in order. */
  function AuthRecords(ss: Frame): seq<S.Subrecord> {
    if ss == [] then []
    else AuthRecords(ss[..|ss| - 1]) + (if Relaying.AuthPair(ss[|ss| - 1]) then Subrecords(ss[|ss| - 1].rd) else [])
  }

  predicate AllAuth(ss: Frame) {
    forall i :: 0 <= i < |ss| ==> Relaying.AuthPair(ss[i])
  }

  predicate AllIdentity(rs: seq<S.Subrecord>) {
    forall i :: 0 <= i < |rs| ==> rs[i].Identity?
  }

  predicate AnyIdentity(rs: seq<S.Subrecord>) {
    exists i :: 0 <= i < |rs| && rs[i].Identity?
  }

  predicate AnyCredentials(rs: seq<S.Subrecord>) {
    exists i :: 0 <= i < |rs| && rs[i].Credentials?
  }

  predicate ValidLogin(cfg: Config, a: SrAuthInfo.AuthInfo) {
    a.upsw == cfg.password && a.ss.None?
  }

  predicate AnyValid(cfg: Config, rs: seq<S.Subrecord>) {
    exists i :: 0 <= i < |rs| && rs[i].Credentials? && ValidLogin(cfg, rs[i].auth)
  }

  predicate AllValid(cfg: Config, rs: seq<S.Subrecord>) {
    forall i :: 0 <= i < |rs| && rs[i].Credentials? ==> ValidLogin(cfg, rs[i].auth)
  }

  /** The identity given last. */
  function LastIdentity(rs: seq<S.Subrecord>): Option<SrTermIdentity.TermIdentity> {
    if rs == [] then None
    else if rs[|rs| - 1].Identity? then Some(rs[|rs| - 1].id)
    else LastIdentity(rs[..|rs| - 1])
  }

  /** What the packet asks of authorization. */
  datatype Login = Login(authRequest: bool, identityRequest: bool, hasCredentials: bool, onlyIdentity: bool,
                         denied: bool, granted: bool, last: Option<SrTermIdentity.TermIdentity>)

  function ReadLogin(cfg: Config, ss: Frame): Login {
    var rs := AuthRecords(ss);
    Login(AnyIdentity(rs) || AnyCredentials(rs), AnyIdentity(rs), AnyCredentials(rs),
          AllAuth(ss) && AllIdentity(rs),
          cfg.authEnabled && !AllValid(cfg, rs), cfg.authEnabled && AnyValid(cfg, rs), LastIdentity(rs))
  }

  /** Nothing but an identity from a terminal not authorized yet: its credentials are asked for. */
  predicate AsksCredentials(s: State, login: Login) {
    !s.authorized && login.identityRequest && login.onlyIdentity && !login.hasCredentials
  }

  function FirstCode(s: State, login: Login): byte {
    if login.denied || (!(s.authorized || login.granted) && !AsksCredentials(s, login)) then PC_AUTH_DENIED else PC_OK
  }

  /** The identity as it was sent; encoding a decoded one does not fail. */
  function IdentityOctets(id: SrTermIdentity.TermIdentity): seq<byte> {
    SrTermIdentity.Encode(id).value
  }

  function After(s: State, login: Login, onSession: bool): State {
    s.(authorized := s.authorized || login.granted,
       terminal := if login.last.Some? then Some(login.last.value.tid) else s.terminal,
       identity := if login.last.Some? && onSession then IdentityOctets(login.last.value) else s.identity)
  }

  function CodeOf(queue: QueueAnswer): byte {
    match queue
    case Taken => PC_OK
    case CredentialsRefused => PC_INC_DATAFORM
    case Refused => PC_NO_RES_AVAIL
  }

  function Next16(x: uint16): uint16 {
    (x + 1) % 0x1_0000
  }

  // ---- the answers ----

  function SentCount(code: byte, ss: Frame): nat {
    if code == PC_OK then |Groups(ss)| else 0
  }

  /** The answer, its records numbered from the one after rn. */
  function Reply(s: State, code: byte, requestId: uint16, ss: Frame): Packet {
    Answer(code, requestId, ss, Next16(s.rn), Next16(s.pid))
  }

  function Verdict(code: byte, asks: bool): S.Subrecord {
    if asks then S.AuthParams(0) else S.ResultCode(code)
  }

  /** The counters after the answers, the packets sent, and whether sending failed. */
  datatype Sending = Sending(pid: uint16, rn: uint16, sent: seq<Packet>, failed: bool)

  /** Sending the answers to a request with its code. */
  function Respond(s: State, code: byte, requestId: uint16, ss: Frame, auth: bool, asks: bool, input: Input): Sending {
    var answer := Reply(s, code, requestId, ss);
    var rn := (s.rn + SentCount(code, ss)) % 0x1_0000;
    if Packets.Encode(answer).Err? || !input.wroteAnswer then Sending(s.pid, s.rn, [], true)
    else if !auth then Sending(answer.pid, rn, [answer], false)
    else
      var verdict := AuthPacket(Verdict(code, asks), Next16(rn), Next16(answer.pid));
      if Packets.Encode(verdict).Err? || !input.wroteAuth then Sending(s.pid, s.rn, [answer], true)
      else Sending(verdict.pid, Next16(rn), [answer, verdict], false)
  }

  // ---- a frame ----

  /** What is put to the queue: a packet that is authorized, or needs no authorization. */
  function OfferOf(s: State, login: Login, onSession: bool, input: Input, p: Packet): Option<Offer> {
    var after := After(s, login, onSession);
    if FirstCode(s, login) == PC_OK && !AsksCredentials(s, login) then Some(Offer(p, input.raw, after.terminal, after.identity))
    else None
  }

  function CodeAfter(s: State, login: Login, offered: bool, input: Input): byte {
    if offered then CodeOf(input.queue) else FirstCode(s, login)
  }

  function HandleData(cfg: Config, s: State, onSession: bool, input: Input, p: Packet): Turn
    requires p.pt == PT_APPDATA && p.sfrd.AppData?
  {
    var ss := p.sfrd.services;
    var login := ReadLogin(cfg, ss);
    var offered := OfferOf(s, login, onSession, input, p);
    var code := CodeAfter(s, login, offered.Some?, input);
    if offered.Some? && code == PC_OK && cfg.delivered && !input.doneFirst then Turn(s, [], offered, code, true)
    else
      var r := Respond(s, code, p.pid, ss, login.authRequest, AsksCredentials(s, login), input);
      var next := if code == PC_OK && !r.failed then After(s, login, onSession) else s;
      Turn(next.(pid := r.pid, rn := r.rn), r.sent, offered, code, r.failed || code == PC_AUTH_DENIED)
  }

  function Handle(cfg: Config, s: State, onSession: bool, input: Input): Turn {
    match ReadPacket(input.raw)
    case Rejected(code, pt, pid) =>
      if pt != PT_APPDATA then Turn(s, [], None, code, false)
      else
        var r := Respond(s, code, pid, [], false, false, input);
        Turn(s.(pid := r.pid, rn := r.rn), r.sent, None, code, r.failed || code == PC_AUTH_DENIED)
    case Accepted(p) =>
      DataIsThere(input.raw, p);
      if p.pt != PT_APPDATA then Turn(s, [], None, PC_OK, false)
      else HandleData(cfg, s, onSession, input, p)
  }

  // ---- the loop body as it runs ----

  /** The renumbered records of an answer. */
  lemma LengthKept(requestId: uint16, ss: Frame, a: uint16, b: uint16)
    ensures ResponseLength(ResponseTo(PC_OK, requestId, AnswerRecords(Groups(ss), a)))
            == ResponseLength(ResponseTo(PC_OK, requestId, AnswerRecords(Groups(ss), b)))
  {
    hide Services.Concat, AnswerRecord, Groups, NonEmpty, Fits16, Services.Canonical;
    AnswerPartitions(ss);
    var g := Groups(ss);
    GroupsNonEmpty(ss);
    AnswerLength(g, a);
    AnswerLength(g, b);
    assert |AnswerRecords(g, a)| == |AnswerRecords(g, b)| == |g|;
  }

  /** The first n records numbered anew, from the one after first. */
  function Renumbered(ss: Frame, n: nat, first: nat): (r: Frame)
    requires n <= |ss|
    ensures |r| == |ss|
  {
    seq(|ss|, i requires 0 <= i < |ss| => if i < n then ss[i].(rn := (first + i + 1) % 0x1_0000) else ss[i])
  }

  lemma NoneRenumbered(ss: Frame, first: nat)
    ensures Renumbered(ss, 0, first) == ss
  {
  }

  lemma OneRenumbered(ss: Frame, n: nat, first: nat)
    requires n < |ss|
    ensures var was := Renumbered(ss, n, first);
            Renumbered(ss, n + 1, first) == was[n := was[n].(rn := Next16((first + n) % 0x1_0000))]
  {
    OneUp(first, n);
    assert Next16((first + n) % 0x1_0000) == (first + n + 1) % 0x1_0000;
  }

  lemma OneUp(first: nat, i: nat)
    ensures (first + i + 1) % 0x1_0000 == ((first + 1) % 0x1_0000 + i) % 0x1_0000
  {
  }

  lemma RenumberedAnswer(g: seq<Group>, first: uint16)
    ensures Renumbered(AnswerRecords(g, first), |g|, first) == AnswerRecords(g, Next16(first))
  {
    var a, b := Renumbered(AnswerRecords(g, first), |g|, first), AnswerRecords(g, Next16(first));
    forall i | 0 <= i < |g|
      ensures a[i] == b[i]
    {
      OneUp(first, i);
    }
  }

  /** Renumbering PrepareAnswer's answer gives the answer with the numbers that follow rn. */
  lemma RenumberedReply(code: byte, requestId: uint16, ss: Frame, rn: uint16, pid: uint16)
    ensures var a := Answer(code, requestId, ss, rn, pid);
            var b := Answer(code, requestId, ss, Next16(rn), pid);
            && (a.sfrd.response.sdr.None? ==> a == b && SentCount(code, ss) == 0)
            && (a.sfrd.response.sdr.Some? ==>
                  && SentCount(code, ss) == |a.sfrd.response.sdr.value|
                  && b == a.(sfrd := Response(a.sfrd.response.(
                       sdr := Some(Renumbered(a.sfrd.response.sdr.value, |a.sfrd.response.sdr.value|, rn))))))
  {
    hide Groups, EncodeResponse, AnswerRecord, ResponseLength, Renumbered;
    if code == PC_OK {
      var g := Groups(ss);
      RenumberedAnswer(g, rn);
      LengthKept(requestId, ss, rn, Next16(rn));
      if g == [] {
        assert AnswerRecords(g, rn) == [] && AnswerRecords(g, Next16(rn)) == [];
      } else {
        assert AnswerRecords(g, rn) != [] && AnswerRecords(g, Next16(rn)) != [];
      }
    }
  }

  lemma GroupsNonEmpty(ss: Frame)
    ensures NonEmpty(Groups(ss))
  {
    AnswerPartitions(ss);
  }

  class Handler {
    const cfg: Config
    const onSession: bool
    var authorized: bool
    var terminal: Option<uint32>
    var identity: seq<byte>
    var pid: uint16
    var rn: uint16

    constructor (cfg: Config, onSession: bool)
      ensures this.cfg == cfg && this.onSession == onSession && Current() == Start(cfg)
    {
      this.cfg, this.onSession := cfg, onSession;
      authorized, terminal, identity, pid, rn := !cfg.authEnabled, None, [], 0, 0;
    }

    function Current(): State
      reads this
    {
      State(authorized, terminal, identity, pid, rn)
    }

    /** connection.go:78-110: one authorization service. */
    method ScanService(start: Login, rs: seq<Records.RecordData>, ghost before: seq<S.Subrecord>) returns (login: Login)
      requires Gathered(start, before)
      ensures Gathered(login, before + Subrecords(rs))
      ensures login.onlyIdentity <==> start.onlyIdentity && AllIdentity(Subrecords(rs))
    {
      hide Gathered, Gather;
      login := start;
      ghost var all := Subrecords(rs);
      assert before + all[..0] == before;
      for k := 0 to |rs|
        invariant Gathered(login, before + all[..k])
        invariant login.onlyIdentity <==> start.onlyIdentity && AllIdentity(all[..k])
      {
        var data := rs[k].srd;
        GatheredMore(login, before + all[..k], data);
        assert before + all[..k] + [data] == before + all[..k + 1];
        IdentityMore(all, k);
        login := Gather(login, data);
      }
      assert all[..|rs|] == all;
    }

    /** connection.go:73-111. */
    method Scan(ss: Frame) returns (login: Login)
      ensures login == ReadLogin(cfg, ss)
    {
      hide Gathered, Relaying.AuthPair, AllIdentity;
      login := Login(false, false, false, true, false, false, None);
      NothingGathered(login);
      for n := 0 to |ss|
        invariant Gathered(login, AuthRecords(ss[..n]))
        invariant login.onlyIdentity <==> AllAuth(ss[..n]) && AllIdentity(AuthRecords(ss[..n]))
      {
        var service := ss[n];
        AuthMore(ss, n);
        if !Relaying.AuthPair(service) {
          SameGathered(login, AuthRecords(ss[..n]));
          login := login.(onlyIdentity := false);
        } else {
          login := ScanService(login, service.rd, AuthRecords(ss[..n]));
        }
      }
      assert ss[..|ss|] == ss;
      LoginGathered(login, ss);
    }

    lemma NothingGathered(login: Login)
      requires login == Login(false, false, false, true, false, false, None)
      ensures Gathered(login, []) && AllIdentity([])
    {
    }

    lemma SameGathered(login: Login, rs: seq<S.Subrecord>)
      requires Gathered(login, rs)
      ensures Gathered(login.(onlyIdentity := false), rs + [])
    {
      assert rs + [] == rs;
    }

    lemma LoginGathered(login: Login, ss: Frame)
      requires Gathered(login, AuthRecords(ss)) && (login.onlyIdentity <==> AllAuth(ss) && AllIdentity(AuthRecords(ss)))
      ensures login == ReadLogin(cfg, ss)
    {
    }

    /** connection.go:147-150. */
    method Renumber(incoming: Frame) returns (services: Frame)
      modifies this`rn
      ensures services == Renumbered(incoming, |incoming|, old(rn))
      ensures rn == (old(rn) + |incoming|) % 0x1_0000
    {
      hide Renumbered;
      services := incoming;
      NoneRenumbered(incoming, rn);
      for n := 0 to |incoming|
        invariant services == Renumbered(incoming, n, old(rn))
        invariant rn == (old(rn) + n) % 0x1_0000
      {
        OneRenumbered(incoming, n, old(rn));
        rn := Next16(rn);
        services := services[n := services[n].(rn := rn)];
      }
    }

    /** connection.go:143-151: the answer, its records numbered on from rn. */
    method PrepareReply(code: byte, requestId: uint16, ss: Frame) returns (answer: Packet)
      modifies this`pid, this`rn
      ensures answer == Reply(old(Current()), code, requestId, ss)
      ensures pid == answer.pid && rn == (old(rn) + SentCount(code, ss)) % 0x1_0000
    {
      hide Groups, EncodeResponse;
      pid := Next16(pid);
      answer := PrepareAnswer(code, requestId, ss, rn, pid);
      if answer.sfrd.response.sdr.Some? {
        var services := Renumber(answer.sfrd.response.sdr.value);
        answer := answer.(sfrd := Response(answer.sfrd.response.(sdr := Some(services))));
      }
      RenumberedReply(code, requestId, ss, old(rn), pid);
    }

    /** connection.go:143-187: the answers go out. */
    method SendAnswers(code: byte, requestId: uint16, ss: Frame, auth: bool, asks: bool, input: Input)
      returns (sent: seq<Packet>, failed: bool)
      modifies this`pid, this`rn
      ensures var r := Respond(old(Current()), code, requestId, ss, auth, asks, input);
              sent == r.sent && failed == r.failed && (!failed ==> pid == r.pid && rn == r.rn)
    {
      hide Packets.Encode, Reply, SentCount;
      var answer := PrepareReply(code, requestId, ss);
      var encoded := Packets.Encode(answer);
      if encoded.Err? || !input.wroteAnswer {
        return [], true;
      }
      if !auth {
        return [answer], false;
      }
      pid := Next16(pid);
      rn := Next16(rn);
      var verdict := AuthPacket(S.ResultCode(code), rn, pid);
      if asks {
        verdict := AuthPacket(S.AuthParams(0), rn, pid);
      }
      encoded := Packets.Encode(verdict);
      if encoded.Err? || !input.wroteAuth {
        return [answer], true;
      }
      return [answer, verdict], false;
    }

    /** connection.go:112-127: what goes to the queue, and the code of the packet. */
    method Judge(login: Login, p: Packet, input: Input, after: State) returns (offered: Option<Offer>, code: byte)
      requires after == After(Current(), login, onSession)
      ensures offered == OfferOf(Current(), login, onSession, input, p)
      ensures code == CodeAfter(Current(), login, offered.Some?, input)
    {
      offered, code := None, if login.denied then PC_AUTH_DENIED else PC_OK;
      var requestCredentials := !authorized && login.identityRequest && login.onlyIdentity && !login.hasCredentials;
      if !after.authorized && !requestCredentials {
        code := PC_AUTH_DENIED;
      }
      if code == PC_OK && !requestCredentials {
        offered := Some(Offer(p, input.raw, after.terminal, after.identity));
        if input.queue != QueueAnswer.Taken {
          code := PC_NO_RES_AVAIL;
          if input.queue == CredentialsRefused {
            code := PC_INC_DATAFORM;
          }
        }
      }
    }

    /** connection.go:62-214 for an APPDATA packet. */
    method HandlePacket(p: Packet, input: Input) returns (sent: seq<Packet>, offered: Option<Offer>, code: byte, ends: bool)
      requires p.pt == PT_APPDATA && p.sfrd.AppData?
      modifies this`authorized, this`terminal, this`identity, this`pid, this`rn
      ensures var r := HandleData(cfg, old(Current()), onSession, input, p);
              sent == r.sent && offered == r.offered && code == r.code && ends == r.ends && (!ends ==> Current() == r.next)
    {
      hide Respond, ReadLogin, After, OfferOf, CodeAfter, AsksCredentials;
      var services := p.sfrd.services;
      var login := Scan(services);
      var after := After(Current(), login, onSession);
      offered, code := Judge(login, p, input, after);
      if offered.Some? && code == PC_OK && cfg.delivered && !input.doneFirst {
        return [], offered, code, true;
      }
      sent, ends := SendAnswers(code, p.pid, services, login.authRequest, AsksCredentials(Current(), login), input);
      if !ends && code == PC_OK {
        authorized, terminal, identity := after.authorized, after.terminal, after.identity;
      }
      if code == PC_AUTH_DENIED {
        ends := true;
      }
    }

    /** One turn of the loop, from a frame read to the next read or the end of the connection. */
    method HandleFrame(input: Input) returns (sent: seq<Packet>, offered: Option<Offer>, code: byte, ends: bool)
      modifies this`authorized, this`terminal, this`identity, this`pid, this`rn
      ensures var r := Handle(cfg, old(Current()), onSession, input);
              sent == r.sent && offered == r.offered && code == r.code && ends == r.ends && (!ends ==> Current() == r.next)
    {
      hide Respond, HandleData, ReadPacket;
      match ReadPacket(input.raw) {
        case Rejected(c, pt, id) =>
          if pt != PT_APPDATA {
            return [], None, c, false;
          }
          offered, code := None, c;
          sent, ends := SendAnswers(c, id, [], false, false, input);
          if c == PC_AUTH_DENIED {
            ends := true;
          }
        case Accepted(p) =>
          if p.pt != PT_APPDATA {
            return [], None, PC_OK, false;
          }
          DataIsThere(input.raw, p);
          sent, offered, code, ends := HandlePacket(p, input);
      }
    }

    /** What the switch does with one authorization record. */
    function Gather(login: Login, data: S.Subrecord): Login {
      match data
      case Identity(id) => login.(last := Some(id), authRequest := true, identityRequest := true)
      case Credentials(auth) =>
        var l := login.(hasCredentials := true, onlyIdentity := false, authRequest := true);
        if !cfg.authEnabled then l
        else if !ValidLogin(cfg, auth) then l.(denied := true)
        else l.(granted := true)
      case _ => login.(onlyIdentity := false)
    }

    predicate Gathered(login: Login, rs: seq<S.Subrecord>) {
      && (login.authRequest <==> AnyIdentity(rs) || AnyCredentials(rs))
      && (login.identityRequest <==> AnyIdentity(rs)) && (login.hasCredentials <==> AnyCredentials(rs))
      && (login.denied <==> cfg.authEnabled && !AllValid(cfg, rs)) && (login.granted <==> cfg.authEnabled && AnyValid(cfg, rs))
      && login.last == LastIdentity(rs)
    }

    lemma GatheredMore(login: Login, rs: seq<S.Subrecord>, data: S.Subrecord)
      requires Gathered(login, rs)
      ensures Gathered(Gather(login, data), rs + [data])
      ensures Gather(login, data).onlyIdentity <==> login.onlyIdentity && data.Identity?
    {
      var more := rs + [data];
      assert more[..|more| - 1] == rs && more[|rs|] == data;
      AnyMore(cfg, rs, data);
    }
  }

  lemma IdentityMore(rs: seq<S.Subrecord>, k: nat)
    requires k < |rs|
    ensures AllIdentity(rs[..k + 1]) <==> AllIdentity(rs[..k]) && rs[k].Identity?
  {
    assert rs[..k + 1] == rs[..k] + [rs[k]];
    assert forall i :: 0 <= i < k ==> rs[..k + 1][i] == rs[..k][i];
    assert rs[..k + 1][k] == rs[k];
  }

  lemma AuthMore(ss: Frame, n: nat)
    requires n < |ss|
    ensures AuthRecords(ss[..n + 1])
            == AuthRecords(ss[..n]) + (if Relaying.AuthPair(ss[n]) then Subrecords(ss[n].rd) else [])
    ensures AllAuth(ss[..n + 1]) <==> AllAuth(ss[..n]) && Relaying.AuthPair(ss[n])
    ensures AllIdentity(AuthRecords(ss[..n + 1])) <==>
              AllIdentity(AuthRecords(ss[..n])) && (Relaying.AuthPair(ss[n]) ==> AllIdentity(Subrecords(ss[n].rd)))
  {
    assert ss[..n + 1][..n] == ss[..n];
    assert forall i :: 0 <= i < n ==> ss[..n + 1][i] == ss[..n][i];
    assert ss[..n + 1][n] == ss[n];
    AllIdentityJoin(AuthRecords(ss[..n]), if Relaying.AuthPair(ss[n]) then Subrecords(ss[n].rd) else []);
  }

  lemma AllIdentityJoin(a: seq<S.Subrecord>, b: seq<S.Subrecord>)
    ensures AllIdentity(a + b) <==> AllIdentity(a) && AllIdentity(b)
  {
    assert forall i :: 0 <= i < |a| ==> (a + b)[i] == a[i];
    assert forall i :: 0 <= i < |b| ==> (a + b)[|a| + i] == b[i];
  }

  lemma AnyMore(cfg: Config, rs: seq<S.Subrecord>, data: S.Subrecord)
    ensures AnyIdentity(rs + [data]) <==> AnyIdentity(rs) || data.Identity?
    ensures AnyCredentials(rs + [data]) <==> AnyCredentials(rs) || data.Credentials?
    ensures AnyValid(cfg, rs + [data]) <==> AnyValid(cfg, rs) || (data.Credentials? && ValidLogin(cfg, data.auth))
    ensures AllValid(cfg, rs + [data]) <==> AllValid(cfg, rs) && (data.Credentials? ==> ValidLogin(cfg, data.auth))
  {
    var more := rs + [data];
    assert more[|rs|] == data;
    assert forall i :: 0 <= i < |rs| ==> more[i] == rs[i];
  }
}
