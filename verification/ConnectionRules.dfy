/** What becomes of a data packet, by what it holds (gateway/server/connection.go:66-214). */
module ConnectionRules {
  import opened Bytes
  import S = Subrecords
  import SrAuthInfo
  import SrTermIdentity
  import Records
  import Relaying
  import opened Services
  import opened Packets
  import opened Connection
  import Agreement
  import Answers

  // ---- what a packet holds ----

  predicate OfAuth(s: ServiceRecord) {
    s.sst == SERVICE_AUTH && s.rst == SERVICE_AUTH
  }

  /** Nothing but identities, all for authorization, and at least one. */
  predicate OnlyIdentifies(ss: Frame) {
    && (exists s :: s in ss && s.rd != [])
    && forall s :: s in ss ==> OfAuth(s) && forall r :: r in s.rd ==> r.srd.Identity?
  }

  predicate GoodLogin(cfg: Config, x: S.Subrecord) {
    x.Credentials? && x.auth.upsw == cfg.password && x.auth.ss.None?
  }

  predicate BadLogin(cfg: Config, x: S.Subrecord) {
    x.Credentials? && (x.auth.upsw != cfg.password || x.auth.ss.Some?)
  }

  /** The subrecord is in some service of authorization. */
  predicate Carries(ss: Frame, x: S.Subrecord) {
    exists s, r :: s in ss && OfAuth(s) && r in s.rd && r.srd == x
  }

  ghost predicate SomeGood(cfg: Config, ss: Frame) {
    exists x :: Carries(ss, x) && GoodLogin(cfg, x)
  }

  ghost predicate SomeBad(cfg: Config, ss: Frame) {
    exists x :: Carries(ss, x) && BadLogin(cfg, x)
  }

  /** It wants an authorization verdict. */
  ghost predicate OnAuthorization(ss: Frame) {
    exists x :: Carries(ss, x) && (x.Identity? || x.Credentials?)
  }

  // ---- as the handler gathers it ----

  lemma {:induction false} Gathered(ss: Frame, x: S.Subrecord)
    ensures x in AuthRecords(ss) <==> Carries(ss, x)
  {
    if ss != [] {
      var n := |ss| - 1;
      Gathered(ss[..n], x);
      assert ss == ss[..n] + [ss[n]];
      if x in Subrecords(ss[n].rd) {
        var i :| 0 <= i < |ss[n].rd| && ss[n].rd[i].srd == x;
        assert ss[n].rd[i] in ss[n].rd;
      }
      forall r | r in ss[n].rd && r.srd == x
        ensures x in Subrecords(ss[n].rd)
      {
        var i :| 0 <= i < |ss[n].rd| && ss[n].rd[i] == r;
        assert Subrecords(ss[n].rd)[i] == x;
      }
    }
  }

  lemma LoginSays(cfg: Config, ss: Frame)
    ensures var l := ReadLogin(cfg, ss);
            && (l.authRequest <==> OnAuthorization(ss))
            && (l.denied <==> cfg.authEnabled && SomeBad(cfg, ss)) && (l.granted <==> cfg.authEnabled && SomeGood(cfg, ss))
            && (l.identityRequest && l.onlyIdentity && !l.hasCredentials <==> OnlyIdentifies(ss))
  {
    var rs := AuthRecords(ss);
    forall x
      ensures x in rs <==> Carries(ss, x)
    {
      Gathered(ss, x);
    }
    OnlyIdentitySays(ss);
    hide AuthRecords, Carries, OnlyIdentifies, AllAuth;
    assert forall i :: 0 <= i < |rs| ==> rs[i] in rs;
  }

  lemma OnlyIdentitySays(ss: Frame)
    ensures var rs := AuthRecords(ss);
            AnyIdentity(rs) && AllAuth(ss) && AllIdentity(rs) && !AnyCredentials(rs) <==> OnlyIdentifies(ss)
  {
    var rs := AuthRecords(ss);
    forall x
      ensures x in rs <==> Carries(ss, x)
    {
      Gathered(ss, x);
    }
    hide AuthRecords;
    if AnyIdentity(rs) && AllAuth(ss) && AllIdentity(rs) {
      assert exists s :: s in ss && s.rd != [] by {
        var i :| 0 <= i < |rs| && rs[i].Identity?;
        assert Carries(ss, rs[i]);
      }
      forall s, r | s in ss && r in s.rd
        ensures OfAuth(s) && r.srd.Identity?
      {
        var i :| 0 <= i < |ss| && ss[i] == s;
        assert Relaying.AuthPair(ss[i]);
        assert Carries(ss, r.srd);
      }
    }
    if OnlyIdentifies(ss) {
      var s :| s in ss && s.rd != [];
      assert s.rd[0] in s.rd;
      assert Carries(ss, s.rd[0].srd);
      forall i | 0 <= i < |rs|
        ensures rs[i].Identity?
      {
        assert rs[i] in rs && Carries(ss, rs[i]);
      }
    }
  }

  // ---- the identity given last ----

  /** The last identity in the services of authorization is the k-th subrecord of the i-th service. */
  predicate LastGiven(ss: Frame, i: nat, k: nat) {
    && i < |ss| && OfAuth(ss[i]) && k < |ss[i].rd| && ss[i].rd[k].srd.Identity?
    && (forall m :: k < m < |ss[i].rd| ==> !ss[i].rd[m].srd.Identity?)
    && forall j :: i < j < |ss| && OfAuth(ss[j]) ==> forall r :: r in ss[j].rd ==> !r.srd.Identity?
  }

  lemma {:induction false} LastJoin(a: seq<S.Subrecord>, b: seq<S.Subrecord>)
    ensures LastIdentity(a + b) == if LastIdentity(b).Some? then LastIdentity(b) else LastIdentity(a)
    decreases |b|
  {
    if b == [] {
      assert a + b == a;
    } else {
      LastJoin(a, b[..|b| - 1]);
      assert (a + b)[..|a + b| - 1] == a + b[..|b| - 1];
    }
  }

  lemma {:induction false} LastOf(rs: seq<S.Subrecord>, k: nat)
    requires k < |rs| && rs[k].Identity? && forall m :: k < m < |rs| ==> !rs[m].Identity?
    ensures LastIdentity(rs) == Some(rs[k].id)
    decreases |rs|
  {
    if k < |rs| - 1 {
      LastOf(rs[..|rs| - 1], k);
    }
  }

  lemma {:induction false} NoneOf(rs: seq<S.Subrecord>)
    requires forall m :: 0 <= m < |rs| ==> !rs[m].Identity?
    ensures LastIdentity(rs) == None
  {
    if rs != [] {
      NoneOf(rs[..|rs| - 1]);
    }
  }

  lemma {:induction false} LastGathered(ss: Frame, i: nat, k: nat)
    requires LastGiven(ss, i, k)
    ensures LastIdentity(AuthRecords(ss)) == Some(ss[i].rd[k].srd.id)
    decreases |ss|
  {
    hide LastIdentity;
    var n := |ss| - 1;
    var own := Subrecords(ss[n].rd);
    assert ss[n] in ss;
    LastJoin(AuthRecords(ss[..n]), own);
    LastJoin(AuthRecords(ss[..n]), []);
    if i == n {
      LastOf(own, k);
    } else {
      assert forall j :: i < j < n ==> ss[..n][j] == ss[j];
      LastGathered(ss[..n], i, k);
      NoneOf([]);
      if OfAuth(ss[n]) {
        assert forall m :: 0 <= m < |own| ==> ss[n].rd[m] in ss[n].rd;
        NoneOf(own);
      }
    }
  }

  lemma NoneGathered(ss: Frame)
    requires forall x :: Carries(ss, x) ==> !x.Identity?
    ensures LastIdentity(AuthRecords(ss)) == None
  {
    var rs := AuthRecords(ss);
    forall m | 0 <= m < |rs|
      ensures !rs[m].Identity?
    {
      Gathered(ss, rs[m]);
    }
    NoneOf(rs);
  }

  // ---- the packet decides ----

  /** Credentials that are wrong, or a packet from a terminal neither authorized nor authorizing itself,
      that does more than to give its identity. */
  ghost predicate Denied(cfg: Config, s: State, ss: Frame) {
    (cfg.authEnabled && SomeBad(cfg, ss)) || (!Known(cfg, s, ss) && !OnlyIdentifies(ss))
  }

  ghost predicate Known(cfg: Config, s: State, ss: Frame) {
    s.authorized || (cfg.authEnabled && SomeGood(cfg, ss))
  }

  /** It is asked for its credentials. */
  predicate Asked(s: State, ss: Frame) {
    !s.authorized && OnlyIdentifies(ss)
  }

  /** What is answered, and what is put to the queue, follows from the packet, whether the terminal is
      authorized and the queue's answer: a denied packet and one whose terminal is asked for its
      credentials are not put to the queue, every other is. */
  lemma DecidedByContent(cfg: Config, s: State, onSession: bool, input: Input, p: Packet)
    requires ReadPacket(input.raw) == Accepted(p) && p.pt == PT_APPDATA && p.sfrd.AppData?
    ensures var o, ss := Handle(cfg, s, onSession, input), p.sfrd.services;
            && (Denied(cfg, s, ss) ==> o.code == PC_AUTH_DENIED && o.offered.None? && o.ends)
            && (Asked(s, ss) ==> !Denied(cfg, s, ss) && o.code == PC_OK && o.offered.None?)
            && (!Denied(cfg, s, ss) && !Asked(s, ss) ==>
                  && o.offered.Some? && o.offered.value.packet == p && o.offered.value.raw == input.raw
                  && (o.code == PC_OK <==> input.queue.Taken?) && (o.code == PC_INC_DATAFORM <==> input.queue.CredentialsRefused?)
                  && (o.code == PC_NO_RES_AVAIL <==> input.queue.Refused?))
            && (o.code == PC_OK && !o.ends ==> (o.next.authorized <==> Known(cfg, s, ss)))
  {
    hide ReadPacket, Respond, ReadLogin, After, OnlyIdentifies, SomeGood, SomeBad, OnAuthorization;
    var ss := p.sfrd.services;
    LoginSays(cfg, ss);
    if OnlyIdentifies(ss) {
      NoLogin(cfg, ss);
    }
    assert After(s, ReadLogin(cfg, ss), onSession).authorized == (s.authorized || ReadLogin(cfg, ss).granted) by {
      AfterSays(s, ReadLogin(cfg, ss), onSession);
    }
  }

  lemma AfterSays(s: State, login: Login, onSession: bool)
    ensures After(s, login, onSession).authorized == (s.authorized || login.granted)
  {
  }

  lemma NoLogin(cfg: Config, ss: Frame)
    requires OnlyIdentifies(ss)
    ensures !SomeGood(cfg, ss) && !SomeBad(cfg, ss)
  {
  }

  lemma OfferSays(cfg: Config, s: State, onSession: bool, input: Input, p: Packet)
    requires ReadPacket(input.raw) == Accepted(p) && p.pt == PT_APPDATA && p.sfrd.AppData?
    ensures var o, last := Handle(cfg, s, onSession, input).offered, LastIdentity(AuthRecords(p.sfrd.services));
            o.Some? ==>
              && o.value.terminal == (if last.Some? then Some(last.value.tid) else s.terminal)
              && o.value.identity == (if last.Some? && onSession then IdentityOctets(last.value) else s.identity)
  {
    hide ReadPacket, Respond, LastIdentity, AuthRecords, IdentityOctets, AnyValid, AllValid, AllAuth, AllIdentity, AnyIdentity,
         AnyCredentials;
  }

  lemma IdentityEncodes(id: SrTermIdentity.TermIdentity)
    ensures SrTermIdentity.Encode(id) == Ok(IdentityOctets(id))
  {
  }

  /** The terminal and the identity that a packet is queued with are those given last, in it or before;
      an identity only on a relay session. */
  lemma GivenLast(cfg: Config, s: State, onSession: bool, input: Input, p: Packet, o: Offer, i: nat, k: nat)
    requires ReadPacket(input.raw) == Accepted(p) && p.pt == PT_APPDATA && p.sfrd.AppData?
    requires Handle(cfg, s, onSession, input).offered == Some(o)
    ensures LastGiven(p.sfrd.services, i, k) ==>
              var id := p.sfrd.services[i].rd[k].srd.id;
              o.terminal == Some(id.tid) && (onSession ==> SrTermIdentity.Encode(id) == Ok(o.identity))
    ensures (forall x :: Carries(p.sfrd.services, x) ==> !x.Identity?) ==> o.terminal == s.terminal && o.identity == s.identity
    ensures !onSession ==> o.identity == s.identity
  {
    hide Handle, ReadPacket, LastIdentity, AuthRecords, SrTermIdentity.Encode;
    var ss := p.sfrd.services;
    OfferSays(cfg, s, onSession, input, p);
    if LastGiven(ss, i, k) {
      IdentityEncodes(ss[i].rd[k].srd.id);
      LastGathered(ss, i, k);
    }
    if forall x :: Carries(ss, x) ==> !x.Identity? {
      NoneGathered(ss);
    }
  }

  /** So are those kept for the packets to come, after a packet that was answered OK. */
  lemma KeptLast(cfg: Config, s: State, onSession: bool, input: Input, p: Packet, i: nat, k: nat)
    requires ReadPacket(input.raw) == Accepted(p) && p.pt == PT_APPDATA && p.sfrd.AppData?
    requires Handle(cfg, s, onSession, input).code == PC_OK && !Handle(cfg, s, onSession, input).ends
    ensures LastGiven(p.sfrd.services, i, k) ==>
              var n, id := Handle(cfg, s, onSession, input).next, p.sfrd.services[i].rd[k].srd.id;
              n.terminal == Some(id.tid) && (onSession ==> SrTermIdentity.Encode(id) == Ok(n.identity))
    ensures (forall x :: Carries(p.sfrd.services, x) ==> !x.Identity?) ==>
              var n := Handle(cfg, s, onSession, input).next; n.terminal == s.terminal && n.identity == s.identity
    ensures !onSession ==> Handle(cfg, s, onSession, input).next.identity == s.identity
  {
    hide Handle, ReadPacket, LastIdentity, AuthRecords, SrTermIdentity.Encode;
    var ss := p.sfrd.services;
    NextSays(cfg, s, onSession, input, p);
    if LastGiven(ss, i, k) {
      IdentityEncodes(ss[i].rd[k].srd.id);
      LastGathered(ss, i, k);
    }
    if forall x :: Carries(ss, x) ==> !x.Identity? {
      NoneGathered(ss);
    }
  }

  lemma NextSays(cfg: Config, s: State, onSession: bool, input: Input, p: Packet)
    requires ReadPacket(input.raw) == Accepted(p) && p.pt == PT_APPDATA && p.sfrd.AppData?
    requires Handle(cfg, s, onSession, input).code == PC_OK && !Handle(cfg, s, onSession, input).ends
    ensures var n, last := Handle(cfg, s, onSession, input).next, LastIdentity(AuthRecords(p.sfrd.services));
            && n.terminal == (if last.Some? then Some(last.value.tid) else s.terminal)
            && n.identity == (if last.Some? && onSession then IdentityOctets(last.value) else s.identity)
  {
    hide ReadPacket, Respond, LastIdentity, AuthRecords, IdentityOctets, AnyValid, AllValid, AllAuth, AllIdentity, AnyIdentity,
         AnyCredentials;
  }

  /** A data packet that does not read is answered with the code of its fault and its identifier, and
      leaves all but the counters as they are; any other packet that does not read is passed over. */
  lemma RefusedByReading(cfg: Config, s: State, onSession: bool, input: Input, code: byte, pt: byte, id: uint16)
    requires ReadPacket(input.raw) == Rejected(code, pt, id)
    ensures var o := Handle(cfg, s, onSession, input);
            && o.offered.None? && o.next == s.(pid := o.next.pid, rn := o.next.rn)
            && (pt == PT_APPDATA ==>
                  && o.code == code
                  && (input.wroteAnswer ==>
                        && |o.sent| == 1 && o.sent[0].sfrd.Response?
                        && o.sent[0].sfrd.response == PtResponse(id, code, None)))
            && (pt != PT_APPDATA ==> o.sent == [] && !o.ends && o.next == s)
  {
    RejectedSays(input.raw);
    Answers.RefusalEncodes(code, id, [], Next16(s.rn), Next16(s.pid));
    hide ReadPacket, Packets.Encode, Packets.Canonical, Answers.ResponseLength;
  }

  // ---- the verdict on authorization ----

  /** One subrecord for authorization. */
  predicate SaysOnly(p: Packet, x: S.Subrecord) {
    && p.pt == PT_APPDATA && p.sfrd.AppData? && |p.sfrd.services| == 1 && OfAuth(p.sfrd.services[0])
    && |p.sfrd.services[0].rd| == 1 && p.sfrd.services[0].rd[0].srt == S.TypeOf(x) && p.sfrd.services[0].rd[0].srd == x
  }

  lemma RespondSays(s: State, code: byte, requestId: uint16, ss: Frame, auth: bool, asks: bool, input: Input)
    ensures var r := Respond(s, code, requestId, ss, auth, asks, input);
            r.sent != [] ==>
              && (|r.sent| == 2 <==> auth && input.wroteAuth)
              && (|r.sent| == 2 ==> SaysOnly(r.sent[1], if asks then S.AuthParams(0) else S.ResultCode(code)))
  {
    hide Packets.Encode, Packets.Canonical, Reply;
    var rn: uint16 := (s.rn + SentCount(code, ss)) % 0x1_0000;
    var pid := Reply(s, code, requestId, ss).pid;
    Agreement.VerdictEncodes(Verdict(code, asks), Next16(rn), Next16(pid));
  }

  /** After the answer to a packet about authorization goes a verdict: the code of the answer, or the
      demand for credentials; and none after others. */
  lemma VerdictByContent(cfg: Config, s: State, onSession: bool, input: Input, p: Packet)
    requires ReadPacket(input.raw) == Accepted(p) && p.pt == PT_APPDATA && p.sfrd.AppData?
    ensures var o, ss := Handle(cfg, s, onSession, input), p.sfrd.services;
            o.sent != [] ==>
              && (|o.sent| == 2 <==> OnAuthorization(ss) && input.wroteAuth)
              && (|o.sent| == 2 ==> SaysOnly(o.sent[1], if Asked(s, ss) then S.AuthParams(0) else S.ResultCode(o.code)))
  {
    hide ReadPacket, Respond, ReadLogin, After, OnlyIdentifies, SomeGood, SomeBad, OnAuthorization, CodeAfter, OfferOf, SaysOnly;
    var ss := p.sfrd.services;
    LoginSays(cfg, ss);
    var login := ReadLogin(cfg, ss);
    var code := CodeAfter(s, login, OfferOf(s, login, onSession, input, p).Some?, input);
    RespondSays(s, code, p.pid, ss, login.authRequest, AsksCredentials(s, login), input);
  }
}
