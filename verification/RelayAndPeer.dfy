/** A relay and its peer: the writer of one gateway (gateway/destination/egts.go) talking to the
    connection handler of another (gateway/server/connection.go). */
module RelayAndPeer {
  import opened Bytes
  import S = Subrecords
  import SrTermIdentity
  import Records
  import opened Services
  import opened Packets
  import opened Answers
  import opened Relaying
  import opened Exchange
  import opened Agreement
  import C = Connection
  import opened RelayWriter

  // ---- how much is written ----

  lemma OneReply(raw: seq<byte>)
    ensures |RepliesOf(raw)| <= 1
  {
    hide ReadPacket, Answer;
  }

  lemma {:induction false} RepliesBounded(pid: uint16, expectAuth: bool, st: Progress, frames: seq<seq<byte>>)
    ensures var r := Await(pid, expectAuth, st, frames); r.Success? ==> |r.replies| <= r.consumed
    decreases |frames|
  {
    hide Receive, RepliesOf, Done;
    if frames != [] {
      OneReply(frames[0]);
      var r := Receive(pid, expectAuth, st, frames[0]);
      if r.Ok? {
        RepliesBounded(pid, expectAuth, r.value, frames[1..]);
      }
    }
  }

  // ---- one exchange ----

  /** The peer takes a packet and goes on; the line brings what it sends, and whatever else, and lets
      the relay write as much as it has to. */
  predicate Serves(cfg: C.Config, s: C.State, onSession: bool, input: C.Input, line: Line) {
    var o := C.Handle(cfg, s, onSession, input);
    && o.code == PC_OK && !o.ends && line.writes >= 3
    && (forall i :: 0 <= i < |o.sent| ==> Packets.Encode(o.sent[i]).Ok?)
    && Wire(o.sent) <= line.frames
  }

  lemma ServedTalk(cfg: C.Config, s: C.State, onSession: bool, input: C.Input, p: Packet, line: Line)
    requires ReadPacket(input.raw) == Accepted(p) && p.pt == PT_APPDATA && p.sfrd.AppData?
    requires Serves(cfg, s, onSession, input, line)
    ensures var login := C.ReadLogin(cfg, p.sfrd.services);
            var r := Talk(p.pid, p.sfrd.services, login.authRequest, line);
            r.Success? && (r.required <==> login.authRequest && C.AsksCredentials(s, login))
  {
    hide ReadPacket, C.Handle, C.ReadLogin, C.AsksCredentials, Packets.Encode, Await;
    var o := C.Handle(cfg, s, onSession, input);
    var rest := line.frames[|o.sent|..];
    assert line.frames == Wire(o.sent) + rest;
    PeersAgree(cfg, s, onSession, input, p, rest);
    var login := C.ReadLogin(cfg, p.sfrd.services);
    RepliesBounded(p.pid, login.authRequest, Begin(p.sfrd.services, login.authRequest), line.frames);
  }

  // ---- a login ----

  predicate IsLogin(data: S.Subrecord) {
    (data.Identity? && SrTermIdentity.Canonical(data.id)) || data.Credentials?
  }

  lemma LoginCanonical(data: S.Subrecord, pid: uint16)
    requires IsLogin(data) && Packets.Encode(LoginRequest(data, pid)).Ok?
    ensures Packets.Canonical(LoginRequest(data, pid)) && Packets.Unplaced(LoginRequest(data, pid).sfrd)
  {
    hide Crc.Crc8, Crc.Crc16, SrTermIdentity.Canonical, SrTermIdentity.Encode;
    var p := LoginRequest(data, pid);
    var s := p.sfrd.services[0];
    LoginData(data, s);
    assert Records.Unplaced(s.rd);
  }

  lemma LoginData(data: S.Subrecord, s: ServiceRecord)
    requires IsLogin(data) && |s.rd| == 1 && s.rd[0].srd == data && s.rd[0].srt == S.TypeOf(data) && Services.Encode([s]).Ok?
    ensures Records.Canonical(s.rd)
  {
    hide SrTermIdentity.Canonical, SrTermIdentity.Encode;
    assert [s][1..] == [];
  }

  lemma LoginArrives(data: S.Subrecord, pid: uint16)
    requires IsLogin(data) && Packets.Encode(LoginRequest(data, pid)).Ok?
    ensures var request := LoginRequest(data, pid); var o := ReadPacket(Packets.Encode(request).value);
            o.Accepted? && o.p.pid == pid && o.p.pt == PT_APPDATA && o.p.sfrd == request.sfrd && o.p.sfrd.AppData?
  {
    hide ReadPacket, Packets.Encode, Sealed, Packets.Canonical, Packets.Unplaced, IsLogin;
    var request := LoginRequest(data, pid);
    LoginCanonical(data, pid);
    Packets.DecodeEncode(request);
    SealedSame(request);
  }

  /** What a login request asks of the peer. */
  lemma LoginRead(cfg: C.Config, data: S.Subrecord, pid: uint16)
    requires data.Identity? || data.Credentials?
    ensures var login := C.ReadLogin(cfg, LoginRequest(data, pid).sfrd.services);
            && login.authRequest && (login.hasCredentials <==> data.Credentials?)
            && (login.denied || login.granted ==> data.Credentials? && cfg.authEnabled)
  {
    OneAuthRecord(data, pid);
    var ss := LoginRequest(data, pid).sfrd.services;
    hide LoginRequest, C.AuthRecords, C.AllAuth, C.AllIdentity, C.LastIdentity, C.ValidLogin;
    var rs := C.AuthRecords(ss);
    assert rs[0] == data;
  }

  lemma OneAuthRecord(data: S.Subrecord, pid: uint16)
    ensures C.AuthRecords(LoginRequest(data, pid).sfrd.services) == [data]
  {
    var ss := LoginRequest(data, pid).sfrd.services;
    assert ss[..0] == [];
    assert C.Subrecords(ss[0].rd) == [data];
    assert C.AuthRecords([]) == [];
    assert C.AuthRecords(ss) == [] + [data];
  }

  /** A packet the peer takes leaves it authorized when it was, or when it does not have to ask. */
  lemma TakenAuthorizes(cfg: C.Config, s: C.State, onSession: bool, input: C.Input, p: Packet)
    requires ReadPacket(input.raw) == Accepted(p) && p.pt == PT_APPDATA && p.sfrd.AppData?
    requires var o := C.Handle(cfg, s, onSession, input); o.code == PC_OK && !o.ends
    ensures var next := C.Handle(cfg, s, onSession, input).next;
            next.authorized <==> s.authorized || !C.AsksCredentials(s, C.ReadLogin(cfg, p.sfrd.services))
                                 || C.ReadLogin(cfg, p.sfrd.services).granted
  {
    hide ReadPacket, C.Respond, C.ReadLogin, C.IdentityOctets;
  }

  lemma LoginServed(cfg: C.Config, s: C.State, onSession: bool, input: C.Input, account: Account, data: S.Subrecord, pid: uint16, line: Line)
    requires IsLogin(data) && Packets.Encode(LoginRequest(data, pid)).Ok?
    requires input.raw == Packets.Encode(LoginRequest(data, pid)).value && Serves(cfg, s, onSession, input, line)
    requires !s.authorized ==> account.enabled
    ensures LoginPasses(account, data, LoginRequest(data, pid), line)
    ensures var next := C.Handle(cfg, s, onSession, input).next; s.authorized || data.Credentials? ==> next.authorized
  {
    var request := LoginRequest(data, pid);
    hide ReadPacket, Packets.Encode, C.Handle, C.ReadLogin, Talk, Serves, LoginRequest;
    LoginArrives(data, pid);
    var p := ReadPacket(input.raw).p;
    LoginRead(cfg, data, pid);
    ServedTalk(cfg, s, onSession, input, p, line);
    ServesTakes(cfg, s, onSession, input, line);
    TakenAuthorizes(cfg, s, onSession, input, p);
    RequestId(data, pid);
    TalkPasses(account, s, data, request, p, line, C.ReadLogin(cfg, p.sfrd.services));
  }

  lemma ServesTakes(cfg: C.Config, s: C.State, onSession: bool, input: C.Input, line: Line)
    requires Serves(cfg, s, onSession, input, line)
    ensures var o := C.Handle(cfg, s, onSession, input); o.code == PC_OK && !o.ends
  {
    hide C.Handle;
  }

  lemma TalkPasses(account: Account, s: C.State, data: S.Subrecord, request: Packet, p: Packet, line: Line, login: C.Login)
    requires p.sfrd.AppData? && p.sfrd == request.sfrd && p.pid == request.pid && Packets.Encode(request).Ok?
    requires login.authRequest && (login.hasCredentials <==> data.Credentials?) && (!s.authorized ==> account.enabled)
    requires var r := Talk(p.pid, p.sfrd.services, login.authRequest, line); r.Success? && (r.required <==> C.AsksCredentials(s, login))
    ensures LoginPasses(account, data, request, line)
  {
    hide Packets.Encode, Talk;
  }

  // ---- the whole conversation ----

  /** What authenticate sends is what a terminal would. */
  lemma LoginsAreLogins(account: Account, identity: seq<byte>, i: nat)
    requires Logins(account, identity).Ok? && i < |Logins(account, identity).value|
    ensures IsLogin(Logins(account, identity).value[i])
    ensures account.enabled ==> var l := Logins(account, identity).value; l != [] && l[|l| - 1].Credentials?
  {
    hide SrTermIdentity.Decode, SrTermIdentity.Canonical, SrTermIdentity.Encode;
    if identity != [] {
      SrTermIdentity.EncodeDecode(identity);
    }
  }

  /** The states of the peer from one packet to the next. What the relay writes back in between
      changes nothing; see RepliesPassedOver. */
  predicate PeerStates(cfg: C.Config, onSession: bool, ins: seq<C.Input>, ss: seq<C.State>) {
    && |ss| == |ins| + 1 && ss[0] == C.Start(cfg)
    && forall i :: 0 <= i < |ins| ==> StateAt(cfg, onSession, ins, ss, i)
  }

  predicate StateAt(cfg: C.Config, onSession: bool, ins: seq<C.Input>, ss: seq<C.State>, i: nat)
    requires i < |ins| && |ss| == |ins| + 1
  {
    ss[i + 1] == C.Handle(cfg, ss[i], onSession, ins[i]).next
  }

  /** The login requests reach the peer in order, and each is served. */
  predicate LoginsServed(cfg: C.Config, onSession: bool, logins: seq<S.Subrecord>, pid: uint16, ins: seq<C.Input>, ss: seq<C.State>,
                         network: Network)
    requires |ss| == |ins| + 1 && |logins| <= |ins|
  {
    forall i :: 0 <= i < |logins| ==> LoginServedAt(cfg, onSession, logins, pid, ins[i], ss[i], network, i)
  }

  predicate LoginServedAt(cfg: C.Config, onSession: bool, logins: seq<S.Subrecord>, pid: uint16, input: C.Input, s: C.State,
                          network: Network, i: nat)
    requires i < |logins|
  {
    && Packets.Encode(LoginRequests(logins, pid)[i]).Ok? && input.raw == Packets.Encode(LoginRequests(logins, pid)[i]).value
    && Serves(cfg, s, onSession, input, LineFor(network, i))
  }

  lemma {:induction false} LoginsPass(cfg: C.Config, onSession: bool, account: Account, identity: seq<byte>, pid: uint16,
                                      ins: seq<C.Input>, ss: seq<C.State>, network: Network, n: nat)
    requires PeerStates(cfg, onSession, ins, ss) && (cfg.authEnabled ==> account.enabled)
    requires Logins(account, identity).Ok? && n <= |Logins(account, identity).value| <= |ins|
    requires LoginsServed(cfg, onSession, Logins(account, identity).value, pid, ins, ss, network)
    ensures var logins := Logins(account, identity).value;
            n > 0 ==> LoginPasses(account, logins[n - 1], LoginRequests(logins, pid)[n - 1], LineFor(network, n - 1))
    ensures !cfg.authEnabled || (n > 0 && Logins(account, identity).value[n - 1].Credentials?) ==> ss[n].authorized
    decreases n
  {
    var logins := Logins(account, identity).value;
    hide C.Handle, LoginRequest, LoginRequests, LoginPasses, Serves, Packets.Encode, Logins, LineFor, LoginServedAt, C.Start, PeerStates,
         LoginsServed, StateAt, IsLogin;
    PeerStart(cfg, onSession, ins, ss);
    if n > 0 {
      var k := n - 1;
      LoginsPass(cfg, onSession, account, identity, pid, ins, ss, network, k);
      LoginsAreLogins(account, identity, k);
      LoginPassesNext(cfg, onSession, account, logins, pid, ins, ss, network, k);
    }
  }

  lemma LoginPassesNext(cfg: C.Config, onSession: bool, account: Account, logins: seq<S.Subrecord>, pid: uint16,
                        ins: seq<C.Input>, ss: seq<C.State>, network: Network, k: nat)
    requires PeerStates(cfg, onSession, ins, ss) && k < |logins| <= |ins| && IsLogin(logins[k])
    requires LoginsServed(cfg, onSession, logins, pid, ins, ss, network)
    requires |ss| == |ins| + 1 && (!ss[k].authorized ==> account.enabled)
    ensures LoginPasses(account, logins[k], LoginRequests(logins, pid)[k], LineFor(network, k))
    ensures ss[k].authorized || logins[k].Credentials? ==> ss[k + 1].authorized
  {
    hide C.Handle, LoginRequest, LoginRequests, LoginPasses, Serves, Packets.Encode, LineFor, LoginServedAt, C.Start, PeerStates,
         LoginsServed, StateAt, IsLogin;
    PeerStep(cfg, onSession, logins, pid, ins, ss, network, k);
    LoginPassesAt(cfg, onSession, account, logins, pid, ins[k], ss[k], network, k);
  }

  lemma PeerStart(cfg: C.Config, onSession: bool, ins: seq<C.Input>, ss: seq<C.State>)
    requires PeerStates(cfg, onSession, ins, ss)
    ensures |ss| == |ins| + 1 && ss[0].authorized == !cfg.authEnabled
  {
    hide StateAt;
  }

  lemma PeerStep(cfg: C.Config, onSession: bool, logins: seq<S.Subrecord>, pid: uint16, ins: seq<C.Input>, ss: seq<C.State>,
                 network: Network, i: nat)
    requires PeerStates(cfg, onSession, ins, ss) && i < |logins| <= |ins| && LoginsServed(cfg, onSession, logins, pid, ins, ss, network)
    ensures ss[i + 1] == C.Handle(cfg, ss[i], onSession, ins[i]).next
    ensures LoginServedAt(cfg, onSession, logins, pid, ins[i], ss[i], network, i)
  {
    hide C.Handle, LoginServedAt;
    assert StateAt(cfg, onSession, ins, ss, i);
  }

  lemma LoginPassesAt(cfg: C.Config, onSession: bool, account: Account, logins: seq<S.Subrecord>, pid: uint16, input: C.Input, s: C.State,
                      network: Network, i: nat)
    requires i < |logins| && IsLogin(logins[i]) && LoginServedAt(cfg, onSession, logins, pid, input, s, network, i)
    requires !s.authorized ==> account.enabled
    ensures LoginPasses(account, logins[i], LoginRequests(logins, pid)[i], LineFor(network, i))
    ensures s.authorized || logins[i].Credentials? ==> C.Handle(cfg, s, onSession, input).next.authorized
  {
    hide C.Handle, LoginRequest, LoginPasses, Serves, Packets.Encode, IsLogin, FirstId;
    var id := (FirstId(pid, |logins|) + i) % 0x1_0000;
    assert LoginRequests(logins, pid)[i] == LoginRequest(logins[i], id);
    LoginServed(cfg, s, onSession, input, account, logins[i], id, LineFor(network, i));
  }

  /** Two gateways work together: a relay that opens a connection to a peer, with the password the peer
      wants if it wants one, delivers its packet over it when the peer takes the logins and the packet
      and their lines hold; each exchange succeeds on what the peer sends. */
  lemma WriterSucceeds(cfg: C.Config, onSession: bool, account: Account, identity: seq<byte>, raw: seq<byte>,
                       ins: seq<C.Input>, ss: seq<C.State>, network: Network)
    requires Relayable(raw) && Logins(account, identity).Ok? && (cfg.authEnabled ==> account.enabled)
    requires PeerStates(cfg, onSession, ins, ss) && |ins| == |Logins(account, identity).value| + 1
    requires LoginsServed(cfg, onSession, Logins(account, identity).value, PidOf(raw), ins, ss, network)
    requires ins[|ins| - 1].raw == raw && Serves(cfg, ss[|ins| - 1], onSession, ins[|ins| - 1], network.forData)
    ensures Authenticates(account, identity, PidOf(raw), network) && DataPasses(raw, network.forData)
  {
    hide ReadPacket, C.Handle, LoginRequest, LoginPasses, LoginsServed, Serves, Packets.Encode, Talk, ExpectsAuth, HasCredentials,
         Logins, C.ReadLogin;
    var n := |ins| - 1;
    var logins := Logins(account, identity).value;
    forall i | 0 <= i < n
      ensures LoginPasses(account, logins[i], LoginRequests(logins, PidOf(raw))[i], LineFor(network, i))
    {
      LoginsPass(cfg, onSession, account, identity, PidOf(raw), ins, ss, network, i + 1);
    }
    LoginsPass(cfg, onSession, account, identity, PidOf(raw), ins, ss, network, n);
    LoginsEnd(account, identity);
    var p := ReadPacket(raw).p;
    ServedTalk(cfg, ss[n], onSession, ins[n], p, network.forData);
    ExpectationsMeet(cfg, raw, p);
  }

  lemma LoginsEnd(account: Account, identity: seq<byte>)
    requires Logins(account, identity).Ok?
    ensures account.enabled ==> var l := Logins(account, identity).value; l != [] && l[|l| - 1].Credentials?
  {
    hide SrTermIdentity.Decode;
  }

  // ---- what the relay writes back ----

  /** The confirmations that the relay writes in an exchange are read by the peer and change nothing. */
  lemma {:induction false} RepliesPassedOver(cfg: C.Config, s: C.State, onSession: bool, pid: uint16, expectAuth: bool, st: Progress,
                                             frames: seq<seq<byte>>, i: nat, input: C.Input)
    requires Await(pid, expectAuth, st, frames).Success? && i < |Await(pid, expectAuth, st, frames).replies|
    ensures Packets.Encode(Await(pid, expectAuth, st, frames).replies[i]).Ok?
    ensures input.raw == Packets.Encode(Await(pid, expectAuth, st, frames).replies[i]).value ==>
              C.Handle(cfg, s, onSession, input) == C.Turn(s, [], None, PC_OK, false)
    decreases |frames|
  {
    hide Receive, RepliesOf, Done, Packets.Encode, C.Handle;
    var next := Receive(pid, expectAuth, st, frames[0]).value;
    var now := RepliesOf(frames[0]);
    OneReply(frames[0]);
    if i < |now| {
      ReplyPassedOver(cfg, s, onSession, pid, expectAuth, st, frames[0], input);
    } else {
      RepliesPassedOver(cfg, s, onSession, pid, expectAuth, next, frames[1..], i - |now|, input);
    }
  }

  lemma ReplyPassedOver(cfg: C.Config, s: C.State, onSession: bool, pid: uint16, expectAuth: bool, st: Progress, raw: seq<byte>,
                        input: C.Input)
    requires Receive(pid, expectAuth, st, raw).Ok? && RepliesOf(raw) != []
    ensures Packets.Encode(RepliesOf(raw)[0]).Ok?
    ensures input.raw == Packets.Encode(RepliesOf(raw)[0]).value ==>
              C.Handle(cfg, s, onSession, input) == C.Turn(s, [], None, PC_OK, false)
  {
    hide ReadPacket, AbsorbAll, Packets.Encode, C.Handle, Answer;
    var q := ReadPacket(raw).p;
    DataIsThere(raw, q);
    if input.raw == Packets.Encode(RepliesOf(raw)[0]).value {
      ConfirmationPassedOver(cfg, s, onSession, q, input);
    }
  }
}
