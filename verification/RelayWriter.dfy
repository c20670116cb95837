/** The outgoing connection of one terminal session: WriteContext and authenticate
    (gateway/destination/egts.go). Dialing, closing and the frames received come with each call. */
module RelayWriter {
  import opened Bytes
  import S = Subrecords
  import SrTermIdentity
  import SrAuthInfo
  import Records
  import opened Services
  import opened Packets
  import opened Relaying
  import Exchange
  import Agreement
  import ConnectionRuns

  datatype Account = Account(enabled: bool, user: seq<byte>, password: seq<byte>)

  /** What the destination sends during an exchange, and how many of the exchange's writes succeed. */
  datatype Line = Line(frames: seq<seq<byte>>, writes: nat)

  /** What happens on a call: whether closing a stale connection and dialing work, and each
      authorization exchange and then the one for the packet. */
  datatype Network = Network(closes: bool, dials: bool, forAuth: seq<Line>, forData: Line)

  function Talk(pid: uint16, ss: Frame, expectAuth: bool, line: Line): Exchange.Result3 {
    Exchange.WithWrites(Exchange.Run(pid, ss, expectAuth, line.frames), line.writes)
  }

  // ---- authorization packets ----

  /** What authenticate sends: the identity, if there is one, then the credentials, if configured. */
  function Logins(account: Account, identity: seq<byte>): Result<seq<S.Subrecord>> {
    var credentials := if account.enabled then [S.Credentials(SrAuthInfo.AuthInfo(account.user, account.password, None))] else [];
    if identity == [] then Ok(credentials)
    else
      var id :- SrTermIdentity.Decode(identity);
      Ok([S.Identity(id)] + credentials)
  }

  function LengthOf(data: S.Subrecord): nat {
    match S.Encode(data)
    case Ok(b) => |b|
    case Err => 0
  }

  function LoginRequest(data: S.Subrecord, pid: uint16): Packet {
    var n := LengthOf(data);
    Packet(1, 0, "00", "0", "00", "0", "00", 11, 0, (n + 10) % 0x1_0000, pid, PT_APPDATA, 0, 0, 0, 0,
           AppData([ServiceRecord((n + 3) % 0x1_0000, pid, "0", "0", "0", "00", "0", "0", "0", 0, 0, 0, SERVICE_AUTH, SERVICE_AUTH,
                                  [Records.RecordData(S.TypeOf(data), n % 0x1_0000, data)])]), 0, PC_OK)
  }

  function FirstId(pid: uint16, n: nat): uint16 {
    (pid + 0x1_0000 - n % 0x1_0000) % 0x1_0000
  }

  /** The requests, numbered up to the packet that follows them. */
  function LoginRequests(logins: seq<S.Subrecord>, pid: uint16): (ps: seq<Packet>)
    ensures |ps| == |logins|
  {
    seq(|logins|, i requires 0 <= i < |logins| => LoginRequest(logins[i], (FirstId(pid, |logins|) + i) % 0x1_0000))
  }

  function LineFor(network: Network, i: nat): Line {
    if i < |network.forAuth| then network.forAuth[i] else Line([], 0)
  }

  /** One authorization exchange: it must succeed, and may end with a demand for credentials only
      after the identity and when there are credentials to give. */
  predicate LoginPasses(account: Account, data: S.Subrecord, request: Packet, line: Line) {
    && Packets.Encode(request).Ok? && request.sfrd.AppData?
    && var r := Talk(request.pid, request.sfrd.services, true, line);
       r.Success? && (r.required ==> account.enabled && !data.Credentials?)
  }

  predicate Authenticates(account: Account, identity: seq<byte>, pid: uint16, network: Network) {
    && Logins(account, identity).Ok?
    && var logins := Logins(account, identity).value;
       forall i :: 0 <= i < |logins| ==> LoginPasses(account, logins[i], LoginRequests(logins, pid)[i], LineFor(network, i))
  }

  /** The checks before anything is sent. */
  predicate Relayable(raw: seq<byte>) {
    match ReadPacket(raw)
    case Rejected(_, _, _) => false
    case Accepted(p) => p.pt == PT_APPDATA && p.sfrd.AppData? && !HasCredentials(p.sfrd.services)
  }

  predicate DataPasses(raw: seq<byte>, line: Line) {
    match ReadPacket(raw)
    case Rejected(_, _, _) => false
    case Accepted(p) =>
      p.sfrd.AppData? &&
      var r := Talk(p.pid, p.sfrd.services, Agreement.ExpectsAuth(p.sfrd.services), line);
      r.Success? && !r.required
  }

  function PidOf(raw: seq<byte>): uint16 {
    match ReadPacket(raw)
    case Rejected(_, _, pid) => pid
    case Accepted(p) => p.pid
  }

  class Writer {
    const account: Account
    var connected: bool
    var identity: seq<byte>
    var closed: bool
    // The identity of the authorization requests that opened the connection, while there is one.
    ghost var greeted: Option<seq<byte>>

    ghost predicate Valid()
      reads this
    {
      (connected <==> greeted.Some?) && (connected ==> greeted == Some(identity))
    }

    constructor (account: Account)
      ensures Valid() && this.account == account && !connected && !closed
    {
      this.account, connected, identity, closed, greeted := account, false, [], false, None;
    }

    /** egts.go:64-74. */
    method Inspect(ss: Frame) returns (credentials: bool, expectAuth: bool)
      ensures credentials == HasCredentials(ss)
      ensures !credentials ==> expectAuth == Agreement.ExpectsAuth(ss)
    {
      expectAuth := false;
      for n := 0 to |ss|
        invariant forall i :: 0 <= i < n ==> !CarriesCredentials(ss[i])
        invariant expectAuth <==> exists i :: 0 <= i < n && Agreement.GivesIdentity(ss[i])
      {
        var service := ss[n];
        ghost var before := expectAuth;
        for k := 0 to |service.rd|
          invariant forall i :: 0 <= i < k ==> service.rd[i].srt != S.AUTH_INFO
          invariant expectAuth <==> before || (AuthPair(service) && exists i :: 0 <= i < k && service.rd[i].srt == S.TERM_IDENTITY)
        {
          if service.rd[k].srt == S.AUTH_INFO {
            assert CarriesCredentials(ss[n]);
            return true, false;
          }
          if service.rd[k].srt == S.TERM_IDENTITY && AuthPair(service) {
            expectAuth := true;
          }
        }
      }
      credentials := false;
    }

    /** authenticate: it succeeds exactly when every authorization exchange does. */
    method Authenticate(pid: uint16, given: seq<byte>, network: Network) returns (ok: bool)
      ensures ok <==> Authenticates(account, given, pid, network)
    {
      hide Exchange.Run, Exchange.WithWrites, LoginRequest, SrTermIdentity.Decode, Packets.Encode;
      var records: seq<S.Subrecord> := [];
      if |given| > 0 {
        var term := SrTermIdentity.Decode(given);
        if term.Err? {
          return false;
        }
        records := records + [S.Identity(term.value)];
      }
      if account.enabled {
        records := records + [S.Credentials(SrAuthInfo.AuthInfo(account.user, account.password, None))];
      }
      assert records == Logins(account, given).value;
      var id: uint16 := FirstId(pid, |records|);
      for n := 0 to |records|
        invariant id == (FirstId(pid, |records|) + n) % 0x1_0000
        invariant forall i :: 0 <= i < n ==> LoginPasses(account, records[i], LoginRequests(records, pid)[i], LineFor(network, i))
      {
        var data := records[n];
        var request := LoginRequest(data, id);
        var raw := Packets.Encode(request);
        ok := false;
        if raw.Ok? && request.sfrd.AppData? {
          var r := Exchange.Exchange(request.pid, request.sfrd.services, true, LineFor(network, n).frames, LineFor(network, n).writes);
          ok := r.Success? && (r.required ==> account.enabled && !data.Credentials?);
        }
        assert ok <==> LoginPasses(account, records[n], LoginRequests(records, pid)[n], LineFor(network, n));
        if !ok {
          return;
        }
        id := (id + 1) % 0x1_0000;
      }
      ok := true;
    }

    /** WriteContext: a packet is delivered only over a connection opened with the identity it came
        with, and a connection over which anything went wrong is never used again. */
    method WriteContext(raw: seq<byte>, given: seq<byte>, network: Network) returns (ok: bool)
      requires Valid()
      modifies this`connected, this`identity, this`greeted
      ensures Valid()
      ensures ok ==> connected && identity == given && greeted == Some(given)
      ensures ok <==> !closed && Relayable(raw) && DataPasses(raw, network.forData)
                      && ((old(connected) && old(identity) == given)
                          || (network.dials && (old(connected) ==> network.closes) && Authenticates(account, given, PidOf(raw), network)))
      ensures !ok && !closed && Relayable(raw) ==> !connected
      ensures closed || !Relayable(raw) ==> connected == old(connected) && identity == old(identity)
    {
      hide ReadPacket, Exchange.Run, Exchange.WithWrites, Authenticates, HasCredentials, Agreement.ExpectsAuth;
      if closed {
        return false;
      }
      match ReadPacket(raw) {
        case Rejected(_, _, _) => return false;
        case Accepted(pkg) =>
          if pkg.pt != PT_APPDATA {
            return false;
          }
          DataIsThere(raw, pkg);
          var credentials, expectAuth := Inspect(pkg.sfrd.services);
          if credentials {
            return false;
          }
          if connected && identity != given {
            connected, greeted := false, None;
            if !network.closes {
              return false;
            }
          }
          if !connected {
            if !network.dials {
              return false;
            }
            var authenticated := Authenticate(pkg.pid, given, network);
            if !authenticated {
              return false;
            }
            connected, identity, greeted := true, given, Some(given);
          }
          var r := Exchange.Exchange(pkg.pid, pkg.sfrd.services, expectAuth, network.forData.frames, network.forData.writes);
          if r.Failure? || r.required {
            connected, greeted := false, None;
            return false;
          }
          ok := true;
      }
    }
  }

  lemma CountDown(pid: uint16, n: nat, i: nat)
    requires i <= n <= 2
    ensures ((FirstId(pid, n) + i) % 0x1_0000 + (n - i)) % 0x1_0000 == pid
    ensures (FirstId(pid, n) + i + 1) % 0x1_0000 == ((FirstId(pid, n) + i) % 0x1_0000 + 1) % 0x1_0000
  {
    var first := FirstId(pid, n);
    assert first == (pid + 0x1_0000 - n) % 0x1_0000;
    hide FirstId;
    ConnectionRuns.Wrap(pid + 0x1_0000 - n, i);
    assert (first + i) % 0x1_0000 == (pid + 0x1_0000 - n + i) % 0x1_0000;
    ConnectionRuns.Wrap(first + i, 1);
    ConnectionRuns.Wrap(pid + 0x1_0000 - n + i, n - i);
  }

  lemma RequestId(data: S.Subrecord, pid: uint16)
    ensures LoginRequest(data, pid).pid == pid
  {
  }

  /** The requests before a packet bear the identifiers just below its own, in sixteen bits. */
  lemma LoginsPrecede(logins: seq<S.Subrecord>, pid: uint16, i: nat)
    requires i < |logins| <= 2
    ensures (LoginRequests(logins, pid)[i].pid + (|logins| - i)) % 0x1_0000 == pid
    ensures i + 1 < |logins| ==> LoginRequests(logins, pid)[i + 1].pid == (LoginRequests(logins, pid)[i].pid + 1) % 0x1_0000
  {
    hide LoginRequest, FirstId;
    var n := |logins|;
    RequestId(logins[i], (FirstId(pid, n) + i) % 0x1_0000);
    CountDown(pid, n, i);
    if i + 1 < n {
      RequestId(logins[i + 1], (FirstId(pid, n) + i + 1) % 0x1_0000);
    }
  }

  /** What is sent to open a connection: the identity that came with the packet, if one did, and then
      the name and the password, if they are configured. An identity that does not decode is refused. */
  lemma LoginsExactly(account: Account, identity: seq<byte>)
    ensures Logins(account, identity).Err? <==> identity != [] && SrTermIdentity.Decode(identity).Err?
    ensures Logins(account, identity).Ok? ==>
              var l := Logins(account, identity).value; var k := if identity == [] then 0 else 1;
              && |l| == k + (if account.enabled then 1 else 0)
              && (identity != [] ==> l[0].Identity? && SrTermIdentity.Encode(l[0].id) == Ok(identity))
              && (account.enabled ==>
                    l[k].Credentials? && l[k].auth.unm == account.user && l[k].auth.upsw == account.password && l[k].auth.ss.None?)
  {
    hide SrTermIdentity.Decode, SrTermIdentity.Encode;
    if identity != [] && SrTermIdentity.Decode(identity).Ok? {
      SrTermIdentity.EncodeDecode(identity);
    }
  }

  /** Logging in succeeds exactly when each request can be sent and its exchange succeeds, and each
      demand for credentials is met by a request with credentials that follows. */
  lemma AuthenticatesExactly(account: Account, identity: seq<byte>, pid: uint16, network: Network)
    ensures Authenticates(account, identity, pid, network)
            <==> && Logins(account, identity).Ok?
                 && var l := Logins(account, identity).value; var ps := LoginRequests(l, pid);
                    forall i :: 0 <= i < |l| ==>
                      && Packets.Encode(ps[i]).Ok? && ps[i].sfrd.AppData?
                      && var r := Talk(ps[i].pid, ps[i].sfrd.services, true, LineFor(network, i));
                         r.Success? && (r.required ==> exists j :: i < j < |l| && l[j].Credentials?)
  {
    hide Packets.Encode, Talk, LoginRequest, SrTermIdentity.Decode;
    LoginsExactly(account, identity);
    if Logins(account, identity).Ok? {
      var l := Logins(account, identity).value;
      forall i | 0 <= i < |l|
        ensures account.enabled && !l[i].Credentials? <==> exists j :: i < j < |l| && l[j].Credentials?
      {
        if account.enabled && !l[i].Credentials? {
          assert l[|l| - 1].Credentials?;
        }
      }
    }
  }
}
