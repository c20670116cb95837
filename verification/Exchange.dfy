/** Sending a packet to an EGTS destination and waiting for its confirmations: exchange
    (gateway/destination/egts.go:188-294). The frames the destination sends are given, their end
    standing for any read that fails, and how many of the exchange's own writes succeed. */
module Exchange {
  import opened Bytes
  import S = Subrecords
  import Records
  import opened Services
  import opened Packets
  import opened Answers
  import opened Relaying

  /** recordConfirmation. */
  datatype Key = Key(number: uint16, source: byte, recipient: byte)

  /** The confirmations a packet waits for: each data record, with its services swapped. */
  function Outstanding(ss: Frame): set<Key> {
    set i | 0 <= i < |ss| && HasData(ss[i]) :: Key(ss[i].rn, ss[i].rst, ss[i].sst)
  }

  // ---- what the destination says, bit by bit ----

  datatype Atom =
    | Transport(result: byte)
    | Confirm(key: Key, status: byte)
    | AuthResult(rcd: byte, paired: bool)
    | AuthAsk(paired: bool)
    | Unexpected

  function RecordAtom(s: ServiceRecord, r: S.Subrecord): Atom {
    match r
    case RecordResponse(crn, status) => Confirm(Key(crn, s.sst, s.rst), status)
    case ResultCode(rcd) => AuthResult(rcd, AuthPair(s))
    case AuthParams(_) => AuthAsk(AuthPair(s))
    case _ => Unexpected
  }

  function ServiceAtoms(s: ServiceRecord): (a: seq<Atom>)
    ensures |a| == |s.rd| && forall i :: 0 <= i < |a| ==> a[i] == RecordAtom(s, s.rd[i].srd)
  {
    seq(|s.rd|, i requires 0 <= i < |s.rd| => RecordAtom(s, s.rd[i].srd))
  }

  function FrameAtoms(ss: Frame): seq<Atom> {
    if ss == [] then [] else FrameAtoms(ss[..|ss| - 1]) + ServiceAtoms(ss[|ss| - 1])
  }

  predicate Known(p: Packet) {
    (p.pt == PT_RESPONSE && p.sfrd.Response?) || (p.pt == PT_APPDATA && p.sfrd.AppData?)
  }

  /** What a packet says about the one sent; nothing when it confirms another. */
  function PacketAtoms(pid: uint16, p: Packet): seq<Atom>
    requires Known(p)
  {
    if p.pt == PT_APPDATA then FrameAtoms(p.sfrd.services)
    else if p.sfrd.response.rpid != pid then []
    else [Transport(p.sfrd.response.result)] + (if p.sfrd.response.sdr.Some? then FrameAtoms(p.sfrd.response.sdr.value) else [])
  }

  // ---- what the loop keeps ----

  datatype Progress = Progress(transportOK: bool, authOK: bool, required: bool, pending: set<Key>)

  function Begin(ss: Frame, expectAuth: bool): Progress {
    Progress(false, !expectAuth, false, Outstanding(ss))
  }

  predicate Done(st: Progress) {
    st.transportOK && st.pending == {} && st.authOK
  }

  predicate Positive(code: byte) {
    code == PC_OK || code == PC_IN_PROGRESS
  }

  function Absorb(expectAuth: bool, st: Progress, a: Atom): Result<Progress> {
    match a
    case Transport(result) => if Positive(result) then Ok(st.(transportOK := result == PC_OK)) else Err
    case Confirm(key, status) =>
      if key !in st.pending then Ok(st)
      else if status == PC_OK then Ok(st.(pending := st.pending - {key}))
      else if status == PC_IN_PROGRESS then Ok(st)
      else Err
    case AuthResult(rcd, paired) =>
      if !expectAuth || !paired then Ok(st)
      else if Positive(rcd) then Ok(st.(authOK := rcd == PC_OK))
      else Err
    case AuthAsk(paired) =>
      if !expectAuth || !paired then Err else Ok(st.(required := true, authOK := true))
    case Unexpected => Err
  }

  function AbsorbAll(expectAuth: bool, st: Progress, atoms: seq<Atom>): Result<Progress> {
    if atoms == [] then Ok(st)
    else
      var before :- AbsorbAll(expectAuth, st, atoms[..|atoms| - 1]);
      Absorb(expectAuth, before, atoms[|atoms| - 1])
  }

  /** The gateway's own confirmation of an APPDATA packet. */
  function OwnAnswer(p: Packet): Packet
    requires Known(p) && p.pt == PT_APPDATA
  {
    Answer(PC_OK, p.pid, p.sfrd.services, 0, p.pid)
  }

  datatype Result3 = Success(required: bool, consumed: nat, replies: seq<Packet>) | Failure

  function ReplyTo(p: Packet): seq<Packet>
    requires Known(p)
  {
    if p.pt == PT_APPDATA then [OwnAnswer(p)] else []
  }

  predicate Repliable(p: Packet)
    requires Known(p)
  {
    p.pt == PT_APPDATA ==> Packets.Encode(OwnAnswer(p)).Ok?
  }

  /** A frame is read, understood and, when it is APPDATA, answered. */
  function Receive(pid: uint16, expectAuth: bool, st: Progress, raw: seq<byte>): Result<Progress> {
    match ReadPacket(raw)
    case Rejected(_, _, _) => Err
    case Accepted(p) =>
      DataIsThere(raw, p);
      var next :- AbsorbAll(expectAuth, st, PacketAtoms(pid, p));
      if Repliable(p) then Ok(next) else Err
  }

  function RepliesOf(raw: seq<byte>): seq<Packet> {
    match ReadPacket(raw)
    case Rejected(_, _, _) => []
    case Accepted(p) =>
      DataIsThere(raw, p);
      ReplyTo(p)
  }

  function Await(pid: uint16, expectAuth: bool, st: Progress, frames: seq<seq<byte>>): Result3
    decreases |frames|
  {
    hide Receive, RepliesOf;
    if Done(st) then Success(st.required, 0, [])
    else if frames == [] then Failure
    else
      match Receive(pid, expectAuth, st, frames[0])
      case Err => Failure
      case Ok(next) =>
        match Await(pid, expectAuth, next, frames[1..])
        case Failure => Failure
        case Success(required, n, replies) => Success(required, n + 1, RepliesOf(frames[0]) + replies)
  }

  function Run(pid: uint16, ss: Frame, expectAuth: bool, frames: seq<seq<byte>>): Result3 {
    Await(pid, expectAuth, Begin(ss, expectAuth), frames)
  }

  /** The same when only so many writes succeed: one for the packet, and one for the confirmation of
      each data packet that is taken in. */
  function WithWrites(r: Result3, writes: nat): Result3 {
    if r.Success? && 1 + |r.replies| <= writes then r else Failure
  }

  // ---- the loop as it runs ----

  /** egts.go:201-208. */
  method Collect(ss: Frame) returns (pending: set<Key>)
    ensures pending == Outstanding(ss)
  {
    pending := {};
    for n := 0 to |ss|
      invariant pending == Outstanding(ss[..n])
    {
      var service := ss[n];
      ghost var before := pending;
      var key := Key(service.rn, service.rst, service.sst);
      for k := 0 to |service.rd|
        invariant pending == before + (if exists i :: 0 <= i < k && service.rd[i].srt != S.RECORD_RESPONSE then {key} else {})
      {
        if service.rd[k].srt != S.RECORD_RESPONSE {
          pending := pending + {key};
        }
      }
      OutstandingMore(ss, n);
    }
    assert ss[..|ss|] == ss;
  }

  lemma OutstandingMore(ss: Frame, n: nat)
    requires n < |ss|
    ensures Outstanding(ss[..n + 1])
            == Outstanding(ss[..n]) + (if HasData(ss[n]) then {Key(ss[n].rn, ss[n].rst, ss[n].sst)} else {})
  {
    var a, b := ss[..n + 1], ss[..n];
    assert a[n] == ss[n] && forall i :: 0 <= i < n ==> a[i] == b[i];
  }

  /** egts.go:245-276: the records of one packet, as far as the first that rejects. */
  method AbsorbFrame(expectAuth: bool, start: Progress, ss: Frame) returns (r: Result<Progress>)
    ensures r == AbsorbAll(expectAuth, start, FrameAtoms(ss))
  {
    hide AbsorbAll, Absorb, RecordAtom;
    r := Ok(start);
    NothingAbsorbed(expectAuth, start);
    for n := 0 to |ss|
      invariant r == AbsorbAll(expectAuth, start, FrameAtoms(ss[..n])) && r.Ok?
    {
      var service := ss[n];
      ghost var before := FrameAtoms(ss[..n]);
      ghost var all := ServiceAtoms(service);
      assert before + all[..0] == before;
      assert ss[..n + 1][..n] == ss[..n];
      for k := 0 to |service.rd|
        invariant r == AbsorbAll(expectAuth, start, before + all[..k]) && r.Ok?
      {
        AbsorbOne(expectAuth, start, before + all[..k], all[k]);
        assert before + all[..k] + [all[k]] == before + all[..k + 1];
        r := AbsorbRecord(expectAuth, r.value, service, service.rd[k].srd);
        if r.Err? {
          AbsorbFails(expectAuth, start, before + all[..k + 1], all[k + 1..]);
          assert before + all[..k + 1] + all[k + 1..] == before + all;
          FrameFails(expectAuth, start, ss, n + 1);
          return Err;
        }
      }
      assert all[..|service.rd|] == all;
    }
    assert ss[..|ss|] == ss;
  }

  /** egts.go:247-274: one record. */
  method AbsorbRecord(expectAuth: bool, st: Progress, service: ServiceRecord, data: S.Subrecord) returns (r: Result<Progress>)
    ensures r == Absorb(expectAuth, st, RecordAtom(service, data))
  {
    r := Ok(st);
    match data {
      case RecordResponse(crn, status) =>
        var key := Key(crn, service.sst, service.rst);
        if key !in st.pending {
          return;
        }
        if status == PC_OK {
          r := Ok(st.(pending := st.pending - {key}));
        } else if status != PC_IN_PROGRESS {
          r := Err;
        }
      case ResultCode(rcd) =>
        if !expectAuth || service.sst != SERVICE_AUTH || service.rst != SERVICE_AUTH {
          return;
        }
        if rcd != PC_OK && rcd != PC_IN_PROGRESS {
          return Err;
        }
        r := Ok(st.(authOK := rcd == PC_OK));
      case AuthParams(_) =>
        if !expectAuth || service.sst != SERVICE_AUTH || service.rst != SERVICE_AUTH {
          return Err;
        }
        r := Ok(st.(required := true, authOK := true));
      case _ =>
        r := Err;
    }
  }

  lemma NothingAbsorbed(expectAuth: bool, st: Progress)
    ensures AbsorbAll(expectAuth, st, FrameAtoms([])) == Ok(st)
  {
  }

  lemma AbsorbOne(expectAuth: bool, st: Progress, atoms: seq<Atom>, a: Atom)
    ensures AbsorbAll(expectAuth, st, atoms + [a]) ==
              match AbsorbAll(expectAuth, st, atoms)
              case Err => Err
              case Ok(before) => Absorb(expectAuth, before, a)
  {
    hide Absorb;
    assert (atoms + [a])[..|atoms|] == atoms;
  }

  lemma {:induction false} AbsorbFails(expectAuth: bool, st: Progress, a: seq<Atom>, b: seq<Atom>)
    requires AbsorbAll(expectAuth, st, a).Err?
    ensures AbsorbAll(expectAuth, st, a + b).Err?
    decreases |b|
  {
    hide Absorb, AbsorbAll;
    if b == [] {
      assert a + b == a;
    } else {
      var n := |b| - 1;
      AbsorbFails(expectAuth, st, a, b[..n]);
      AbsorbOne(expectAuth, st, a + b[..n], b[n]);
      assert a + b[..n] + [b[n]] == a + b;
    }
  }

  lemma {:induction false} FrameFails(expectAuth: bool, st: Progress, ss: Frame, n: nat)
    requires n <= |ss| && AbsorbAll(expectAuth, st, FrameAtoms(ss[..n])).Err?
    ensures AbsorbAll(expectAuth, st, FrameAtoms(ss)).Err?
    decreases |ss|
  {
    hide AbsorbAll;
    if n == |ss| {
      assert ss[..n] == ss;
    } else {
      var less := ss[..|ss| - 1];
      assert less[..n] == ss[..n];
      FrameFails(expectAuth, st, less, n);
      AbsorbFails(expectAuth, st, FrameAtoms(less), ServiceAtoms(ss[|ss| - 1]));
    }
  }

  /** egts.go:228-277: one packet. */
  method AbsorbPacket(pid: uint16, expectAuth: bool, start: Progress, p: Packet) returns (r: Result<Progress>)
    requires Known(p)
    ensures r == AbsorbAll(expectAuth, start, PacketAtoms(pid, p))
  {
    hide AbsorbAll, FrameAtoms;
    NothingAbsorbed(expectAuth, start);
    assert FrameAtoms([]) == [] by { NoAtoms(); }
    if p.pt == PT_APPDATA {
      r := AbsorbFrame(expectAuth, start, p.sfrd.services);
      return;
    }
    var confirmation := p.sfrd.response;
    if confirmation.rpid != pid {
      return Ok(start);
    }
    var sdr := if confirmation.sdr.Some? then confirmation.sdr.value else [];
    ghost var rest := FrameAtoms(sdr);
    AbsorbOne(expectAuth, start, [], Transport(confirmation.result));
    assert [] + [Transport(confirmation.result)] == [Transport(confirmation.result)];
    if confirmation.result != PC_OK && confirmation.result != PC_IN_PROGRESS {
      AbsorbFails(expectAuth, start, [Transport(confirmation.result)], rest);
      return Err;
    }
    var next := start.(transportOK := confirmation.result == PC_OK);
    r := AbsorbFrame(expectAuth, next, sdr);
    AbsorbInTwo(expectAuth, start, [Transport(confirmation.result)], rest);
  }

  lemma NoAtoms()
    ensures FrameAtoms([]) == []
  {
  }

  lemma {:induction false} AbsorbInTwo(expectAuth: bool, st: Progress, a: seq<Atom>, b: seq<Atom>)
    ensures AbsorbAll(expectAuth, st, a + b) ==
              match AbsorbAll(expectAuth, st, a)
              case Err => Err
              case Ok(middle) => AbsorbAll(expectAuth, middle, b)
    decreases |b|
  {
    hide Absorb;
    if b == [] {
      assert a + b == a;
      return;
    }
    hide AbsorbAll;
    var n := |b| - 1;
    AbsorbInTwo(expectAuth, st, a, b[..n]);
    AbsorbOne(expectAuth, st, a + b[..n], b[n]);
    assert a + b[..n] + [b[n]] == a + b && b[..n] + [b[n]] == b;
    if AbsorbAll(expectAuth, st, a).Ok? {
      AbsorbOne(expectAuth, AbsorbAll(expectAuth, st, a).value, b[..n], b[n]);
    }
  }

  /** egts.go:224-291: one frame, and the confirmation written for it. */
  method TakeFrame(pid: uint16, expectAuth: bool, st: Progress, raw: seq<byte>, writes: nat) returns (r: Result<Progress>, replies: seq<Packet>)
    ensures r == if |RepliesOf(raw)| <= writes then Receive(pid, expectAuth, st, raw) else Err
    ensures r.Ok? ==> replies == RepliesOf(raw)
  {
    hide ReadPacket, AbsorbAll, Packets.Encode, Answer, PacketAtoms;
    replies := [];
    match ReadPacket(raw) {
      case Rejected(_, _, _) => return Err, [];
      case Accepted(response) =>
        DataIsThere(raw, response);
        r := AbsorbPacket(pid, expectAuth, st, response);
        if r.Ok? && response.pt == PT_APPDATA {
          var answer := PrepareAnswer(PC_OK, response.pid, response.sfrd.services, 0, response.pid);
          var encoded := Packets.Encode(answer);
          if encoded.Err? || writes == 0 {
            return Err, [];
          }
          replies := [answer];
        }
    }
  }

  /** exchange: nothing more is read once the packet is confirmed. */
  method Exchange(pid: uint16, ss: Frame, expectAuth: bool, frames: seq<seq<byte>>, writes: nat) returns (r: Result3)
    ensures r == WithWrites(Run(pid, ss, expectAuth, frames), writes)
  {
    hide Receive, RepliesOf, Outstanding, Await, Prefixed, Run;
    var pending := Collect(ss);
    if writes == 0 {
      return Failure;
    }
    var st := Progress(false, !expectAuth, false, pending);
    var replies: seq<Packet> := [];
    var n := 0;
    assert frames[0..] == frames;
    RunsFrom(pid, ss, expectAuth, frames, st);
    while !st.transportOK || |st.pending| > 0 || !st.authOK
      invariant n <= |frames| && 1 + |replies| <= writes
      invariant Run(pid, ss, expectAuth, frames) == Prefixed(n, replies, Await(pid, expectAuth, st, frames[n..]))
      decreases |frames| - n
    {
      AwaitStep(pid, expectAuth, st, frames, n, replies);
      if n == |frames| {
        return Failure;
      }
      var next, reply := TakeFrame(pid, expectAuth, st, frames[n], writes - 1 - |replies|);
      if next.Err? {
        TooMany(n + 1, replies + RepliesOf(frames[n]), pid, expectAuth, st, frames, n, writes);
        return Failure;
      }
      st := next.value;
      replies := replies + reply;
      n := n + 1;
    }
    AwaitEnds(pid, expectAuth, st, frames, n, replies);
    r := Success(st.required, n, replies);
  }

  lemma RunsFrom(pid: uint16, ss: Frame, expectAuth: bool, frames: seq<seq<byte>>, st: Progress)
    requires st == Begin(ss, expectAuth)
    ensures Run(pid, ss, expectAuth, frames) == Prefixed(0, [], Await(pid, expectAuth, st, frames))
  {
    hide Await;
    NoPrefix(Await(pid, expectAuth, st, frames));
  }

  /** A confirmation that could not be written ends the exchange, whatever would have come. */
  lemma TooMany(m: nat, replies: seq<Packet>, pid: uint16, expectAuth: bool, st: Progress, frames: seq<seq<byte>>, n: nat, writes: nat)
    requires n < |frames|
    ensures var r := match Receive(pid, expectAuth, st, frames[n])
                     case Err => Failure
                     case Ok(next) => Prefixed(m, replies, Await(pid, expectAuth, next, frames[n + 1..]));
            Receive(pid, expectAuth, st, frames[n]).Err? || 1 + |replies| > writes ==> WithWrites(r, writes) == Failure
  {
    hide Receive, Await;
  }

  lemma NoPrefix(r: Result3)
    ensures Prefixed(0, [], r) == r
  {
    if r.Success? {
      assert [] + r.replies == r.replies;
    }
  }

  lemma AwaitEnds(pid: uint16, expectAuth: bool, st: Progress, frames: seq<seq<byte>>, n: nat, replies: seq<Packet>)
    requires Done(st) && n <= |frames|
    ensures Prefixed(n, replies, Await(pid, expectAuth, st, frames[n..])) == Success(st.required, n, replies)
  {
    hide Receive, RepliesOf;
    assert replies + [] == replies;
  }

  lemma AwaitStep(pid: uint16, expectAuth: bool, st: Progress, frames: seq<seq<byte>>, n: nat, replies: seq<Packet>)
    requires !Done(st) && n <= |frames|
    ensures Prefixed(n, replies, Await(pid, expectAuth, st, frames[n..])) ==
              if n == |frames| then Failure
              else
                match Receive(pid, expectAuth, st, frames[n])
                case Err => Failure
                case Ok(next) => Prefixed(n + 1, replies + RepliesOf(frames[n]), Await(pid, expectAuth, next, frames[n + 1..]))
  {
    hide Receive, RepliesOf;
    if n < |frames| {
      assert frames[n..][0] == frames[n] && frames[n..][1..] == frames[n + 1..];
      var r := Receive(pid, expectAuth, st, frames[n]);
      if r.Ok? {
        var rest := Await(pid, expectAuth, r.value, frames[n + 1..]);
        if rest.Success? {
          assert replies + (RepliesOf(frames[n]) + rest.replies) == replies + RepliesOf(frames[n]) + rest.replies;
        }
      }
    }
  }

  function Prefixed(n: nat, replies: seq<Packet>, r: Result3): Result3 {
    match r
    case Failure => Failure
    case Success(required, m, more) => Success(required, n + m, replies + more)
  }
}
