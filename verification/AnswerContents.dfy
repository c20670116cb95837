/** What an answer says, by what the request holds (egts/packet/packet.go:333-425,
    gateway/destination/egts.go:278-291). */
module AnswerContents {
  import opened Bytes
  import S = Subrecords
  import Records
  import opened Services
  import opened Packets
  import opened Answers
  import Exchange

  /** A record with anything but confirmations. */
  predicate ToConfirm(s: ServiceRecord) {
    exists r :: r in s.rd && r.srt != 0
  }

  /** The request has a record of that number to confirm, between these services. */
  predicate Asks(ss: Frame, number: uint16, source: byte, recipient: byte) {
    exists s :: s in ss && ToConfirm(s) && s.rn == number && s.sst == source && s.rst == recipient
  }

  /** The answer confirms it in a record of its services. */
  predicate Confirms(ts: Frame, number: uint16, source: byte, recipient: byte) {
    exists t, r :: t in ts && t.sst == source && t.rst == recipient && r in t.rd && r.srd == S.RecordResponse(number, 0)
  }

  /** A record of confirmations that say OK, from a service not on a device to one on a device. */
  predicate OnlyConfirms(t: ServiceRecord) {
    && t.ssod == "0" && t.rsod == "1" && t.grp == "0" && t.rpp == "11" && t.tmfe == "0" && t.evfe == "0" && t.obfe == "0"
    && t.rd != [] && forall r :: r in t.rd ==> r.srt == 0 && r.srl == 3 && r.srd.RecordResponse? && r.srd.status == 0
  }

  lemma {:induction false} ArrivalsExactly(ss: Frame, sst: byte, rst: byte, number: uint16)
    ensures number in Arrivals(ss, sst, rst) <==> Asks(ss, number, sst, rst)
    decreases |ss|
  {
    if ss != [] {
      var n := |ss| - 1;
      ArrivalsExactly(ss[..n], sst, rst, number);
      assert ss == ss[..n] + [ss[n]];
      assert HasData(ss[n]) <==> ToConfirm(ss[n]);
    }
  }

  /** A positive answer names the packet, and confirms just the records of the request that hold
      anything but confirmations, each in a record with the services swapped; it has no records when
      there are none such. Any other answer just gives its code. */
  lemma AnswersExactly(code: byte, requestId: uint16, ss: Frame, rn: uint16, pid: uint16, number: uint16, source: byte, recipient: byte)
    ensures var a := Answer(code, requestId, ss, rn, pid);
            && a.pt == 0 && a.pid == pid && a.sfrd.Response? && a.sfrd.response.rpid == requestId && a.sfrd.response.result == code
            && (code != 0 ==> a.sfrd.response.sdr.None?)
            && (code == 0 ==>
                  && (a.sfrd.response.sdr.None? <==> forall s :: s in ss ==> !ToConfirm(s))
                  && (a.sfrd.response.sdr.Some? ==>
                        var ts := a.sfrd.response.sdr.value;
                        && (forall t :: t in ts ==> OnlyConfirms(t))
                        && (Confirms(ts, number, recipient, source) <==> Asks(ss, number, source, recipient))))
  {
    hide ResponseLength;
    if code == 0 {
      var g := Groups(ss);
      RecordsExactly(ss, rn, number, source, recipient);
      NoGroups(ss);
      assert AnswerRecords(g, rn) == [] <==> g == [];
      hide Groups, AnswerRecord, OnlyConfirms, Confirms, Asks, ToConfirm;
    }
  }

  lemma NoGroups(ss: Frame)
    ensures Groups(ss) == [] <==> forall s :: s in ss ==> !ToConfirm(s)
  {
    var g := Groups(ss);
    AnswerPartitions(ss);
    forall s | s in ss && ToConfirm(s)
      ensures g != []
    {
      ArrivalsExactly(ss, s.sst, s.rst, s.rn);
      assert Asks(ss, s.rn, s.sst, s.rst);
      assert Find(g, s.rst, s.sst) < |g|;
    }
    if g != [] {
      assert g[0].crns == Arrivals(ss, g[0].rst, g[0].sst);
      ArrivalsExactly(ss, g[0].rst, g[0].sst, g[0].crns[0]);
    }
  }

  lemma RecordsExactly(ss: Frame, rn: uint16, number: uint16, source: byte, recipient: byte)
    ensures var ts := AnswerRecords(Groups(ss), rn);
            && (forall t :: t in ts ==> OnlyConfirms(t))
            && (Confirms(ts, number, recipient, source) <==> Asks(ss, number, source, recipient))
  {
    var g := Groups(ss);
    AnswerPartitions(ss);
    ArrivalsExactly(ss, source, recipient, number);
    GroupsConfirm(g, rn, number, recipient, source);
    hide Groups, Asks, ToConfirm, HasData, Arrivals, OnlyConfirms, Confirms;
    if Asks(ss, number, source, recipient) {
      assert g[Find(g, recipient, source)].crns == Arrivals(ss, source, recipient);
    }
  }

  predicate Lists(g: seq<Group>, number: uint16, sst: byte, rst: byte) {
    exists i :: 0 <= i < |g| && g[i].sst == sst && g[i].rst == rst && number in g[i].crns
  }

  lemma GroupsConfirm(g: seq<Group>, rn: uint16, number: uint16, sst: byte, rst: byte)
    requires forall i :: 0 <= i < |g| ==> g[i].crns != []
    ensures forall t :: t in AnswerRecords(g, rn) ==> OnlyConfirms(t)
    ensures Confirms(AnswerRecords(g, rn), number, sst, rst) <==> Lists(g, number, sst, rst)
  {
    var ts := AnswerRecords(g, rn);
    forall i | 0 <= i < |g|
      ensures OnlyConfirms(ts[i]) && ts[i].sst == g[i].sst && ts[i].rst == g[i].rst
      ensures (exists r :: r in ts[i].rd && r.srd == S.RecordResponse(number, 0)) <==> number in g[i].crns
    {
      RecordConfirms(g[i], rn + i, number);
    }
    hide AnswerRecords, OnlyConfirms;
    if Confirms(ts, number, sst, rst) {
      var t, r :| t in ts && t.sst == sst && t.rst == rst && r in t.rd && r.srd == S.RecordResponse(number, 0);
      var i :| 0 <= i < |ts| && ts[i] == t;
      assert number in g[i].crns;
    }
  }

  lemma RecordConfirms(x: Group, rn: nat, number: uint16)
    requires x.crns != []
    ensures var t := AnswerRecord(x, rn);
            && OnlyConfirms(t) && t.sst == x.sst && t.rst == x.rst
            && ((exists r :: r in t.rd && r.srd == S.RecordResponse(number, 0)) <==> number in x.crns)
  {
    var t := AnswerRecord(x, rn);
    forall k | 0 <= k < |x.crns|
      ensures t.rd[k] in t.rd
    {
    }
    if number in x.crns {
      var k :| 0 <= k < |x.crns| && x.crns[k] == number;
      assert t.rd[k].srd == S.RecordResponse(number, 0);
    }
  }

  // ---- the relay's own answers ----

  /** The packets of service records among some frames, in order. */
  function DataPackets(frames: seq<seq<byte>>): seq<Packet>
    decreases |frames|
  {
    if frames == [] then []
    else
      (match ReadPacket(frames[0])
       case Rejected(_, _, _) => []
       case Accepted(p) => if p.pt == 1 then [p] else [])
      + DataPackets(frames[1..])
  }

  /** An answer to that packet, with its own identifier, that says OK. */
  predicate AnswerTo(p: Packet, a: Packet) {
    a.pt == 0 && a.pid == p.pid && a.sfrd.Response? && a.sfrd.response.rpid == p.pid && a.sfrd.response.result == 0
  }

  /** While it waits for its confirmations the relay writes one answer to each packet of service
      records that it reads, in order, and nothing else. */
  lemma {:induction false} RepliesExactly(pid: uint16, expectAuth: bool, st: Exchange.Progress, frames: seq<seq<byte>>)
    requires Exchange.Await(pid, expectAuth, st, frames).Success?
    ensures var r := Exchange.Await(pid, expectAuth, st, frames);
            && r.consumed <= |frames| && |r.replies| == |DataPackets(frames[..r.consumed])|
            && forall i :: 0 <= i < |r.replies| ==> AnswerTo(DataPackets(frames[..r.consumed])[i], r.replies[i])
    decreases |frames|
  {
    hide ReadPacket, Exchange.Receive, AnswerTo, DataPackets, Exchange.RepliesOf;
    if Exchange.Done(st) {
      assert frames[..0] == [];
      NoPackets();
    } else {
      var next := Exchange.Receive(pid, expectAuth, st, frames[0]).value;
      var rest := Exchange.Await(pid, expectAuth, next, frames[1..]);
      RepliesExactly(pid, expectAuth, next, frames[1..]);
      OneReply(frames[0]);
      var m := rest.consumed;
      assert frames[..m + 1] == [frames[0]] + frames[1..][..m];
    }
  }

  lemma NoPackets()
    ensures DataPackets([]) == []
  {
  }

  lemma OneReply(raw: seq<byte>)
    ensures var r, d := Exchange.RepliesOf(raw), DataPackets([raw]);
            && |r| == |d| <= 1 && (r != [] ==> AnswerTo(d[0], r[0]))
            && forall more :: DataPackets([raw] + more) == d + DataPackets(more)
  {
    hide ReadPacket, Answers.Groups, ResponseLength, AnswerRecords;
    assert [raw][1..] == [];
    forall more: seq<seq<byte>>
      ensures ([raw] + more)[1..] == more
    {
    }
    match ReadPacket(raw)
    case Rejected(_, _, _) =>
    case Accepted(p) => DataIsThere(raw, p);
  }
}
