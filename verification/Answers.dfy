/** The answers to an incoming packet: PrepareAnswer and PrepareSRResultCode (egts/packet/packet.go). */
module Answers {
  import opened Bytes
  import opened Flags
  import opened Fields
  import S = Subrecords
  import Records
  import opened Services
  import opened Packets

  /** The confirmations for one pair of services, in the order the records came. */
  datatype Group = Group(sst: byte, rst: byte, crns: seq<uint16>)

  /** A record that carries anything but acknowledgements. */
  predicate HasData(r: ServiceRecord) {
    exists i :: 0 <= i < |r.rd| && r.rd[i].srt != S.RECORD_RESPONSE
  }

  // ---- what the loop computes ----

  /** Where the group of a pair stands; |g| when there is none yet. */
  function Find(g: seq<Group>, sst: byte, rst: byte): (i: nat)
    ensures i <= |g|
    ensures i < |g| ==> g[i].sst == sst && g[i].rst == rst
    ensures forall k :: 0 <= k < i ==> g[k].sst != sst || g[k].rst != rst
  {
    if g == [] then 0
    else if g[0].sst == sst && g[0].rst == rst then 0
    else 1 + Find(g[1..], sst, rst)
  }

  function Add(g: seq<Group>, r: ServiceRecord): seq<Group> {
    if !HasData(r) then g
    else
      var i := Find(g, r.rst, r.sst);
      if i < |g| then g[i := Group(r.rst, r.sst, g[i].crns + [r.rn])] else g + [Group(r.rst, r.sst, [r.rn])]
  }

  function Groups(ss: Frame): seq<Group>
    decreases |ss|
  {
    if ss == [] then [] else Add(Groups(ss[..|ss| - 1]), ss[|ss| - 1])
  }

  function Confirmation(crn: uint16): Records.RecordData {
    Records.RecordData(S.RECORD_RESPONSE, 3, S.RecordResponse(crn, PC_OK))
  }

  function Confirmations(crns: seq<uint16>): (rd: seq<Records.RecordData>)
    ensures |rd| == |crns|
  {
    seq(|crns|, i requires 0 <= i < |crns| => Confirmation(crns[i]))
  }

  /** The service record of a group; its length and number are kept in sixteen bits. */
  function AnswerRecord(g: Group, rn: nat): ServiceRecord {
    ServiceRecord(6 * |g.crns| % 0x1_0000, rn % 0x1_0000, "0", "1", "0", "11", "0", "0", "0", 0, 0, 0, g.sst, g.rst,
                  Confirmations(g.crns))
  }

  function AnswerRecords(g: seq<Group>, rn: nat): (ss: Frame)
    ensures |ss| == |g|
  {
    seq(|g|, i requires 0 <= i < |g| => AnswerRecord(g[i], rn + i))
  }

  function ResponseTo(code: byte, requestId: uint16, services: Frame): PtResponse {
    PtResponse(requestId, code, if services == [] then None else Some(services))
  }

  /** Len(): the length of the encoding, zero when there is none. */
  function ResponseLength(r: PtResponse): uint16 {
    match EncodeResponse(r)
    case Ok(b) => |b| % 0x1_0000
    case Err => 0
  }

  function ResponsePacket(r: PtResponse, pid: uint16): Packet {
    Packet(1, 0, "00", "0", "00", "0", "11", 11, 0, ResponseLength(r), pid, PT_RESPONSE, 0, 0, 0, 0, Response(r), 0, PC_OK)
  }

  /** The answer to an APPDATA packet that ended with a code: confirmations only when all is well. */
  function Answer(code: byte, requestId: uint16, services: Frame, rn: uint16, pid: uint16): Packet {
    ResponsePacket(ResponseTo(code, requestId, if code == PC_OK then AnswerRecords(Groups(services), rn) else []), pid)
  }

  /** No answer holds a position, so it is read back as it is. */
  lemma AnswerUnplaced(code: byte, requestId: uint16, services: Frame, rn: uint16, pid: uint16)
    ensures Packets.Unplaced(Answer(code, requestId, services, rn, pid).sfrd)
  {
    hide Groups, ResponseLength;
    var g := Groups(services);
    forall i | 0 <= i < |g|
      ensures Records.Unplaced(AnswerRecords(g, rn)[i].rd)
    {
      assert AnswerRecords(g, rn)[i].rd == Confirmations(g[i].crns);
    }
  }

  /** packet.go:353-366: does a record carry anything but acknowledgements? */
  method Inspect(r: ServiceRecord) returns (hasData: bool)
    ensures hasData == HasData(r)
  {
    hasData := false;
    for k := 0 to |r.rd|
      invariant hasData <==> exists i :: 0 <= i < k && r.rd[i].srt != S.RECORD_RESPONSE
    {
      if r.rd[k].srt != S.RECORD_RESPONSE {
        hasData := true;
      }
    }
  }

  /** The answer record for a pair of services; |services| when there is none yet. */
  method Locate(services: Frame, sst: byte, rst: byte) returns (at: nat)
    ensures at <= |services|
    ensures forall k :: 0 <= k < at ==> services[k].sst != sst || services[k].rst != rst
    ensures at < |services| ==> services[at].sst == sst && services[at].rst == rst
  {
    at := 0;
    while at < |services| && !(services[at].sst == sst && services[at].rst == rst)
      invariant at <= |services|
      invariant forall k :: 0 <= k < at ==> services[k].sst != sst || services[k].rst != rst
    {
      at := at + 1;
    }
  }

  /** PrepareAnswer's loop over the incoming records, with the groups as the service records they
      will be sent as. */
  method PrepareAnswer(code: byte, requestId: uint16, incoming: Frame, recordNum: uint16, pid: uint16) returns (answer: Packet)
    ensures answer == Answer(code, requestId, incoming, recordNum, pid)
  {
    hide ResponsePacket, HasData, Find, AnswerRecords;
    var services: Frame := [];
    if code == PC_OK {
      var next: nat := recordNum;
      NoRecords(recordNum);
      for n := 0 to |incoming|
        invariant services == AnswerRecords(Groups(incoming[..n]), recordNum)
        invariant next == recordNum + |services|
      {
        var r := incoming[n];
        ghost var g := Groups(incoming[..n]);
        assert incoming[..n + 1][..n] == incoming[..n];
        var hasData := Inspect(r);
        if hasData {
          var at := Locate(services, r.rst, r.sst);
          PairsSame(g, recordNum);
          FindIs(g, r.rst, r.sst, at);
          AddInPlace(g, r, recordNum, at);
          if at == |services| {
            services := services + [AnswerRecord(Group(r.rst, r.sst, []), next)];
            next := next + 1;
          } else {
            assert services + [] == services;
          }
          var s := services[at];
          services := services[at := s.(rd := s.rd + [Confirmation(r.rn)], rl := (s.rl + 6) % 0x1_0000)];
        }
      }
      assert incoming[..|incoming|] == incoming;
    }
    answer := ResponsePacket(ResponseTo(code, requestId, services), pid);
  }

  lemma NoRecords(rn: nat)
    ensures AnswerRecords(Groups([]), rn) == []
  {
  }

  lemma PairsSame(g: seq<Group>, rn: nat)
    ensures var ss := AnswerRecords(g, rn);
            forall k :: 0 <= k < |g| ==> ss[k].sst == g[k].sst && ss[k].rst == g[k].rst
  {
  }

  lemma FindIs(g: seq<Group>, sst: byte, rst: byte, at: nat)
    requires at <= |g|
    requires forall k :: 0 <= k < at ==> g[k].sst != sst || g[k].rst != rst
    requires at < |g| ==> g[at].sst == sst && g[at].rst == rst
    ensures Find(g, sst, rst) == at
  {
  }

  /** Adding a record to its group, new or not, adds one confirmation to one service record. */
  lemma AddInPlace(g: seq<Group>, r: ServiceRecord, rn: nat, at: nat)
    requires HasData(r) && at == Find(g, r.rst, r.sst)
    ensures var ss := AnswerRecords(g, rn) + (if at == |g| then [AnswerRecord(Group(r.rst, r.sst, []), rn + at)] else []);
            var s := ss[at];
            AnswerRecords(Add(g, r), rn) == ss[at := s.(rd := s.rd + [Confirmation(r.rn)], rl := (s.rl + 6) % 0x1_0000)]
  {
    hide HasData, Find, AnswerRecord;
    var had := if at == |g| then Group(r.rst, r.sst, []) else g[at];
    var has := Group(r.rst, r.sst, had.crns + [r.rn]);
    assert [] + [r.rn] == [r.rn];
    assert Add(g, r) == if at == |g| then g + [has] else g[at := has];
    AppendedRecord(g, had, has, r.rn, rn, at);
  }

  lemma AppendedRecord(g: seq<Group>, had: Group, has: Group, crn: uint16, rn: nat, at: nat)
    requires at <= |g| && has == had.(crns := had.crns + [crn]) && (at < |g| ==> had == g[at])
    ensures var ss := AnswerRecords(g, rn) + (if at == |g| then [AnswerRecord(had, rn + at)] else []);
            var s := ss[at];
            AnswerRecords(if at == |g| then g + [has] else g[at := has], rn)
            == ss[at := s.(rd := s.rd + [Confirmation(crn)], rl := (s.rl + 6) % 0x1_0000)]
  {
    AppendConfirmation(had, crn, rn + at);
    if at == |g| {
      RecordsAppend(g, has, rn);
    } else {
      RecordsUpdate(g, at, has, rn);
      assert AnswerRecords(g, rn) + [] == AnswerRecords(g, rn);
    }
  }

  lemma RecordsUpdate(g: seq<Group>, at: nat, x: Group, rn: nat)
    requires at < |g|
    ensures AnswerRecords(g[at := x], rn) == AnswerRecords(g, rn)[at := AnswerRecord(x, rn + at)]
  {
    hide AnswerRecord;
  }

  lemma RecordsAppend(g: seq<Group>, x: Group, rn: nat)
    ensures AnswerRecords(g + [x], rn) == AnswerRecords(g, rn) + [AnswerRecord(x, rn + |g|)]
  {
    hide AnswerRecord;
  }

  lemma AppendConfirmation(g: Group, crn: uint16, rn: nat)
    ensures var s := AnswerRecord(g, rn);
            AnswerRecord(g.(crns := g.crns + [crn]), rn)
            == s.(rd := s.rd + [Confirmation(crn)], rl := (s.rl + 6) % 0x1_0000)
  {
    assert Confirmations(g.crns + [crn]) == Confirmations(g.crns) + [Confirmation(crn)];
    LengthStep(|g.crns|);
  }

  lemma LengthStep(n: nat)
    ensures 6 * (n + 1) % 0x1_0000 == (6 * n % 0x1_0000 + 6) % 0x1_0000
  {
    var q := 6 * n / 0x1_0000;
    assert 6 * n == 0x1_0000 * q + 6 * n % 0x1_0000;
  }

  /** PrepareSRResultCode, and the variant of it in which the gateway asks for credentials. */
  function AuthPacket(data: S.Subrecord, rn: uint16, pid: uint16): Packet {
    Packet(1, 0, "00", "0", "00", "0", "00", 11, 0, 11, pid, PT_APPDATA, 0, 0, 0, 0,
           AppData([ServiceRecord(4, rn, "0", "1", "0", "00", "0", "0", "0", 0, 0, 0, SERVICE_AUTH, SERVICE_AUTH,
                                  [Records.RecordData(S.TypeOf(data), 1, data)])]), 0, PC_OK)
  }

  // ---- the answer partitions the request ----

  /** The numbers of the data records of one (source, recipient) pair, in order of arrival. */
  function Arrivals(ss: Frame, sst: byte, rst: byte): seq<uint16>
    decreases |ss|
  {
    if ss == [] then []
    else
      var r := ss[|ss| - 1];
      Arrivals(ss[..|ss| - 1], sst, rst) + (if HasData(r) && r.sst == sst && r.rst == rst then [r.rn] else [])
  }

  predicate Distinct(g: seq<Group>) {
    forall i, j :: 0 <= i < j < |g| ==> g[i].sst != g[j].sst || g[i].rst != g[j].rst
  }

  predicate Covers(ss: Frame, g: seq<Group>) {
    forall sst: byte, rst: byte :: Arrivals(ss, sst, rst) != [] ==> Find(g, rst, sst) < |g|
  }

  /** Every data record is confirmed exactly once: the groups are for different pairs, each lists
      exactly the records of the swapped pair in their order, and no pair is forgotten. */
  lemma {:induction false} AnswerPartitions(ss: Frame)
    ensures var g := Groups(ss);
            Distinct(g) && Covers(ss, g)
            && forall i :: 0 <= i < |g| ==> g[i].crns == Arrivals(ss, g[i].rst, g[i].sst) && g[i].crns != []
    decreases |ss|
  {
    if ss != [] {
      hide HasData;
      var front := ss[..|ss| - 1];
      var r := ss[|ss| - 1];
      var g, h := Groups(front), Groups(ss);
      AnswerPartitions(front);
      if HasData(r) {
        var at := Find(g, r.rst, r.sst);
        if at == |g| {
          assert Arrivals(front, r.sst, r.rst) == [];
        }
        forall i | 0 <= i < |h|
          ensures h[i].crns == Arrivals(ss, h[i].rst, h[i].sst) && h[i].crns != []
        {
          if i != at {
            assert h[i] == g[i];
            assert h[i].sst != r.rst || h[i].rst != r.sst;
          }
        }
        assert Distinct(h);
        forall sst: byte, rst: byte | Arrivals(ss, sst, rst) != []
          ensures Find(h, rst, sst) < |h|
        {
          if sst == r.sst && rst == r.rst {
            FindIs(h, rst, sst, at);
          } else {
            assert Arrivals(front, sst, rst) != [];
            SamePlace(g, h, rst, sst);
          }
        }
      }
    }
  }

  lemma SamePlace(g: seq<Group>, h: seq<Group>, sst: byte, rst: byte)
    requires |g| <= |h| && Find(g, sst, rst) < |g|
    requires forall i :: 0 <= i < |g| ==> h[i].sst == g[i].sst && h[i].rst == g[i].rst
    ensures Find(h, sst, rst) == Find(g, sst, rst)
  {
    FindIs(h, sst, rst, Find(g, sst, rst));
  }

  /** Groups stand in the order in which their pairs first appeared, and are numbered from rn on. */
  lemma {:induction false} GroupsKeepPlace(ss: Frame, n: nat, rn: uint16)
    requires n <= |ss|
    ensures Extends(Groups(ss[..n]), Groups(ss))
    ensures forall i :: 0 <= i < |Groups(ss)| ==> AnswerRecords(Groups(ss), rn)[i].rn == (rn + i) % 0x1_0000
    decreases |ss|
  {
    if n == |ss| {
      assert ss[..n] == ss;
    } else {
      GroupsKeepPlace(ss[..|ss| - 1], n, rn);
      assert ss[..|ss| - 1][..n] == ss[..n];
    }
  }

  /** h has the groups of g in their places, each with perhaps more confirmations at its end. */
  predicate Extends(g: seq<Group>, h: seq<Group>) {
    |g| <= |h|
    && forall i :: 0 <= i < |g| ==> h[i].sst == g[i].sst && h[i].rst == g[i].rst && g[i].crns <= h[i].crns
  }

  // ---- its size ----

  function DataCount(ss: Frame): (n: nat)
    ensures n <= |ss|
    decreases |ss|
  {
    if ss == [] then 0 else DataCount(ss[..|ss| - 1]) + (if HasData(ss[|ss| - 1]) then 1 else 0)
  }

  function Total(g: seq<Group>): nat {
    if g == [] then 0 else |g[0].crns| + Total(g[1..])
  }

  lemma {:induction false} TotalSnoc(g: seq<Group>, x: Group)
    ensures Total(g + [x]) == Total(g) + |x.crns|
  {
    if g == [] {
      assert (g + [x])[1..] == [];
    } else {
      assert (g + [x])[1..] == g[1..] + [x];
      TotalSnoc(g[1..], x);
    }
  }

  lemma {:induction false} TotalUpdate(g: seq<Group>, i: nat, x: Group)
    requires i < |g|
    ensures Total(g[i := x]) == Total(g) - |g[i].crns| + |x.crns|
  {
    if i == 0 {
      assert g[0 := x][1..] == g[1..];
    } else {
      assert g[i := x][1..] == g[1..][i - 1 := x];
      TotalUpdate(g[1..], i - 1, x);
    }
  }

  lemma {:induction false} CountsAgree(ss: Frame)
    ensures Total(Groups(ss)) == DataCount(ss) && |Groups(ss)| <= DataCount(ss)
    decreases |ss|
  {
    if ss != [] {
      CountsAgree(ss[..|ss| - 1]);
      var g := Groups(ss[..|ss| - 1]);
      var r := ss[|ss| - 1];
      if HasData(r) {
        var i := Find(g, r.rst, r.sst);
        if i < |g| {
          TotalUpdate(g, i, Group(r.rst, r.sst, g[i].crns + [r.rn]));
        } else {
          TotalSnoc(g, Group(r.rst, r.sst, [r.rn]));
        }
      }
    }
  }

  lemma {:induction false} ConfirmationsLength(crns: seq<uint16>)
    ensures Records.Concat(Confirmations(crns)).Ok?
    ensures |Records.Concat(Confirmations(crns)).value| == 6 * |crns|
    decreases |crns|
  {
    if crns != [] {
      ConfirmationsLength(crns[1..]);
      assert Confirmations(crns)[1..] == Confirmations(crns[1..]);
    }
  }

  lemma AnswerFlags(s: ServiceRecord)
    requires s.ssod == "0" && s.rsod == "1" && s.grp == "0" && s.tmfe == "0" && s.evfe == "0" && s.obfe == "0"
    requires s.rpp == "11" || s.rpp == "00"
    ensures FlagsValid(s) && Services.FlagByte(s).Value?
    ensures WriteAll(SlotsOf(s), Values(s)) == []
  {
    FlagsAsJoin(s);
    FlagsReadBack(s.ssod, s.rsod, s.grp, [s.rpp[0]], [s.rpp[1]], s.tmfe, s.evfe, s.obfe);
    var slots, v := SlotsOf(s), Values(s);
    assert slots[1..][1..][1..] == [];
    assert WriteAll(slots[1..][1..], v[1..][1..]) == [];
    assert WriteAll(slots[1..], v[1..]) == [];
  }

  /** One group is sent in seven octets and six more for each confirmation, as long as its length
      fits sixteen bits. */
  lemma AnswerRecordLength(g: Group, rn: nat)
    requires g.crns != []
    ensures CanonicalOne(AnswerRecord(g, rn))
    ensures EncodeOne(AnswerRecord(g, rn)).Ok? <==> 6 * |g.crns| <= 65535
    ensures 6 * |g.crns| <= 65535 ==> |EncodeOne(AnswerRecord(g, rn)).value| == 7 + 6 * |g.crns|
  {
    var s := AnswerRecord(g, rn);
    ConfirmationsLength(g.crns);
    AnswerFlags(s);
    forall i | 0 <= i < |s.rd|
      ensures Records.CanonicalOne(s.rd[i])
    {
    }
  }

  predicate NonEmpty(g: seq<Group>) {
    forall i :: 0 <= i < |g| ==> g[i].crns != []
  }

  predicate Fits16(g: seq<Group>) {
    forall i :: 0 <= i < |g| ==> 6 * |g[i].crns| <= 65535
  }

  lemma {:induction false} AnswerLength(g: seq<Group>, rn: nat)
    requires NonEmpty(g)
    ensures Services.Canonical(AnswerRecords(g, rn))
    ensures Services.Concat(AnswerRecords(g, rn)).Ok? <==> Fits16(g)
    ensures Fits16(g) ==> |Services.Concat(AnswerRecords(g, rn)).value| == 7 * |g| + 6 * Total(g)
    decreases |g|
  {
    if g == [] {
      return;
    }
    FitsStep(g);
    AnswerRecordLength(g[0], rn);
    var ss := AnswerRecords(g, rn);
    assert ss[0] == AnswerRecord(g[0], rn + 0) && ss[1..] == AnswerRecords(g[1..], rn + 1);
    hide AnswerRecord, AnswerRecords, EncodeOne, CanonicalOne, Fits16, NonEmpty, Services.Canonical;
    AnswerLength(g[1..], rn + 1);
    CanonicalStep(ss);
  }

  lemma CanonicalStep(ss: Frame)
    requires ss != [] && CanonicalOne(ss[0]) && Services.Canonical(ss[1..])
    ensures Services.Canonical(ss)
  {
    hide CanonicalOne;
    assert forall i :: 1 <= i < |ss| ==> ss[i] == ss[1..][i - 1];
  }

  lemma FitsStep(g: seq<Group>)
    requires g != []
    ensures Fits16(g) <==> 6 * |g[0].crns| <= 65535 && Fits16(g[1..])
    ensures NonEmpty(g) ==> g[0].crns != [] && NonEmpty(g[1..])
  {
    assert forall i :: 1 <= i < |g| ==> g[i] == g[1..][i - 1];
    assert forall i :: 0 <= i < |g| - 1 ==> g[1..][i] == g[i + 1];
  }

  lemma {:induction false} GroupBelowTotal(g: seq<Group>, i: nat)
    requires i < |g|
    ensures |g[i].crns| <= Total(g)
  {
    if i > 0 {
      GroupBelowTotal(g[1..], i - 1);
    }
  }

  lemma HeaderOfResponse(r: PtResponse, pid: uint16)
    ensures HeaderEncodes(ResponsePacket(r, pid))
  {
    var s := "00" + "0" + "00" + "0" + "11";
    assert s == "00000011";
    ParsedPrints(s);
  }

  /** A successful answer to a request whose k pairs bring n data records: exactly 3 + 7k + 6n
      octets of data, and it encodes exactly when a packet has room for them. */
  lemma AnswerSize(requestId: uint16, ss: Frame, rn: uint16, pid: uint16)
    ensures var a := Answer(PC_OK, requestId, ss, rn, pid);
            var size := 3 + 7 * |Groups(ss)| + 6 * DataCount(ss);
            Packets.Canonical(a) && (Packets.Encode(a).Ok? <==> size <= 65522)
            && (size <= 65522 ==> a.fdl == size && |Packets.Encode(a).value| == size + 13)
  {
    var g := Groups(ss);
    AnswerPartitions(ss);
    CountsAgree(ss);
    AnswerLength(g, rn);
    var services := AnswerRecords(g, rn);
    var r := ResponseTo(PC_OK, requestId, services);
    HeaderOfResponse(r, pid);
    if 7 * |g| + 6 * Total(g) <= 65519 {
      forall i | 0 <= i < |g|
        ensures 6 * |g[i].crns| <= 65535
      {
        GroupBelowTotal(g, i);
      }
    }
    if g == [] {
      assert services == [];
    } else {
      assert services != [];
    }
    ResponseFits(r, pid);
  }

  /** A confirmation packet encodes exactly when its data leaves room for header and checksum. */
  lemma ResponseFits(r: PtResponse, pid: uint16)
    ensures var a := ResponsePacket(r, pid);
            (Packets.Encode(a).Ok? <==> EncodeResponse(r).Ok? && |EncodeResponse(r).value| <= 65522)
            && (Packets.Encode(a).Ok? ==> a.fdl == |EncodeResponse(r).value| && |Packets.Encode(a).value| == a.fdl + 13)
  {
    hide EncodeResponse;
    HeaderOfResponse(r, pid);
    if EncodeResponse(r).Ok? {
      ResponseBounded(r);
    }
  }

  lemma ResponseBounded(r: PtResponse)
    requires EncodeResponse(r).Ok?
    ensures 3 <= |EncodeResponse(r).value| <= 65535
  {
  }

  /** An answer that refuses the packet always encodes. */
  lemma RefusalEncodes(code: byte, requestId: uint16, ss: Frame, rn: uint16, pid: uint16)
    requires code != PC_OK
    ensures var a := Answer(code, requestId, ss, rn, pid); Packets.Canonical(a) && Packets.Encode(a).Ok? && a.fdl == 3
  {
    ResponseFits(ResponseTo(code, requestId, []), pid);
  }
}
