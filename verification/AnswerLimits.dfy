/** When the answer to an accepted request fits a packet, and that the bound cannot be moved. */
module AnswerLimits {
  import opened Bytes
  import opened Flags
  import opened Fields
  import S = Subrecords
  import SrAuthInfo
  import Records
  import opened Services
  import opened Packets
  import opened Answers

  // ---- how small a data record can be ----

  /** No subrecord is empty. */
  lemma EmptyRefused(srt: byte)
    ensures S.Decode(srt, []).Err?
  {
    assert SrAuthInfo.SplitZero([]) == [[]];
  }

  lemma RecordFloor(b: seq<byte>)
    requires Records.Decode(b).Ok? && b != []
    ensures |b| >= 4
  {
    if |b| == 3 {
      EmptyRefused(b[0]);
    }
  }

  lemma {:induction false} DataCountFront(x: ServiceRecord, ss: Frame)
    ensures DataCount([x] + ss) == (if HasData(x) then 1 else 0) + DataCount(ss)
    decreases |ss|
  {
    if ss == [] {
      assert [x] + ss == [x];
      assert [x][..0] == [];
    } else {
      var n := |ss| - 1;
      assert ([x] + ss)[..|[x] + ss| - 1] == [x] + ss[..n];
      DataCountFront(x, ss[..n]);
    }
  }

  lemma OneFloor(b: seq<byte>)
    requires DecodeOne(b).Ok?
    ensures |b| >= 11 + |DecodeOne(b).value.tail|
  {
    DecodedOne(b);
    BodyDecodes(b);
    RecordFloor(Body(b));
  }

  /** Every service record of an accepted frame takes at least eleven octets. */
  lemma {:induction false} FrameFloor(b: seq<byte>)
    requires Services.Decode(b).Ok?
    ensures |b| >= 11 * DataCount(Services.Decode(b).value)
    decreases |b|
  {
    if b != [] {
      OneFloor(b);
      var tail := DecodeOne(b).value.tail;
      FrameFloor(tail);
      DataCountFront(DecodeOne(b).value.record, Services.Decode(tail).value);
    }
  }

  /** A request that came in as a packet can be answered whenever it names at most 4254 pairs of
      services. */
  lemma AcceptedRequestAnswered(raw: seq<byte>, p: Packet, rn: uint16, pid: uint16)
    requires ReadPacket(raw) == Accepted(p) && p.pt == PT_APPDATA
    requires p.sfrd.AppData? && |Groups(p.sfrd.services)| <= 4254
    ensures Packets.Encode(Answer(PC_OK, p.pid, p.sfrd.services, rn, pid)).Ok?
  {
    hide ReadPacket;
    AcceptedData(raw, p);
    var ss := p.sfrd.services;
    AnswerSize(p.pid, ss, rn, pid);
    assert 11 * DataCount(ss) <= 65522;
  }

  lemma AcceptedData(raw: seq<byte>, p: Packet)
    requires ReadPacket(raw) == Accepted(p) && p.pt == PT_APPDATA && p.sfrd.AppData?
    ensures 11 * DataCount(p.sfrd.services) <= 65522
  {
    hide ReadPacket;
    AcceptedExactlyWhenParses(raw, p);
    ParsedBody(raw, p);
  }

  lemma ParsedBody(raw: seq<byte>, p: Packet)
    requires Parses(raw, p) && p.pt == PT_APPDATA && p.sfrd.AppData?
    ensures 11 * DataCount(p.sfrd.services) <= 65522
  {
    FrameFloor(BodyOf(p.hl, p.fdl, raw));
  }

  // ---- a request just past the bound ----

  /** A smallest data record, for the i-th pair of services. */
  function Probe(i: nat): ServiceRecord {
    ServiceRecord(4, 0, "0", "0", "0", "00", "0", "0", "0", 0, 0, 0, i % 256, i / 256 % 256,
                  [Records.RecordData(S.AUTH_PARAMS, 1, S.AuthParams(0))])
  }

  ghost predicate IsProbe(s: ServiceRecord) {
    exists k: nat :: s == Probe(k)
  }

  /** n smallest records over k pairs. */
  function Probes(n: nat, k: nat): (ss: Frame)
    ensures |ss| == n
  {
    seq(n, (i: nat) => Probe(if i < k then i else 0))
  }

  lemma ProbeEncodes(i: nat)
    ensures CanonicalOne(Probe(i)) && HasData(Probe(i))
    ensures EncodeOne(Probe(i)).Ok? && |EncodeOne(Probe(i)).value| == 11
  {
    var s := Probe(i);
    assert s.rd[0].srt != S.RECORD_RESPONSE;
    AnswerFlagsOf(s);
    assert s.rd[1..] == [];
    var one := Records.EncodeOne(s.rd[0]).value;
    assert one == [S.AUTH_PARAMS] + Le16(1) + [0];
    assert Records.Concat(s.rd) == Ok(one + []);
  }

  lemma AnswerFlagsOf(s: ServiceRecord)
    requires s.ssod == "0" && s.rsod == "0" && s.grp == "0" && s.rpp == "00"
    requires s.tmfe == "0" && s.evfe == "0" && s.obfe == "0"
    ensures FlagsValid(s) && Services.FlagByte(s).Value? && WriteAll(SlotsOf(s), Values(s)) == []
  {
    FlagsAsJoin(s);
    FlagsReadBack(s.ssod, s.rsod, s.grp, [s.rpp[0]], [s.rpp[1]], s.tmfe, s.evfe, s.obfe);
    var slots, v := SlotsOf(s), Values(s);
    assert slots[1..][1..][1..] == [];
    assert WriteAll(slots[1..][1..], v[1..][1..]) == [];
    assert WriteAll(slots[1..], v[1..]) == [];
  }

  lemma {:induction false} ProbesEncode(ss: Frame)
    requires forall i :: 0 <= i < |ss| ==> IsProbe(ss[i])
    ensures Services.Canonical(ss) && Services.Concat(ss).Ok? && |Services.Concat(ss).value| == 11 * |ss|
    decreases |ss|
  {
    if ss != [] {
      var k: nat :| ss[0] == Probe(k);
      ProbeEncodes(k);
      assert forall i :: 0 <= i < |ss[1..]| ==> ss[1..][i] == ss[i + 1];
      ProbesEncode(ss[1..]);
      forall i | 0 <= i < |ss|
        ensures CanonicalOne(ss[i])
      {
        if i > 0 {
          assert ss[i] == ss[1..][i - 1];
        }
      }
    }
  }

  lemma DifferentPairs(i: nat, j: nat)
    requires i < 0x1_0000 && j < 0x1_0000 && i != j
    ensures Probe(i).sst != Probe(j).sst || Probe(i).rst != Probe(j).rst
  {
  }

  /** One more record for a pair of its own starts a group, one for the first pair joins it. */
  lemma ProbeAdded(g: seq<Group>, i: nat, m: nat)
    requires m == |g| && (i == m || (i == 0 && m > 0)) && m <= 0x1_0000 && i < 0x1_0000
    requires forall j :: 0 <= j < |g| ==> g[j].sst == Probe(j).rst && g[j].rst == Probe(j).sst
    ensures var h := Add(g, Probe(i));
            |h| == (if i == m then m + 1 else m)
            && forall j :: 0 <= j < |h| ==> h[j].sst == Probe(j).rst && h[j].rst == Probe(j).sst
  {
    hide HasData;
    ProbeEncodes(i);
    forall j | 0 <= j < i
      ensures g[j].sst != Probe(i).rst || g[j].rst != Probe(i).sst
    {
      DifferentPairs(j, i);
    }
    FindIs(g, Probe(i).rst, Probe(i).sst, i);
  }

  /** The groups of the probes: one for each of the first k pairs met. */
  lemma {:induction false} ProbeGroups(n: nat, k: nat)
    requires 0 < k <= 0x1_0000
    ensures var g := Groups(Probes(n, k));
            DataCount(Probes(n, k)) == n && |g| == (if n < k then n else k)
            && forall i :: 0 <= i < |g| ==> g[i].sst == Probe(i).rst && g[i].rst == Probe(i).sst
  {
    if n > 0 {
      ProbeGroups(n - 1, k);
      var ss := Probes(n, k);
      assert ss[..n - 1] == Probes(n - 1, k);
      var i := if n - 1 < k then n - 1 else 0;
      ProbeEncodes(i);
      ProbeAdded(Groups(Probes(n - 1, k)), i, if n - 1 < k then n - 1 else k);
    }
  }

  function Overfull(): Packet {
    Packet(1, 0, "00", "0", "00", "0", "00", 11, 0, 65516, 1, PT_APPDATA, 0, 0, 0, 0, AppData(Probes(5956, 4255)), 0, PC_OK)
  }

  /** With one pair more there is a request that ReadPacket accepts and whose successful answer
      cannot be encoded. */
  lemma BoundIsTight(rn: uint16, pid: uint16)
    ensures Packets.Encode(Overfull()).Ok?
    ensures ReadPacket(Packets.Encode(Overfull()).value) == Accepted(Sealed(Overfull()))
    ensures Sealed(Overfull()).sfrd == Overfull().sfrd
    ensures |Groups(Overfull().sfrd.services)| == 4255
    ensures Packets.Encode(Answer(PC_OK, Overfull().pid, Overfull().sfrd.services, rn, pid)).Err?
  {
    hide ReadPacket, Packets.Written;
    var ss := Probes(5956, 4255);
    forall i | 0 <= i < |ss|
      ensures IsProbe(ss[i]) && Records.Unplaced(ss[i].rd)
    {
      assert ss[i] == Probe(if i < 4255 then i else 0);
    }
    ProbesEncode(ss);
    OverfullEncodes();
    Packets.WrittenSame(Overfull().sfrd);
    Packets.DecodeEncode(Overfull());
    ProbeGroups(5956, 4255);
    AnswerSize(1, ss, rn, pid);
  }

  lemma PlainFlags()
    ensures ParseBits("00" + "0" + "00" + "0" + "00").Value?
  {
    var s := "00" + "0" + "00" + "0" + "00";
    assert s == "00000000";
    ParsedPrints(s);
  }

  lemma OverfullEncodes()
    requires var ss := Probes(5956, 4255);
             Services.Canonical(ss) && Services.Concat(ss).Ok? && |Services.Concat(ss).value| == 65516
    ensures Packets.Canonical(Overfull()) && Packets.Encode(Overfull()).Ok?
  {
    hide ParseBits, Crc.Crc8, Crc.Crc16, HasData;
    PlainFlags();
    var p := Overfull();
    assert EncodeFrame(p.pt, p.sfrd) == Services.Encode(Probes(5956, 4255));
  }
}
