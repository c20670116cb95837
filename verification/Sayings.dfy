/** What one packet of a destination can say: at most one word about the packet as a whole, first of
    all, and after it no more words about authorization than there is room for. */
module Sayings {
  import opened Bytes
  import Crc
  import opened Fields
  import opened Flags
  import S = Subrecords
  import Records
  import opened Services
  import opened Packets
  import opened Answers
  import opened Relaying
  import opened Exchange
  import opened ExchangeExact
  import opened Agreement
  import opened AnswerLimits
  import opened ExchangeOrder

  /** How many words about authorization fit a packet, at four octets each. */
  const MOST: nat := 16378

  predicate OnAuth(a: Atom) {
    (a.AuthResult? && a.paired) || (a.AuthAsk? && a.paired)
  }

  predicate AllOnAuth(words: seq<Atom>) {
    forall i :: 0 <= i < |words| ==> OnAuth(words[i])
  }

  predicate Sayable(words: seq<Atom>) {
    || (AllOnAuth(words) && |words| <= MOST)
    || (words != [] && words[0].Transport? && AllOnAuth(words[1..]) && |words| - 1 <= MOST)
  }

  /** Part of what one packet says could be said by one packet. */
  lemma PartSayable(words: seq<Atom>, p: nat, q: nat)
    requires Sayable(words) && p <= q <= |words|
    ensures Sayable(words[p..q])
  {
    if !AllOnAuth(words) {
      assert forall i :: 1 <= i < |words| ==> words[i] == words[1..][i - 1];
    }
  }

  // ---- no packet says more ----

  function WordsOf(s: ServiceRecord, rs: seq<Records.RecordData>): (a: seq<Atom>)
    ensures |a| == |rs| && forall i :: 0 <= i < |a| ==> a[i] == RecordAtom(s, rs[i].srd)
  {
    seq(|rs|, i requires 0 <= i < |rs| => RecordAtom(s, rs[i].srd))
  }

  lemma {:induction false} VerdictsAmong(atoms: seq<Atom>)
    ensures |Verdicts(atoms)| <= |atoms|
    ensures (forall i :: 0 <= i < |atoms| ==> !atoms[i].Transport?) ==> AllOnAuth(Verdicts(atoms))
    decreases |atoms|
  {
    if atoms != [] {
      VerdictsAmong(atoms[..|atoms| - 1]);
    }
  }

  lemma OneWord(s: ServiceRecord, srt: byte, body: seq<byte>)
    requires S.Decode(srt, body).Ok?
    ensures var a := RecordAtom(s, S.Decode(srt, body).value);
            !a.Transport? && 4 * |Verdicts([a])| <= 3 + |body|
  {
    var a := RecordAtom(s, S.Decode(srt, body).value);
    assert [a][..0] == [];
    assert Verdicts([]) == [];
  }

  lemma RecordsFront(b: seq<byte>)
    requires Records.Decode(b).Ok? && b != []
    ensures |b| >= 3 && 3 + U16(b[1..3]) as int <= |b|
    ensures var srl: nat := U16(b[1..3]); var body, tail := b[3..3 + srl], b[3 + srl..];
            && S.Decode(b[0], body).Ok? && Records.Decode(tail).Ok?
            && Records.Decode(b).value == [Records.RecordData(b[0], srl, S.Decode(b[0], body).value)] + Records.Decode(tail).value
  {
    hide S.Decode;
  }

  lemma {:induction false} SubrecordsSay(s: ServiceRecord, b: seq<byte>)
    requires Records.Decode(b).Ok?
    ensures var a := WordsOf(s, Records.Decode(b).value);
            4 * |Verdicts(a)| <= |b| && forall i :: 0 <= i < |a| ==> !a[i].Transport?
    decreases |b|
  {
    if b == [] {
      assert WordsOf(s, []) == [];
      return;
    }
    RecordsFront(b);
    hide S.Decode, Verdicts, RecordAtom, Records.Decode;
    var srl: nat := U16(b[1..3]);
    var body, tail := b[3..3 + srl], b[3 + srl..];
    var word := RecordAtom(s, S.Decode(b[0], body).value);
    var rest := WordsOf(s, Records.Decode(tail).value);
    OneWord(s, b[0], body);
    SubrecordsSay(s, tail);
    assert WordsOf(s, Records.Decode(b).value) == [word] + rest;
    VerdictsConcat([word], rest);
  }

  lemma OneServiceSays(b: seq<byte>)
    requires DecodeOne(b).Ok?
    ensures var s := DecodeOne(b).value.record; var a := ServiceAtoms(s);
            && 7 + 4 * |Verdicts(a)| + |DecodeOne(b).value.tail| <= |b|
            && forall i :: 0 <= i < |a| ==> !a[i].Transport?
  {
    hide DecodeOne, Records.Decode, Verdicts, RecordAtom;
    var s := DecodeOne(b).value.record;
    DecodedOne(b);
    BodyDecodes(b);
    SubrecordsSay(s, Body(b));
    assert ServiceAtoms(s) == WordsOf(s, s.rd);
  }

  lemma {:induction false} FrameAtomsFront(s: ServiceRecord, ss: Frame)
    ensures FrameAtoms([s] + ss) == ServiceAtoms(s) + FrameAtoms(ss)
    decreases |ss|
  {
    hide ServiceAtoms;
    if ss == [] {
      assert [s] + ss == [s] && [s][..0] == [];
      assert FrameAtoms([s]) == [] + ServiceAtoms(s);
      assert ServiceAtoms(s) + [] == ServiceAtoms(s);
    } else {
      var n := |ss| - 1;
      assert ([s] + ss)[..|[s] + ss| - 1] == [s] + ss[..n];
      FrameAtomsFront(s, ss[..n]);
    }
  }

  /** n octets of service records hold less than a quarter as many words about authorization. */
  lemma {:induction false} ServicesSay(b: seq<byte>)
    requires Services.Decode(b).Ok?
    ensures var ss := Services.Decode(b).value; var a := FrameAtoms(ss);
            && (ss != [] ==> 7 + 4 * |Verdicts(a)| <= |b|) && (ss == [] ==> a == [])
            && forall i :: 0 <= i < |a| ==> !a[i].Transport?
    decreases |b|
  {
    if b != [] {
      hide DecodeOne, ServiceAtoms, Verdicts, FrameAtoms;
      var s, tail := DecodeOne(b).value.record, DecodeOne(b).value.tail;
      var rest := Services.Decode(tail).value;
      OneServiceSays(b);
      ServicesSay(tail);
      FrameAtomsFront(s, rest);
      VerdictsConcat(ServiceAtoms(s), FrameAtoms(rest));
      NoneSaid();
    }
  }

  lemma NoneSaid()
    ensures Verdicts([]) == [] && FrameAtoms([]) == []
  {
  }

  lemma BodySays(pid: uint16, raw: seq<byte>, p: Packet)
    requires Parses(raw, p)
    ensures p.sfrd.AppData? ==> var a := FrameAtoms(p.sfrd.services);
              |Verdicts(a)| <= MOST && forall i :: 0 <= i < |a| ==> !a[i].Transport?
    ensures p.sfrd.Response? && p.sfrd.response.sdr.Some? ==> var a := FrameAtoms(p.sfrd.response.sdr.value);
              |Verdicts(a)| <= MOST && forall i :: 0 <= i < |a| ==> !a[i].Transport?
  {
    hide Services.Decode, FrameAtoms, Verdicts, Header, Crc.Crc8, Crc.Crc16, Bits8, U16;
    var body := BodyOf(p.hl, p.fdl, raw);
    NoneSaid();
    assert |body| <= 65522;
    if p.sfrd.AppData? {
      ServicesSay(body);
    } else if p.sfrd.Response? && p.sfrd.response.sdr.Some? {
      ServicesSay(body[3..]);
    }
  }

  lemma OneThenAuth(first: Atom, a: seq<Atom>)
    requires first.Transport? && |Verdicts(a)| <= MOST && forall i :: 0 <= i < |a| ==> !a[i].Transport?
    ensures Sayable(Verdicts([first] + a))
  {
    VerdictsConcat([first], a);
    VerdictsAmong(a);
    assert [first][..0] == [];
    assert Verdicts([first]) == [first];
    assert ([first] + Verdicts(a))[1..] == Verdicts(a);
  }

  /** Whatever a packet says is sayable. */
  lemma FramesSayable(pid: uint16, raw: seq<byte>)
    ensures Sayable(Verdicts(RawAtoms(pid, raw)))
  {
    hide ReadPacket, Verdicts, FrameAtoms, Repliable;
    NoneSaid();
    UnexpectedSaid();
    match ReadPacket(raw)
    case Rejected(_, _, _) =>
    case Accepted(p) =>
      DataIsThere(raw, p);
      AcceptedExactlyWhenParses(raw, p);
      hide Parses;
      BodySays(pid, raw, p);
      var a := PacketAtoms(pid, p);
      assert Sayable(Verdicts(a)) by {
        PacketSayable(pid, p);
      }
      VerdictsConcat(a, if Repliable(p) then [] else [Unexpected]);
      assert Verdicts(a) + [] == Verdicts(a);
  }

  lemma UnexpectedSaid()
    ensures Verdicts([Unexpected]) == []
  {
    assert [Unexpected][..0] == [];
  }

  lemma PacketSayable(pid: uint16, p: Packet)
    requires Known(p)
    requires p.sfrd.AppData? ==> var a := FrameAtoms(p.sfrd.services);
               |Verdicts(a)| <= MOST && forall i :: 0 <= i < |a| ==> !a[i].Transport?
    requires p.sfrd.Response? && p.sfrd.response.sdr.Some? ==> var a := FrameAtoms(p.sfrd.response.sdr.value);
               |Verdicts(a)| <= MOST && forall i :: 0 <= i < |a| ==> !a[i].Transport?
    ensures Sayable(Verdicts(PacketAtoms(pid, p)))
  {
    hide Verdicts, FrameAtoms;
    NoneSaid();
    if p.sfrd.AppData? {
      VerdictsAmong(FrameAtoms(p.sfrd.services));
    } else if p.sfrd.response.rpid == pid {
      OneThenAuth(Transport(p.sfrd.response.result),
                  if p.sfrd.response.sdr.Some? then FrameAtoms(p.sfrd.response.sdr.value) else []);
    }
  }

  // ---- a packet for all that is sayable ----

  function AuthData(a: Atom): S.Subrecord {
    if a.AuthResult? then S.ResultCode(a.rcd) else S.AuthParams(0)
  }

  function AuthRecord(a: Atom): Records.RecordData {
    Records.RecordData(S.TypeOf(AuthData(a)), 1, AuthData(a))
  }

  function AuthRecords(words: seq<Atom>): (rs: seq<Records.RecordData>)
    ensures |rs| == |words| && forall i :: 0 <= i < |rs| ==> rs[i] == AuthRecord(words[i])
  {
    seq(|words|, i requires 0 <= i < |words| => AuthRecord(words[i]))
  }

  /** A service record of the authorization service that says some words. */
  function AuthService(words: seq<Atom>): ServiceRecord
    requires |words| <= MOST
  {
    ServiceRecord(4 * |words|, 0, "0", "1", "0", "00", "0", "0", "0", 0, 0, 0, SERVICE_AUTH, SERVICE_AUTH, AuthRecords(words))
  }

  /** A data packet of one service record. */
  function DataPacket(s: ServiceRecord): Packet {
    Packet(1, 0, "00", "0", "00", "0", "00", 11, 0, (7 + s.rl) % 0x1_0000, 0, PT_APPDATA, 0, 0, 0, 0, AppData([s]), 0, PC_OK)
  }

  /** The packet that says some words about the packet sent. */
  function PacketSaying(pid: uint16, words: seq<Atom>): Packet
    requires Sayable(words) && words != []
  {
    if AllOnAuth(words) then DataPacket(AuthService(words))
    else ResponsePacket(PtResponse(pid, words[0].result, if |words| == 1 then None else Some([AuthService(words[1..])])), 0)
  }

  /** The packet that confirms one record, or says that it is not. */
  function PacketConfirming(a: Atom): Packet
    requires a.Confirm?
  {
    DataPacket(ServiceRecord(6, 0, "0", "1", "0", "00", "0", "0", "0", 0, 0, 0, a.key.source, a.key.recipient,
                             [Records.RecordData(S.RECORD_RESPONSE, 3, S.RecordResponse(a.key.number, a.status))]))
  }

  lemma AuthRecordEncodes(a: Atom)
    ensures Records.EncodeOne(AuthRecord(a)).Ok? && |Records.EncodeOne(AuthRecord(a)).value| == 4
    ensures Records.CanonicalOne(AuthRecord(a)) && !AuthRecord(a).srd.Position? && AuthRecord(a).srt != S.RECORD_RESPONSE
  {
  }

  lemma {:induction false} AuthRecordsEncode(words: seq<Atom>)
    ensures var rs := AuthRecords(words);
            && Records.Concat(rs).Ok? && |Records.Concat(rs).value| == 4 * |words|
            && Records.Canonical(rs) && Records.Unplaced(rs)
    decreases |words|
  {
    hide Records.EncodeOne, AuthRecord, Records.CanonicalOne;
    var rs := AuthRecords(words);
    forall i | 0 <= i < |words|
      ensures Records.CanonicalOne(rs[i]) && !rs[i].srd.Position?
    {
      AuthRecordEncodes(words[i]);
    }
    if words != [] {
      AuthRecordEncodes(words[0]);
      AuthRecordsEncode(words[1..]);
      assert rs[1..] == AuthRecords(words[1..]);
    }
  }

  /** A record of plain flags encodes in seven octets and its subrecords. */
  lemma PlainEncodes(s: ServiceRecord)
    requires s.ssod == "0" && s.rsod == "1" && s.grp == "0" && s.tmfe == "0" && s.evfe == "0" && s.obfe == "0" && s.rpp == "00"
    requires s.oid == 0 && s.evid == 0 && s.tm == 0 && Records.Canonical(s.rd)
    requires Records.Concat(s.rd).Ok? && |Records.Concat(s.rd).value| == s.rl > 0
    ensures CanonicalOne(s) && Services.Canonical([s])
    ensures Services.Encode([s]).Ok? <==> s.rl <= 65528
    ensures s.rl <= 65528 ==> |Services.Encode([s]).value| == 7 + s.rl
  {
    hide Records.Concat, Records.Canonical;
    AnswerFlags(s);
    assert [s][1..] == [];
    hide FlagsValid, Services.FlagByte, WriteAll;
    assert EncodeOne(s).Ok? && |EncodeOne(s).value| == 7 + s.rl;
    assert Services.Concat([s]) == Ok(EncodeOne(s).value + []);
  }

  lemma DataEncodes(s: ServiceRecord)
    requires Services.Canonical([s]) && Services.Encode([s]).Ok? && |Services.Encode([s]).value| == 7 + s.rl <= 65522
    ensures Packets.Canonical(DataPacket(s)) && Packets.Encode(DataPacket(s)).Ok?
  {
    hide Crc.Crc8, Crc.Crc16, Services.Encode, Services.Canonical, ParseBits, EncodedHeader;
    PlainFlags();
  }

  /** A data packet of one record, which can be confirmed in turn, says what the record says. */
  lemma DataSays(pid: uint16, s: ServiceRecord)
    requires Packets.Canonical(DataPacket(s)) && Packets.Encode(DataPacket(s)).Ok? && Records.Unplaced(s.rd)
    ensures RawAtoms(pid, Packets.Encode(DataPacket(s)).value) == ServiceAtoms(s)
  {
    hide ReadPacket, Packets.Encode, Sealed, Packets.Canonical, RawAtoms, ServiceAtoms, Records.Unplaced;
    var p := DataPacket(s);
    Packets.DecodeEncode(p);
    assert Services.Unplaced([s]);
    SealedSame(p);
    RecordSays(pid, Packets.Encode(p).value, Sealed(p), s);
  }

  lemma RecordSays(pid: uint16, raw: seq<byte>, q: Packet, s: ServiceRecord)
    requires ReadPacket(raw) == Accepted(q) && q.pt == PT_APPDATA && q.sfrd == AppData([s])
    ensures RawAtoms(pid, raw) == ServiceAtoms(s)
  {
    hide ReadPacket, Packets.Encode, Answer, FrameAtoms;
    SmallAnswer(s, q.pid);
    OneRecordAtoms(s);
    assert ServiceAtoms(s) + [] == ServiceAtoms(s);
  }

  lemma OneRecordAtoms(s: ServiceRecord)
    ensures FrameAtoms([s]) == ServiceAtoms(s)
  {
    hide ServiceAtoms;
    assert [s][..0] == [];
    NoAtoms();
    assert FrameAtoms([s]) == [] + ServiceAtoms(s);
  }

  lemma SmallAnswer(s: ServiceRecord, id: uint16)
    ensures Packets.Encode(Answer(PC_OK, id, [s], 0, id)).Ok?
  {
    hide Packets.Encode, Answer;
    AnswerSize(id, [s], 0, id);
    if HasData(s) {
      OneDataRecord(s);
    } else {
      NothingToConfirm([s]);
    }
  }

  lemma AuthAtoms(words: seq<Atom>)
    requires AllOnAuth(words) && |words| <= MOST
    ensures ServiceAtoms(AuthService(words)) == words
  {
    var s := AuthService(words);
    forall i | 0 <= i < |words|
      ensures RecordAtom(s, s.rd[i].srd) == words[i]
    {
      assert OnAuth(words[i]);
    }
  }

  lemma AuthServiceEncodes(words: seq<Atom>)
    requires words != [] && |words| <= MOST
    ensures var s := AuthService(words);
            && Services.Canonical([s]) && Services.Encode([s]).Ok? && |Services.Encode([s]).value| == 7 + s.rl
            && Records.Unplaced(s.rd)
  {
    hide Records.Concat, Records.Canonical, Services.Canonical, Services.Encode;
    AuthRecordsEncode(words);
    PlainEncodes(AuthService(words));
  }

  lemma WordsPacketSays(pid: uint16, words: seq<Atom>)
    requires words != [] && AllOnAuth(words) && |words| <= MOST
    ensures var p := DataPacket(AuthService(words));
            Packets.Encode(p).Ok? && RawAtoms(pid, Packets.Encode(p).value) == words
  {
    hide RawAtoms, Packets.Encode, Packets.Canonical, Services.Canonical, Services.Encode;
    AuthServiceEncodes(words);
    DataEncodes(AuthService(words));
    DataSays(pid, AuthService(words));
    AuthAtoms(words);
  }

  lemma ConfirmingSays(pid: uint16, a: Atom)
    requires a.Confirm?
    ensures Packets.Encode(PacketConfirming(a)).Ok? && RawAtoms(pid, Packets.Encode(PacketConfirming(a)).value) == [a]
  {
    var s := PacketConfirming(a).sfrd.services[0];
    OneConfirmation(s);
    hide RawAtoms, Packets.Encode, Packets.Canonical, Services.Canonical, Services.Encode, Records.Concat;
    PlainEncodes(s);
    DataEncodes(s);
    DataSays(pid, s);
    assert ServiceAtoms(s) == [a];
  }

  lemma OneConfirmation(s: ServiceRecord)
    requires |s.rd| == 1 && s.rd[0].srt == S.RECORD_RESPONSE && s.rd[0].srl == 3 && s.rd[0].srd.RecordResponse?
    ensures Records.Concat(s.rd).Ok? && |Records.Concat(s.rd).value| == 6 && Records.Canonical(s.rd) && Records.Unplaced(s.rd)
  {
    assert s.rd[1..] == [];
    assert Records.Concat(s.rd) == Ok(Records.EncodeOne(s.rd[0]).value + []);
  }

  lemma ResponseEncodes(r: PtResponse)
    requires r.sdr.Some? ==> r.sdr.value != [] && Services.Canonical(r.sdr.value) && Services.Encode(r.sdr.value).Ok?
                             && |Services.Encode(r.sdr.value).value| <= 65519
    ensures Packets.Canonical(ResponsePacket(r, 0)) && Packets.Encode(ResponsePacket(r, 0)).Ok?
  {
    hide Services.Encode, Services.Canonical, Packets.Encode, ResponseLength;
    ResponseFits(r, 0);
  }

  lemma ResponseSays(pid: uint16, r: PtResponse)
    requires r.rpid == pid && Packets.Canonical(ResponsePacket(r, 0)) && Packets.Encode(ResponsePacket(r, 0)).Ok?
    requires r.sdr.Some? ==> Services.Unplaced(r.sdr.value)
    ensures RawAtoms(pid, Packets.Encode(ResponsePacket(r, 0)).value)
            == [Transport(r.result)] + (if r.sdr.Some? then FrameAtoms(r.sdr.value) else [])
  {
    hide ReadPacket, Packets.Encode, Sealed, Packets.Canonical, FrameAtoms, Services.Unplaced, ResponseLength;
    var p := ResponsePacket(r, 0);
    Packets.DecodeEncode(p);
    SealedSame(p);
    var said := [Transport(r.result)] + (if r.sdr.Some? then FrameAtoms(r.sdr.value) else []);
    assert said + [] == said;
  }

  lemma ResponsePacketSays(pid: uint16, words: seq<Atom>)
    requires words != [] && words[0].Transport? && AllOnAuth(words[1..]) && |words| - 1 <= MOST
    ensures var p := ResponsePacket(PtResponse(pid, words[0].result, if |words| == 1 then None else Some([AuthService(words[1..])])), 0);
            Packets.Encode(p).Ok? && RawAtoms(pid, Packets.Encode(p).value) == words
  {
    hide RawAtoms, Packets.Encode, Packets.Canonical, Services.Canonical, Services.Encode, ResponsePacket, ServiceAtoms;
    var rest := words[1..];
    var r := PtResponse(pid, words[0].result, if |words| == 1 then None else Some([AuthService(rest)]));
    if |words| > 1 {
      AuthServiceEncodes(rest);
      AuthAtoms(rest);
      var s := AuthService(rest);
      OneRecordAtoms(s);
    }
    ResponseEncodes(r);
    ResponseSays(pid, r);
    assert [words[0]] + rest == words;
  }

  /** Whatever is sayable a packet says. */
  lemma PacketSays(pid: uint16, words: seq<Atom>)
    requires Sayable(words) && words != []
    ensures Packets.Encode(PacketSaying(pid, words)).Ok?
    ensures RawAtoms(pid, Packets.Encode(PacketSaying(pid, words)).value) == words
  {
    hide RawAtoms, Packets.Encode, ResponsePacket, DataPacket, AuthService;
    assert AllOnAuth(words) ==> OnAuth(words[0]);
    if AllOnAuth(words) {
      WordsPacketSays(pid, words);
    } else {
      ResponsePacketSays(pid, words);
    }
  }
}
