/** The transport packet (egts/packet/packet.go, pt_response.go, codes.go). */
module Packets {
  import opened Bytes
  import opened Flags
  import Crc
  import Services

  const PT_RESPONSE: byte := 0
  const PT_APPDATA: byte := 1
  const PT_SIGNED_APPDATA: byte := 2

  const PC_OK: byte := 0
  const PC_IN_PROGRESS: byte := 1
  const PC_UNS_PROTOCOL: byte := 128
  const PC_DECRYPT_ERROR: byte := 129
  const PC_INC_HEADERFORM: byte := 131
  const PC_INC_DATAFORM: byte := 132
  const PC_UNS_TYPE: byte := 133
  const PC_HEADERCRC_ERROR: byte := 137
  const PC_DATACRC_ERROR: byte := 138
  const PC_INVDATALEN: byte := 139
  const PC_AUTH_DENIED: byte := 151
  const PC_NO_RES_AVAIL: byte := 156

  const SERVICE_AUTH: byte := 1

  type Frame = seq<Services.ServiceRecord>

  /** EGTS_PT_RESPONSE: the packet confirmed, its processing result and optional records. */
  datatype PtResponse = PtResponse(rpid: uint16, result: byte, sdr: Option<Frame>)

  /** The ServicesFrameData field: nil, a *ServicesFrameData or a *PTResponse. */
  datatype FrameData = NoData | AppData(services: Frame) | Response(response: PtResponse)

  datatype Packet = Packet(
    prv: byte, skid: byte, prf: string, rte: string, ena: string, cmp: string, pr: string,
    hl: byte, he: byte, fdl: uint16, pid: uint16, pt: byte, pra: uint16, rca: uint16, ttl: byte, hcs: byte,
    sfrd: FrameData, sfrcs: uint16, errorCode: byte)

  /** ReadPacket's packet, or the error code with the type and identifier read before the error
      (zero when not reached), which is all an answer to a bad packet uses. */
  datatype Outcome = Accepted(p: Packet) | Rejected(code: byte, pt: byte, pid: uint16)

  // ---- EGTS_PT_RESPONSE ----

  function DecodeResponse(b: seq<byte>): Result<PtResponse> {
    if |b| < 3 then Err
    else if |b| == 3 then Ok(PtResponse(U16(b[..2]), b[2], None))
    else
      var sdr :- Services.Decode(b[3..]);
      Ok(PtResponse(U16(b[..2]), b[2], Some(sdr)))
  }

  function EncodeResponse(r: PtResponse): Result<seq<byte>> {
    var head := Le16(r.rpid) + [r.result];
    match r.sdr
    case None => Ok(head)
    case Some(services) =>
      var sdr :- Services.Encode(services);
      if |sdr| + 3 > 65535 then Err else Ok(head + sdr)
  }

  // ---- the frame data of a packet type ----

  function DecodeFrame(pt: byte, body: seq<byte>): Result<FrameData> {
    if pt == PT_RESPONSE then
      var r :- DecodeResponse(body);
      Ok(Response(r))
    else if pt == PT_APPDATA then
      var s :- Services.Decode(body);
      Ok(AppData(s))
    else Err
  }

  /** Encode's type switch and the encoding of what it lets through. */
  function EncodeFrame(pt: byte, d: FrameData): Result<seq<byte>> {
    if pt == PT_APPDATA then
      match d
      case NoData => Ok([])
      case AppData(s) => Services.Encode(s)
      case Response(_) => Err
    else if pt == PT_RESPONSE then
      match d
      case Response(r) => EncodeResponse(r)
      case _ => Err
    else Err
  }

  // ---- reading ----

  function HeaderLength(rte: char): byte {
    if rte == '1' then 16 else 11
  }

  function BodyOf(hl: nat, fdl: nat, b: seq<byte>): seq<byte>
    requires hl + fdl <= |b|
  {
    b[hl..hl + fdl]
  }

  /** The length of a packet whose header announces fdl octets of data; the data checksum is
      present only when there is data. */
  function PacketLength(hl: nat, fdl: nat): nat {
    hl + fdl + (if fdl > 0 then 2 else 0)
  }

  /** The header fields of a buffer that holds a whole header. */
  function Header(b: seq<byte>): (p: Packet)
    requires |b| >= 11 && |b| >= HeaderLength(Bits8(b[2])[2])
    ensures p.hl == HeaderLength(Bits8(b[2])[2])
  {
    var f := Bits8(b[2]);
    var routed := f[2] == '1';
    var hl := HeaderLength(f[2]);
    Packet(b[0], b[1], f[..2], [f[2]], f[3..5], [f[5]], f[6..], hl, b[4], U16(b[5..7]), U16(b[7..9]), b[9],
           if routed then U16(b[10..12]) else 0, if routed then U16(b[12..14]) else 0, if routed then b[14] else 0,
           b[hl - 1], NoData, 0, PC_OK)
  }

  /** The checks on a complete header, in their order: the code of the first that fails. */
  function HeaderFault(b: seq<byte>, p: Packet): (code: byte)
    requires 0 < p.hl as int <= |b|
    ensures code == PC_OK ==> PacketLength(p.hl, p.fdl) == |b|
  {
    if p.hcs != Crc.Crc8(b[..p.hl - 1]) then PC_HEADERCRC_ERROR
    else if p.prv != 1 then PC_UNS_PROTOCOL
    else if p.prf != "00" || p.he != 0 then PC_INC_HEADERFORM
    else if p.ena != "00" then PC_DECRYPT_ERROR
    else if p.cmp != "0" then PC_UNS_TYPE
    else if PacketLength(p.hl, p.fdl) != |b| || |b| > 65535 then PC_INVDATALEN
    else PC_OK
  }

  /** Reading what follows a good header. */
  function ReadData(b: seq<byte>, p: Packet): Outcome
    requires PacketLength(p.hl, p.fdl) == |b|
  {
    var body := BodyOf(p.hl, p.fdl, b);
    var sfrcs := if p.fdl > 0 then U16(b[|b| - 2..]) else 0;
    if p.fdl > 0 && sfrcs != Crc.Crc16(body) then Rejected(PC_DATACRC_ERROR, p.pt, p.pid)
    else if p.pt != PT_RESPONSE && p.pt != PT_APPDATA then Rejected(PC_UNS_TYPE, p.pt, p.pid)
    else
      match DecodeFrame(p.pt, body)
      case Ok(sfrd) => Accepted(p.(sfrd := sfrd, sfrcs := sfrcs))
      case Err => Rejected(PC_INC_DATAFORM, p.pt, p.pid)
  }

  function ReadPacket(b: seq<byte>): Outcome {
    if |b| < 4 || b[3] != HeaderLength(Bits8(b[2])[2]) then Rejected(PC_INC_HEADERFORM, 0, 0)
    else if |b| < 9 then Rejected(PC_INC_HEADERFORM, 0, 0)
    else if |b| < 10 then Rejected(PC_INC_HEADERFORM, 0, U16(b[7..9]))
    else if |b| < b[3] as nat then Rejected(PC_INC_HEADERFORM, b[9], U16(b[7..9]))
    else
      var p := Header(b);
      var fault := HeaderFault(b, p);
      if fault != PC_OK then Rejected(fault, p.pt, p.pid) else ReadData(b, p)
  }

  /** An accepted APPDATA packet holds service records. */
  lemma DataIsThere(b: seq<byte>, p: Packet)
    requires ReadPacket(b) == Accepted(p)
    ensures p.pt == PT_APPDATA ==> p.sfrd.AppData?
    ensures p.pt == PT_RESPONSE ==> p.sfrd.Response?
    ensures p.pt == PT_APPDATA || p.pt == PT_RESPONSE
  {
    hide HeaderFault, Header, DecodeResponse, Services.Decode, Crc.Crc16, Bits8, U16, BodyOf;
  }

  /** A rejected packet has a code that says so. */
  lemma RejectedSays(b: seq<byte>)
    requires ReadPacket(b).Rejected?
    ensures ReadPacket(b).code != PC_OK
  {
    hide Header, DecodeFrame, Crc.Crc8, Crc.Crc16;
  }

  // ---- writing ----

  function FlagByte(p: Packet): Parsed {
    ParseBits(p.prf + p.rte + p.ena + p.cmp + p.pr)
  }

  predicate HeaderEncodes(p: Packet) {
    && p.prv == 1 && p.prf == "00" && p.he == 0 && p.ena == "00" && p.cmp == "0"
    && IsFlag(p.rte) && |p.pr| == 2 && p.hl == HeaderLength(p.rte[0])
    && FlagByte(p).Value?
  }

  function EncodedHeader(p: Packet): seq<byte>
    requires FlagByte(p).Value?
  {
    [p.prv, p.skid, FlagByte(p).v, p.hl, p.he] + Le16(p.fdl) + Le16(p.pid) + [p.pt]
    + (if p.rte == "1" then Le16(p.pra) + Le16(p.rca) + [p.ttl] else [])
  }

  function Encode(p: Packet): Result<seq<byte>> {
    if !HeaderEncodes(p) then Err
    else
      var sfrd :- EncodeFrame(p.pt, p.sfrd);
      if p.fdl != |sfrd| || PacketLength(p.hl, |sfrd|) > 65535 then Err
      else
        var h := EncodedHeader(p);
        Ok(h + [Crc.Crc8(h)] + sfrd + Trailer(sfrd))
  }

  // ---- the laws ----

  predicate CanonicalFrame(pt: byte, d: FrameData) {
    match d
    case NoData => false
    case AppData(s) => pt == PT_APPDATA && Services.Canonical(s)
    case Response(r) => pt == PT_RESPONSE && (r.sdr.Some? ==> r.sdr.value != [] && Services.Canonical(r.sdr.value))
  }

  /** The packets ReadPacket can return, but for the checksums it fills in. */
  predicate Canonical(p: Packet) {
    && p.errorCode == PC_OK
    && (p.rte == "0" ==> p.pra == 0 && p.rca == 0 && p.ttl == 0)
    && CanonicalFrame(p.pt, p.sfrd)
  }

  predicate ExactFrame(pt: byte, body: seq<byte>)
    requires DecodeFrame(pt, body).Ok?
  {
    if pt == PT_APPDATA then Services.Exact(body)
    else |body| == 3 || Services.Exact(body[3..])
  }

  /** The frame data as another party reads it after Encode. */
  function Written(d: FrameData): FrameData {
    match d
    case NoData => NoData
    case AppData(s) => AppData(Services.Written(s))
    case Response(r) => if r.sdr.None? then d else Response(r.(sdr := Some(Services.Written(r.sdr.value))))
  }

  predicate Unplaced(d: FrameData) {
    match d
    case NoData => true
    case AppData(s) => Services.Unplaced(s)
    case Response(r) => r.sdr.Some? ==> Services.Unplaced(r.sdr.value)
  }

  /** Data without positions comes back as it is. */
  lemma WrittenSame(d: FrameData)
    requires Unplaced(d)
    ensures Written(d) == d
  {
    match d
    case NoData =>
    case AppData(s) => Services.WrittenSame(s);
    case Response(r) =>
      if r.sdr.Some? {
        Services.WrittenSame(r.sdr.value);
      }
  }

  lemma FrameReadBack(pt: byte, d: FrameData)
    requires CanonicalFrame(pt, d) && EncodeFrame(pt, d).Ok?
    ensures DecodeFrame(pt, EncodeFrame(pt, d).value) == Ok(Written(d))
  {
    var e := EncodeFrame(pt, d).value;
    match d
    case AppData(s) => Services.DecodeEncode(s);
    case Response(r) =>
      assert e[..2] == Le16(r.rpid);
      Le16Inverse(r.rpid);
      if r.sdr.Some? {
        Services.DecodeEncode(r.sdr.value);
        var sdr := Services.Encode(r.sdr.value).value;
        assert e[3..] == sdr;
        assert sdr != [] by {
          assert Services.Decode([]) == Ok([]);
        }
      }
  }

  /** One confirmation written again. */
  lemma ResponseWrittenBack(body: seq<byte>)
    requires DecodeResponse(body).Ok? && |body| <= 65535
    ensures var r := DecodeResponse(body).value;
            (r.sdr.Some? ==> r.sdr.value != [] && Services.Canonical(r.sdr.value))
            && (EncodeResponse(r) == Ok(body) <==> |body| == 3 || Services.Exact(body[3..]))
  {
    U16Inverse(body[..2]);
    var head := body[..2] + [body[2]];
    assert body == head + body[3..];
    if |body| == 3 {
      assert body[3..] == [];
      assert head + [] == head;
      assert EncodeResponse(DecodeResponse(body).value) == Ok(head);
    } else {
      var tail := body[3..];
      Services.EncodeDecode(tail);
      var ss := Services.Decode(tail).value;
      ConfirmationEncodes(head, ss, tail);
    }
  }

  lemma ConfirmationEncodes(head: seq<byte>, ss: Frame, tail: seq<byte>)
    requires |head| == 3 && 3 + |tail| <= 65535
    ensures EncodeResponse(PtResponse(U16(head[..2]), head[2], Some(ss))) == Ok(head + tail)
            <==> Services.Concat(ss) == Ok(tail)
  {
    U16Inverse(head[..2]);
    assert Le16(U16(head[..2])) + [head[2]] == head;
    if Services.Concat(ss).Ok? {
      SplitSame(head, Services.Concat(ss).value, head, tail);
    }
  }

  lemma FrameWrittenBack(pt: byte, body: seq<byte>)
    requires DecodeFrame(pt, body).Ok? && |body| <= 65535
    ensures var d := DecodeFrame(pt, body).value;
            CanonicalFrame(pt, d) && (EncodeFrame(pt, d) == Ok(body) <==> ExactFrame(pt, body))
  {
    if pt == PT_APPDATA {
      Services.EncodeDecode(body);
    } else {
      ResponseWrittenBack(body);
    }
  }

  lemma FlagByteReads(p: Packet)
    requires HeaderEncodes(p)
    ensures Bits8(FlagByte(p).v) == ['0', '0', p.rte[0], '0', '0', '0', p.pr[0], p.pr[1]]
  {
    var s := p.prf + p.rte + p.ena + p.cmp + p.pr;
    assert s == ['0', '0', p.rte[0], '0', '0', '0', p.pr[0], p.pr[1]];
    ParsedPrints(s);
  }

  /** Where the fields stand in the header Encode writes. */
  lemma HeaderOctets(p: Packet, c: byte, rest: seq<byte>)
    requires HeaderEncodes(p)
    ensures var h := EncodedHeader(p); var b := h + [c] + rest;
            && |h| == p.hl - 1 && b[..p.hl - 1] == h && b[p.hl - 1] == c && |b| >= 11
            && b[0] == p.prv && b[1] == p.skid && b[2] == FlagByte(p).v && b[3] == p.hl && b[4] == p.he
            && b[5..7] == Le16(p.fdl) && b[7..9] == Le16(p.pid) && b[9] == p.pt
            && (p.rte == "1" ==> |h| == 15 && b[10..12] == Le16(p.pra) && b[12..14] == Le16(p.rca) && b[14] == p.ttl)
  {
    hide FlagByte;
    var h := EncodedHeader(p);
    var b := h + [c] + rest;
    assert p.rte == "0" || p.rte == "1";
    assert b[..p.hl - 1] == h;
    assert h[5..7] == Le16(p.fdl) && h[7..9] == Le16(p.pid);
    assert b[5..7] == h[5..7] && b[7..9] == h[7..9];
    if p.rte == "1" {
      assert h[10..12] == Le16(p.pra) && h[12..14] == Le16(p.rca);
      assert b[10..12] == h[10..12] && b[12..14] == h[12..14];
    }
  }

  /** The header Encode writes, read back from the front of any buffer. */
  lemma HeaderReadBack(p: Packet, rest: seq<byte>)
    requires HeaderEncodes(p) && (p.rte == "0" ==> p.pra == 0 && p.rca == 0 && p.ttl == 0)
    ensures var h := EncodedHeader(p);
            |h| == p.hl - 1
            && var b := h + [Crc.Crc8(h)] + rest;
               b[..p.hl - 1] == h && HeaderLength(Bits8(b[2])[2]) == p.hl == b[3]
               && Header(b) == p.(hcs := Crc.Crc8(h), sfrd := NoData, sfrcs := 0, errorCode := PC_OK)
  {
    FlagByteReads(p);
    HeaderOctets(p, Crc.Crc8(EncodedHeader(p)), rest);
    hide Bits8, FlagByte, Crc.Crc8, EncodedHeader, U16, Le16;
    var f := Bits8(FlagByte(p).v);
    assert f[..2] == "00" && [f[2]] == p.rte && f[3..5] == "00" && [f[5]] == "0" && f[6..] == p.pr;
    Le16Inverse(p.fdl);
    Le16Inverse(p.pid);
    Le16Inverse(p.pra);
    Le16Inverse(p.rca);
  }

  /** The packet as another party reads it after Encode: the checksums are in place, and the
      coordinates are those that were written. */
  function Sealed(p: Packet): Packet
    requires Encode(p).Ok?
  {
    var sfrd := EncodeFrame(p.pt, p.sfrd).value;
    p.(sfrd := Written(p.sfrd), hcs := Crc.Crc8(EncodedHeader(p)), sfrcs := if sfrd == [] then 0 else Crc.Crc16(sfrd))
  }

  /** b is a packet that parses as p: ReadPacket's checks, all passed. */
  predicate Parses(b: seq<byte>, p: Packet) {
    && 11 <= |b| <= 65535 && HeaderLength(Bits8(b[2])[2]) as int <= |b| && b[3] == HeaderLength(Bits8(b[2])[2])
    && p == Header(b).(sfrd := p.sfrd, sfrcs := p.sfrcs)
    && p.hcs == Crc.Crc8(b[..p.hl - 1])
    && p.prv == 1 && p.prf == "00" && p.he == 0 && p.ena == "00" && p.cmp == "0"
    && PacketLength(p.hl, p.fdl) == |b|
    && p.sfrcs == (if p.fdl > 0 then U16(b[|b| - 2..]) else 0)
    && (p.fdl > 0 ==> p.sfrcs == Crc.Crc16(BodyOf(p.hl, p.fdl, b)))
    && DecodeFrame(p.pt, BodyOf(p.hl, p.fdl, b)) == Ok(p.sfrd)
  }

  /** Every subrecord of a parsed packet is one that loses nothing. */
  predicate Exact(b: seq<byte>, p: Packet)
    requires Parses(b, p)
  {
    ExactFrame(p.pt, BodyOf(p.hl, p.fdl, b))
  }

  lemma DataExactlyWhen(b: seq<byte>, h: Packet, p: Packet)
    requires PacketLength(h.hl, h.fdl) == |b|
    ensures ReadData(b, h) == Accepted(p) <==>
            && p == h.(sfrd := p.sfrd, sfrcs := p.sfrcs)
            && p.sfrcs == (if h.fdl > 0 then U16(b[|b| - 2..]) else 0)
            && (h.fdl > 0 ==> p.sfrcs == Crc.Crc16(BodyOf(h.hl, h.fdl, b)))
            && DecodeFrame(h.pt, BodyOf(h.hl, h.fdl, b)) == Ok(p.sfrd)
  {
  }

  /** The octets hold a whole header of the length they announce. */
  predicate HeaderThere(b: seq<byte>) {
    11 <= |b| && HeaderLength(Bits8(b[2])[2]) as int <= |b| && b[3] == HeaderLength(Bits8(b[2])[2])
  }

  lemma ReadsHeader(b: seq<byte>)
    ensures !HeaderThere(b) ==> ReadPacket(b).Rejected?
    ensures HeaderThere(b) ==>
              var h := Header(b); var fault := HeaderFault(b, h);
              ReadPacket(b) == if fault != PC_OK then Rejected(fault, h.pt, h.pid) else ReadData(b, h)
  {
    hide Bits8, HeaderFault, ReadData, U16;
  }

  lemma HeaderFits(b: seq<byte>, h: Packet)
    requires 0 < h.hl as int <= |b|
    ensures HeaderFault(b, h) == PC_OK <==>
            && h.hcs == Crc.Crc8(b[..h.hl - 1])
            && h.prv == 1 && h.prf == "00" && h.he == 0 && h.ena == "00" && h.cmp == "0"
            && PacketLength(h.hl, h.fdl) == |b| <= 65535
  {
    hide Crc.Crc8;
  }

  lemma AcceptedExactlyWhenParses(b: seq<byte>, p: Packet)
    ensures ReadPacket(b) == Accepted(p) <==> Parses(b, p)
  {
    hide Header, HeaderFault, ReadData, DecodeFrame, Crc.Crc8, Crc.Crc16, Bits8, U16, ReadPacket;
    ReadsHeader(b);
    if HeaderThere(b) {
      var h := Header(b);
      HeaderFits(b, h);
      if HeaderFault(b, h) == PC_OK {
        DataExactlyWhen(b, h, p);
      }
    }
  }

  /** What acceptance says of the octets alone: the header length fits the routing flag, the
      length fits the header, and both checksums are right. */
  predicate Envelope(b: seq<byte>) {
    && 11 <= |b| <= 65535 && b[0] == 1 && b[3] == HeaderLength(Bits8(b[2])[2]) && b[3] as int <= |b|
    && b[b[3] - 1] == Crc.Crc8(b[..b[3] - 1])
    && |b| == PacketLength(b[3], U16(b[5..7]))
    && (U16(b[5..7]) > 0 ==> U16(b[|b| - 2..]) == Crc.Crc16(BodyOf(b[3], U16(b[5..7]), b)))
  }

  lemma AcceptedEnvelope(b: seq<byte>, p: Packet)
    requires ReadPacket(b) == Accepted(p)
    ensures Envelope(b) && p.hl == b[3] && p.fdl == U16(b[5..7])
  {
    AcceptedExactlyWhenParses(b, p);
  }

  /** The three stretches of an encoding. */
  lemma Stretches(h: seq<byte>, c: byte, body: seq<byte>, sum: seq<byte>)
    ensures var b := h + [c] + body + sum;
            b[..|h|] == h && b[|h|] == c && b[|h| + 1..|h| + 1 + |body|] == body
            && b[|h| + 1 + |body|..] == sum && b == h + [c] + (body + sum)
  {
  }

  /** Whatever Encode writes for a canonical packet, ReadPacket returns with the checksums filled,
      through all four levels of nesting; only coordinates may come back one less. */
  lemma DecodeEncode(p: Packet)
    requires Canonical(p) && Encode(p).Ok?
    ensures ReadPacket(Encode(p).value) == Accepted(Sealed(p))
  {
    var sfrd := EncodeFrame(p.pt, p.sfrd).value;
    var sum := Trailer(sfrd);
    var h := EncodedHeader(p);
    var b := Encode(p).value;
    Stretches(h, Crc.Crc8(h), sfrd, sum);
    HeaderReadBack(p, sfrd + sum);
    FrameReadBack(p.pt, p.sfrd);
    Le16Inverse(Crc.Crc16(sfrd));
    AcceptedExactlyWhenParses(b, Sealed(p));
  }

  lemma FlagString(f: string)
    requires |f| == 8
    ensures f[..2] + [f[2]] + f[3..5] + [f[5]] + f[6..] == f
  {
  }

  lemma FixedPart(b: seq<byte>)
    requires |b| >= 10
    ensures [b[0], b[1], b[2], b[3], b[4]] + Le16(U16(b[5..7])) + Le16(U16(b[7..9])) + [b[9]] == b[..10]
  {
    U16Inverse(b[5..7]);
    U16Inverse(b[7..9]);
  }

  lemma RoutedPart(b: seq<byte>)
    requires |b| >= 15
    ensures Le16(U16(b[10..12])) + Le16(U16(b[12..14])) + [b[14]] == b[10..15]
  {
    U16Inverse(b[10..12]);
    U16Inverse(b[12..14]);
  }

  /** The header of a buffer, written again. */
  lemma HeaderWrittenBack(b: seq<byte>, p: Packet)
    requires |b| >= 11 && HeaderLength(Bits8(b[2])[2]) as int <= |b| && b[3] == HeaderLength(Bits8(b[2])[2])
    requires p == Header(b).(sfrd := p.sfrd, sfrcs := p.sfrcs)
    requires p.prv == 1 && p.prf == "00" && p.he == 0 && p.ena == "00" && p.cmp == "0"
    ensures HeaderEncodes(p) && EncodedHeader(p) == b[..p.hl - 1] && (p.rte == "0" ==> p.pra == 0 && p.rca == 0 && p.ttl == 0)
  {
    FlagString(Bits8(b[2]));
    Bits8Parses(b[2]);
    assert FlagByte(p) == Value(b[2]);
    FixedPart(b);
    if p.rte == "1" {
      RoutedPart(b);
      assert b[..10] + b[10..15] == b[..15];
    } else {
      assert b[..10] + [] == b[..10];
    }
  }

  lemma Cut(b: seq<byte>, n: nat, m: nat)
    requires 0 < n && n + m <= |b|
    ensures b == b[..n - 1] + [b[n - 1]] + b[n..n + m] + b[n + m..]
  {
  }

  lemma ParsedHeader(b: seq<byte>, p: Packet)
    requires Parses(b, p)
    ensures HeaderEncodes(p) && EncodedHeader(p) == b[..p.hl - 1]
    ensures p.rte == "0" ==> p.pra == 0 && p.rca == 0 && p.ttl == 0
    ensures p.errorCode == PC_OK && 0 < p.hl && b[p.hl - 1] == p.hcs
  {
    HeaderWrittenBack(b, p);
  }

  lemma ParsedData(b: seq<byte>, p: Packet)
    requires Parses(b, p)
    ensures CanonicalFrame(p.pt, p.sfrd) && b[p.hl + p.fdl..] == Trailer(BodyOf(p.hl, p.fdl, b))
  {
    hide Header, DecodeFrame, Crc.Crc8, Crc.Crc16, Bits8, U16, CanonicalFrame, EncodeFrame, ExactFrame, Trailer;
    FrameWrittenBack(p.pt, BodyOf(p.hl, p.fdl, b));
    TrailerWrittenBack(b, p.hl, p.fdl);
  }

  /** A parsed packet cut into its parts. */
  lemma ParsedParts(b: seq<byte>, p: Packet)
    requires Parses(b, p)
    ensures HeaderEncodes(p) && EncodedHeader(p) == b[..p.hl - 1] && Canonical(p)
    ensures var body := BodyOf(p.hl, p.fdl, b);
            b == EncodedHeader(p) + [p.hcs] + body + Trailer(body)
  {
    ParsedHeader(b, p);
    ParsedData(b, p);
    Cut(b, p.hl, p.fdl);
  }

  /** The checksum after the data. */
  function Trailer(body: seq<byte>): seq<byte> {
    if body == [] then [] else Le16(Crc.Crc16(body))
  }

  lemma TrailerWrittenBack(b: seq<byte>, hl: nat, fdl: nat)
    requires |b| == PacketLength(hl, fdl)
    requires fdl > 0 ==> U16(b[|b| - 2..]) == Crc.Crc16(BodyOf(hl, fdl, b))
    ensures b[hl + fdl..] == Trailer(BodyOf(hl, fdl, b))
  {
    if fdl > 0 {
      U16Inverse(b[|b| - 2..]);
    }
  }

  /** Every accepted packet is canonical; it is written back octet for octet exactly when none of
      its subrecords lost anything. */
  lemma EncodeDecode(b: seq<byte>, p: Packet)
    requires ReadPacket(b) == Accepted(p)
    ensures Canonical(p) && Parses(b, p) && (Encode(p) == Ok(b) <==> Exact(b, p))
  {
    AcceptedExactlyWhenParses(b, p);
    WrittenBack(b, p);
  }

  lemma WrittenBack(b: seq<byte>, p: Packet)
    requires Parses(b, p)
    ensures Canonical(p) && (Encode(p) == Ok(b) <==> Exact(b, p))
  {
    ParsedParts(b, p);
    var body := BodyOf(p.hl, p.fdl, b);
    FrameWrittenBack(p.pt, body);
    EncodesWhenDataDoes(p, body);
  }

  /** With the header in place, the packet is right exactly when its data is. */
  lemma EncodesWhenDataDoes(p: Packet, body: seq<byte>)
    requires HeaderEncodes(p) && p.fdl == |body| && PacketLength(p.hl, p.fdl) <= 65535
    ensures var h := EncodedHeader(p);
            Encode(p) == Ok(h + [Crc.Crc8(h)] + body + Trailer(body)) <==> EncodeFrame(p.pt, p.sfrd) == Ok(body)
  {
    var h := EncodedHeader(p);
    if EncodeFrame(p.pt, p.sfrd).Ok? && |EncodeFrame(p.pt, p.sfrd).value| == |body| {
      SameData(h + [Crc.Crc8(h)], EncodeFrame(p.pt, p.sfrd).value, body);
    }
  }

  lemma SameData(head: seq<byte>, x: seq<byte>, y: seq<byte>)
    requires |x| == |y|
    ensures head + x + Trailer(x) == head + y + Trailer(y) <==> x == y
  {
    SplitSame(head + x, Trailer(x), head + y, Trailer(y));
    SplitSame(head, x, head, y);
  }
}
