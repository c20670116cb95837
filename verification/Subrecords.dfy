/** The subrecord types RecordsData.Decode knows (egts/packet/record_data.go, codes.go) and their
    common codec laws. */
module Subrecords {
  import opened Bytes
  import SrTermIdentity
  import SrAuthInfo
  import SrPosData
  import SrExtPosData
  import SrSensors
  import SrStateData
  import SrAcceleration
  import SrLiquidLevel

  const RECORD_RESPONSE: byte := 0
  const TERM_IDENTITY: byte := 1
  const AUTH_PARAMS: byte := 6
  const AUTH_INFO: byte := 7
  const RESULT_CODE: byte := 9
  const POS_DATA: byte := 16
  const EXT_POS_DATA: byte := 17
  const AD_SENSORS_DATA: byte := 18
  const COUNTERS_DATA: byte := 19
  const STATE_DATA: byte := 20
  const ACCEL_DATA: byte := 21
  const LIQUID_LEVEL_SENSOR: byte := 27

  datatype Subrecord =
    | RecordResponse(crn: uint16, status: byte)
    | Identity(id: SrTermIdentity.TermIdentity)
    | AuthParams(flg: byte)
    | Credentials(auth: SrAuthInfo.AuthInfo)
    | ResultCode(rcd: byte)
    | Position(pos: SrPosData.PosData)
    | ExtPosition(ext: SrExtPosData.ExtPosData)
    | Sensors(sensors: SrSensors.AdSensors)
    | CounterData(counters: SrSensors.Counters)
    | State(state: SrStateData.StateData)
    | Accel(accel: SrAcceleration.Acceleration)
    | Liquid(liquid: SrLiquidLevel.LiquidLevel)

  function TypeOf(s: Subrecord): byte {
    match s
    case RecordResponse(_, _) => RECORD_RESPONSE
    case Identity(_) => TERM_IDENTITY
    case AuthParams(_) => AUTH_PARAMS
    case Credentials(_) => AUTH_INFO
    case ResultCode(_) => RESULT_CODE
    case Position(_) => POS_DATA
    case ExtPosition(_) => EXT_POS_DATA
    case Sensors(_) => AD_SENSORS_DATA
    case CounterData(_) => COUNTERS_DATA
    case State(_) => STATE_DATA
    case Accel(_) => ACCEL_DATA
    case Liquid(_) => LIQUID_LEVEL_SENSOR
  }

  function Decode(srt: byte, b: seq<byte>): Result<Subrecord> {
    if srt == RECORD_RESPONSE then if |b| == 3 then Ok(RecordResponse(U16(b[..2]), b[2])) else Err
    else if srt == TERM_IDENTITY then (var v :- SrTermIdentity.Decode(b); Ok(Identity(v)))
    else if srt == AUTH_PARAMS then if b == [0] then Ok(AuthParams(0)) else Err
    else if srt == AUTH_INFO then (var v :- SrAuthInfo.Decode(b); Ok(Credentials(v)))
    else if srt == RESULT_CODE then if |b| == 1 then Ok(ResultCode(b[0])) else Err
    else if srt == POS_DATA then (var v :- SrPosData.Decode(b); Ok(Position(v)))
    else if srt == EXT_POS_DATA then (var v :- SrExtPosData.Decode(b); Ok(ExtPosition(v)))
    else if srt == AD_SENSORS_DATA then (var v :- SrSensors.DecodeSensors(b); Ok(Sensors(v)))
    else if srt == COUNTERS_DATA then (var v :- SrSensors.DecodeCounters(b); Ok(CounterData(v)))
    else if srt == STATE_DATA then (var v :- SrStateData.Decode(b); Ok(State(v)))
    else if srt == ACCEL_DATA then (var v :- SrAcceleration.Decode(b); Ok(Accel(v)))
    else if srt == LIQUID_LEVEL_SENSOR then (var v :- SrLiquidLevel.Decode(b); Ok(Liquid(v)))
    else Err
  }

  function Encode(s: Subrecord): Result<seq<byte>> {
    match s
    case RecordResponse(crn, status) => Ok(Le16(crn) + [status])
    case Identity(id) => SrTermIdentity.Encode(id)
    case AuthParams(flg) => if flg == 0 then Ok([0]) else Err
    case Credentials(auth) => SrAuthInfo.Encode(auth)
    case ResultCode(rcd) => Ok([rcd])
    case Position(pos) => SrPosData.Encode(pos)
    case ExtPosition(ext) => SrExtPosData.Encode(ext)
    case Sensors(sensors) => SrSensors.EncodeSensors(sensors)
    case CounterData(counters) => SrSensors.EncodeCounters(counters)
    case State(state) => SrStateData.Encode(state)
    case Accel(accel) => SrAcceleration.Encode(accel)
    case Liquid(liquid) => SrLiquidLevel.Encode(liquid)
  }

  /** The values Decode can return. */
  predicate Canonical(s: Subrecord) {
    match s
    case Identity(id) => SrTermIdentity.Canonical(id)
    case Position(pos) => SrPosData.Canonical(pos)
    case ExtPosition(ext) => SrExtPosData.Canonical(ext)
    case Sensors(sensors) => SrSensors.CanonicalSensors(sensors)
    case CounterData(counters) => SrSensors.CanonicalCounters(counters)
    case State(state) => SrStateData.Canonical(state)
    case Liquid(liquid) => SrLiquidLevel.Canonical(liquid)
    case _ => Encode(s).Ok?
  }

  /** Octets that Encode gives back. Only four subrecord types lose anything: POS_DATA the last digit
      of the speed, trailing octets and the coordinates that do not survive the way through degrees,
      the other three their reserved flag bits. */
  predicate Exact(srt: byte, b: seq<byte>) {
    if srt == POS_DATA then SrPosData.Exact(b)
    else if srt == EXT_POS_DATA then SrExtPosData.Exact(b)
    else if srt == STATE_DATA then SrStateData.Exact(b)
    else if srt == LIQUID_LEVEL_SENSOR then SrLiquidLevel.Exact(b)
    else true
  }

  /** The subrecord as another party reads it after Encode. */
  function Written(s: Subrecord): Subrecord {
    if s.Position? then Position(SrPosData.Written(s.pos)) else s
  }

  predicate ReadsBack(s: Subrecord) {
    Encode(s).Ok? && Decode(TypeOf(s), Encode(s).value) == Ok(Written(s))
  }

  lemma RecordResponseReadBack(s: Subrecord)
    requires s.RecordResponse? && Canonical(s)
    ensures ReadsBack(s)
  {
    assert (Le16(s.crn) + [s.status])[..2] == Le16(s.crn);
    Le16Inverse(s.crn);
  }

  lemma IdentityReadBack(s: Subrecord)
    requires s.Identity? && Canonical(s)
    ensures ReadsBack(s)
  {
    SrTermIdentity.DecodeEncode(s.id);
  }

  lemma CredentialsReadBack(s: Subrecord)
    requires s.Credentials? && Canonical(s)
    ensures ReadsBack(s)
  {
    SrAuthInfo.DecodeEncode(s.auth);
  }

  lemma PositionReadBack(s: Subrecord)
    requires s.Position? && Canonical(s)
    ensures ReadsBack(s)
  {
    SrPosData.DecodeEncode(s.pos);
  }

  lemma ExtPositionReadBack(s: Subrecord)
    requires s.ExtPosition? && Canonical(s)
    ensures ReadsBack(s)
  {
    SrExtPosData.DecodeEncode(s.ext);
  }

  lemma SensorsReadBack(s: Subrecord)
    requires s.Sensors? && Canonical(s)
    ensures ReadsBack(s)
  {
    SrSensors.DecodeEncodeSensors(s.sensors);
  }

  lemma CounterDataReadBack(s: Subrecord)
    requires s.CounterData? && Canonical(s)
    ensures ReadsBack(s)
  {
    SrSensors.DecodeEncodeCounters(s.counters);
  }

  lemma StateReadBack(s: Subrecord)
    requires s.State? && Canonical(s)
    ensures ReadsBack(s)
  {
    SrStateData.DecodeEncode(s.state);
  }

  lemma AccelReadBack(s: Subrecord)
    requires s.Accel? && Canonical(s)
    ensures ReadsBack(s)
  {
    SrAcceleration.DecodeEncode(s.accel);
  }

  lemma LiquidReadBack(s: Subrecord)
    requires s.Liquid? && Canonical(s)
    ensures ReadsBack(s)
  {
    SrLiquidLevel.DecodeEncode(s.liquid);
  }

  /** Canonical data is accepted by Encode and read back by Decode, but for coordinates that slip. */
  lemma DecodeEncode(s: Subrecord)
    requires Canonical(s)
    ensures ReadsBack(s)
  {
    match s
    case RecordResponse(_, _) => RecordResponseReadBack(s);
    case Identity(_) => IdentityReadBack(s);
    case Credentials(_) => CredentialsReadBack(s);
    case Position(_) => PositionReadBack(s);
    case ExtPosition(_) => ExtPositionReadBack(s);
    case Sensors(_) => SensorsReadBack(s);
    case CounterData(_) => CounterDataReadBack(s);
    case State(_) => StateReadBack(s);
    case Accel(_) => AccelReadBack(s);
    case Liquid(_) => LiquidReadBack(s);
    case AuthParams(_) =>
    case ResultCode(_) =>
  }

  /** Decode returns canonical data of its type, and Encode gives the octets back exactly when
      nothing was lost. */
  lemma EncodeDecode(srt: byte, b: seq<byte>)
    requires Decode(srt, b).Ok?
    ensures var s := Decode(srt, b).value;
            TypeOf(s) == srt && Canonical(s) && Encode(s).Ok? && (Encode(s) == Ok(b) <==> Exact(srt, b))
  {
    if srt == RECORD_RESPONSE {
      U16Inverse(b[..2]);
      assert b[..2] + [b[2]] == b;
    } else if srt == TERM_IDENTITY {
      SrTermIdentity.EncodeDecode(b);
    } else if srt == AUTH_INFO {
      SrAuthInfo.EncodeDecode(b);
    } else if srt == POS_DATA {
      SrPosData.EncodeDecode(b);
    } else if srt == EXT_POS_DATA {
      SrExtPosData.EncodeDecode(b);
    } else if srt == AD_SENSORS_DATA {
      SrSensors.EncodeDecodeSensors(b);
    } else if srt == COUNTERS_DATA {
      SrSensors.EncodeDecodeCounters(b);
    } else if srt == STATE_DATA {
      SrStateData.EncodeDecode(b);
    } else if srt == ACCEL_DATA {
      SrAcceleration.EncodeDecode(b);
    } else if srt == LIQUID_LEVEL_SENSOR {
      SrLiquidLevel.EncodeDecode(b);
    } else {
      assert b == [b[0]];
    }
  }
}
