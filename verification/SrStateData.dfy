/** EGTS_SR_STATE_DATA (egts/subrecord/sr_state_data.go); the voltages are kept in their octets. */
module SrStateData {
  import opened Bytes
  import opened Flags

  datatype StateData = StateData(st: byte, mpsv: byte, bbv: byte, ibv: byte, nms: string, ibu: string, bbu: string)

  function Decode(b: seq<byte>): Result<StateData> {
    if |b| != 5 || b[0] >= 8 then Err
    else
      var f := Bits8(b[4]);
      Ok(StateData(b[0], b[1], b[2], b[3], [f[5]], [f[6]], [f[7]]))
  }

  function FlagByte(t: StateData): Parsed {
    ParseBits(Join("0", "0", "0", "0", "0", t.nms, t.ibu, t.bbu))
  }

  function Encode(t: StateData): Result<seq<byte>> {
    if t.st >= 8 || !IsFlag(t.nms) || !IsFlag(t.ibu) || !IsFlag(t.bbu) || !FlagByte(t).Value? then Err
    else Ok([t.st, t.mpsv, t.bbv, t.ibv, FlagByte(t).v])
  }

  predicate Canonical(t: StateData) {
    t.st < 8 && IsFlag(t.nms) && IsFlag(t.ibu) && IsFlag(t.bbu)
  }

  /** The five reserved bits, which Decode drops, are clear. */
  predicate Exact(b: seq<byte>) {
    |b| == 5 && var f := Bits8(b[4]); f[0] == '0' && f[1] == '0' && f[2] == '0' && f[3] == '0' && f[4] == '0'
  }

  lemma DecodeEncode(t: StateData)
    requires Canonical(t)
    ensures Encode(t).Ok? && Decode(Encode(t).value) == Ok(t)
  {
    FlagsReadBack("0", "0", "0", "0", "0", t.nms, t.ibu, t.bbu);
    var f := Bits8(FlagByte(t).v);
    assert [f[5]] == t.nms && [f[6]] == t.ibu && [f[7]] == t.bbu;
  }

  lemma EncodeDecode(b: seq<byte>)
    requires Decode(b).Ok?
    ensures var t := Decode(b).value;
            Canonical(t) && Encode(t).Ok? && |Encode(t).value| == |b| && (Encode(t) == Ok(b) <==> Exact(b))
  {
    var f := Bits8(b[4]);
    var t := Decode(b).value;
    FlagsReadBack("0", "0", "0", "0", "0", [f[5]], [f[6]], [f[7]]);
    var fl := FlagByte(t).v;
    var e := Encode(t).value;
    assert b == [b[0], b[1], b[2], b[3], b[4]];
    if Exact(b) {
      FlagsWrittenBack(b[4]);
      assert fl == b[4];
    } else {
      assert Bits8(fl) != f;
      assert e[4] != b[4];
    }
  }
}
