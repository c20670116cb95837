/** EGTS_SR_EXT_POS_DATA (egts/subrecord/sr_ex_pos_data_record.go). */
module SrExtPosData {
  import opened Bytes
  import opened Flags
  import opened Fields

  datatype ExtPosData = ExtPosData(
    vdopE: string, hdopE: string, pdopE: string, satE: string, nsE: string,
    vdop: uint16, hdop: uint16, pdop: uint16, sat: byte, ns: uint16)

  function Slots(v: string, h: string, p: string, sat: string, ns: string): (s: seq<Slot>)
    ensures |s| == 5
  {
    [Slot(v, 2), Slot(h, 2), Slot(p, 2), Slot(sat, 1), Slot(ns, 2)]
  }

  function FlagSlots(f: string): (s: seq<Slot>)
    requires |f| == 8
    ensures |s| == 5
  {
    Slots([f[7]], [f[6]], [f[5]], [f[4]], [f[3]])
  }

  function Build(f: string, v: seq<seq<byte>>): ExtPosData
    requires |f| == 8 && |v| == 5
  {
    ExtPosData([f[7]], [f[6]], [f[5]], [f[4]], [f[3]],
               U16OrZero(v[0]), U16OrZero(v[1]), U16OrZero(v[2]), if |v[3]| == 1 then v[3][0] else 0, U16OrZero(v[4]))
  }

  function Decode(b: seq<byte>): Result<ExtPosData> {
    if |b| < 1 then Err
    else
      var f := Bits8(b[0]);
      var p :- ReadAll(FlagSlots(f), b[1..]);
      if p.tail != [] then Err else Ok(Build(f, p.values))
  }

  function SlotsOf(t: ExtPosData): (s: seq<Slot>)
    ensures |s| == 5
  {
    Slots(t.vdopE, t.hdopE, t.pdopE, t.satE, t.nsE)
  }

  function Values(t: ExtPosData): (v: seq<seq<byte>>)
    ensures |v| == 5
  {
    [Le16(t.vdop), Le16(t.hdop), Le16(t.pdop), [t.sat], Le16(t.ns)]
  }

  function FlagByte(t: ExtPosData): Flags.Parsed {
    ParseBits(Join("0", "0", "0", t.nsE, t.satE, t.pdopE, t.hdopE, t.vdopE))
  }

  function Encode(t: ExtPosData): Result<seq<byte>> {
    if FlagByte(t).Value? then Ok([FlagByte(t).v] + WriteAll(SlotsOf(t), Values(t))) else Err
  }

  predicate Canonical(t: ExtPosData) {
    && IsFlag(t.vdopE) && IsFlag(t.hdopE) && IsFlag(t.pdopE) && IsFlag(t.satE) && IsFlag(t.nsE)
    && (t.vdopE == "0" ==> t.vdop == 0) && (t.hdopE == "0" ==> t.hdop == 0) && (t.pdopE == "0" ==> t.pdop == 0)
    && (t.satE == "0" ==> t.sat == 0) && (t.nsE == "0" ==> t.ns == 0)
  }

  /** The three reserved bits, which Decode drops, are clear. */
  predicate Exact(b: seq<byte>) {
    b != [] && var f := Bits8(b[0]); f[0] == '0' && f[1] == '0' && f[2] == '0'
  }

  function Opt16(flag: string, x: uint16): seq<byte> {
    if flag == "1" then Le16(x) else []
  }

  function Present(t: ExtPosData): (v: seq<seq<byte>>)
    ensures |v| == 5
  {
    [Opt16(t.vdopE, t.vdop), Opt16(t.hdopE, t.hdop), Opt16(t.pdopE, t.pdop),
     if t.satE == "1" then [t.sat] else [], Opt16(t.nsE, t.ns)]
  }

  lemma WritesPresent(t: ExtPosData)
    ensures WriteAll(SlotsOf(t), Values(t)) == WriteAll(SlotsOf(t), Present(t))
  {
    WriteDropsAbsent(SlotsOf(t), Values(t), Present(t));
  }

  lemma BuildCanonical(f: string, v: seq<seq<byte>>)
    requires |f| == 8 && IsBits(f) && |v| == 5 && Fit(FlagSlots(f), v)
    ensures var t := Build(f, v); Canonical(t) && SlotsOf(t) == FlagSlots(f) && Present(t) == v
  {
    var s := FlagSlots(f);
    OptionalField(s[0].flag, v[0]);
    OptionalField(s[1].flag, v[1]);
    OptionalField(s[2].flag, v[2]);
    OptionalField(s[4].flag, v[4]);
    assert |v[3]| == if s[3].flag == "1" then 1 else 0;
    assert |v[3]| == 1 ==> v[3] == [v[3][0]];
    assert v == [v[0], v[1], v[2], v[3], v[4]];
  }

  lemma PresentFits(t: ExtPosData)
    ensures Fit(SlotsOf(t), Present(t))
  {
  }

  lemma BuiltFromParts(t: ExtPosData, f: string)
    requires Canonical(t)
    requires f == ['0', '0', '0', t.nsE[0], t.satE[0], t.pdopE[0], t.hdopE[0], t.vdopE[0]]
    ensures FlagSlots(f) == SlotsOf(t) && Build(f, Present(t)) == t
  {
    OptionalU16(t.vdopE, t.vdop);
    OptionalU16(t.hdopE, t.hdop);
    OptionalU16(t.pdopE, t.pdop);
    OptionalU16(t.nsE, t.ns);
    assert [f[3]] == t.nsE && [f[4]] == t.satE && [f[5]] == t.pdopE && [f[6]] == t.hdopE && [f[7]] == t.vdopE;
  }

  lemma DecodeEncode(t: ExtPosData)
    requires Canonical(t)
    ensures Encode(t).Ok? && Decode(Encode(t).value) == Ok(t)
  {
    FlagsReadBack("0", "0", "0", t.nsE, t.satE, t.pdopE, t.hdopE, t.vdopE);
    var fl := FlagByte(t).v;
    BuiltFromParts(t, Bits8(fl));
    PresentFits(t);
    WritesPresent(t);
    var w := WriteAll(SlotsOf(t), Present(t));
    ReadWhole(SlotsOf(t), Present(t));
    assert ([fl] + w)[1..] == w;
  }

  lemma BuiltFlagByte(f: string, v: seq<seq<byte>>)
    requires |f| == 8 && IsBits(f) && |v| == 5
    ensures FlagByte(Build(f, v)).Value?
    ensures Bits8(FlagByte(Build(f, v)).v) == ['0', '0', '0', f[3], f[4], f[5], f[6], f[7]]
  {
    FlagsReadBack("0", "0", "0", [f[3]], [f[4]], [f[5]], [f[6]], [f[7]]);
  }

  /** The octet whose reserved bits have been cleared is the same octet when they were clear. */
  lemma SameOctet(x: byte, y: byte)
    requires var f := Bits8(y); Bits8(x) == ['0', '0', '0', f[3], f[4], f[5], f[6], f[7]]
    ensures x == y <==> var f := Bits8(y); f[0] == '0' && f[1] == '0' && f[2] == '0'
  {
    Bits8Parses(x);
    Bits8Parses(y);
    var f := Bits8(y);
    if f[0] == '0' && f[1] == '0' && f[2] == '0' {
      assert Bits8(x) == f;
    }
  }

  /** Decode accepts only canonical data; it is written back octet for octet exactly when the
      reserved bits were clear, and with the same length in any case. */
  lemma EncodeDecode(b: seq<byte>)
    requires Decode(b).Ok?
    ensures var t := Decode(b).value;
            Canonical(t) && Encode(t).Ok? && |Encode(t).value| == |b| && (Encode(t) == Ok(b) <==> Exact(b))
  {
    var slots := FlagSlots(Bits8(b[0]));
    var v := ReadAll(slots, b[1..]).value.values;
    var t := Build(Bits8(b[0]), v);
    assert Decode(b) == Ok(t);
    WriteWhole(slots, b[1..]);
    BuildCanonical(Bits8(b[0]), v);
    WritesPresent(t);
    BuiltFlagByte(Bits8(b[0]), v);
    SameOctet(FlagByte(t).v, b[0]);
    HeadDecides(FlagByte(t).v, b[0], b[1..], b);
  }
}
