/** EGTS_SR_LIQUID_LEVEL_SENSOR (egts/subrecord/sr_liquid_lever_sensor.go). */
module SrLiquidLevel {
  import opened Bytes
  import opened Registers
  import opened Flags

  /** llsd is the numeric reading (rdf "0"), raw the uninterpreted one (rdf "1"). */
  datatype LiquidLevel = LiquidLevel(llsn: byte, rdf: string, llsvu: string, llsef: string, maddr: uint16, llsd: uint32, raw: seq<byte>)

  function Decode(b: seq<byte>): Result<LiquidLevel> {
    if |b| < 3 then Err
    else
      var f := Bits8(b[0]);
      var rest := b[3..];
      var llsn := ParseBits(f[5..]);
      if !llsn.Value? then Err
      else if f[4] == '1' then
        if |rest| < 4 || |rest| > 512 then Err
        else Ok(LiquidLevel(llsn.v, [f[4]], [f[2], f[3]], [f[1]], U16(b[1..3]), 0, rest))
      else if |rest| != 4 then Err
      else Ok(LiquidLevel(llsn.v, [f[4]], [f[2], f[3]], [f[1]], U16(b[1..3]), U32(rest), []))
  }

  /** Sprintf("%03b") of a number below eight. */
  function Bits3(n: byte): (s: string)
    ensures |s| == 3
  {
    var r := OfNumber(n, 3);
    [Digit(r[0]), Digit(r[1]), Digit(r[2])]
  }

  function FlagByte(t: LiquidLevel): Parsed {
    ParseBits("0" + t.llsef + t.llsvu + t.rdf + Bits3(t.llsn))
  }

  function Encode(t: LiquidLevel): Result<seq<byte>> {
    if t.llsn > 7 || !IsFlag(t.rdf) || !IsFlag(t.llsef) || |t.llsvu| != 2 then Err
    else if t.rdf == "1" && (|t.raw| < 4 || |t.raw| > 512) then Err
    else if !FlagByte(t).Value? then Err
    else Ok([FlagByte(t).v] + Le16(t.maddr) + (if t.rdf == "1" then t.raw else Le32(t.llsd)))
  }

  predicate Canonical(t: LiquidLevel) {
    && t.llsn <= 7 && IsFlag(t.rdf) && IsFlag(t.llsef) && |t.llsvu| == 2 && IsBits(t.llsvu)
    && (if t.rdf == "1" then t.llsd == 0 && 4 <= |t.raw| <= 512 else t.raw == [])
  }

  /** The reserved top bit, which Decode drops, is clear. */
  predicate Exact(b: seq<byte>) {
    b != [] && Bits8(b[0])[0] == '0'
  }

  lemma Bits3Inverse(s: string, n: byte)
    requires |s| == 3 && IsBits(s)
    ensures ParseBits(s).Value? && ParseBits(s).v <= 7 && Bits3(ParseBits(s).v) == s
    ensures n <= 7 ==> IsBits(Bits3(n)) && ParseBits(Bits3(n)) == Value(n)
  {
    ParseShort(s);
    NumberInverse(Bools(s));
    NumberBound(Bools(s));
    assert Power2(3) == 8;
    assert Bits3(ParseBits(s).v) == s;
    ParseShort(Bits3(n));
    assert Bools(Bits3(n)) == OfNumber(n, 3);
    if n <= 7 {
      OfNumberInverse(n, 3);
    }
  }

  lemma FlagsJoined(t: LiquidLevel)
    requires Canonical(t)
    ensures var n := Bits3(t.llsn);
            FlagByte(t).Value?
            && Bits8(FlagByte(t).v) == ['0', t.llsef[0], t.llsvu[0], t.llsvu[1], t.rdf[0], n[0], n[1], n[2]]
  {
    var n := Bits3(t.llsn);
    var s := "0" + t.llsef + t.llsvu + t.rdf + n;
    assert s == ['0', t.llsef[0], t.llsvu[0], t.llsvu[1], t.rdf[0], n[0], n[1], n[2]];
    ParsedPrints(s);
  }

  lemma DecodeEncode(t: LiquidLevel)
    requires Canonical(t)
    ensures Encode(t).Ok? && Decode(Encode(t).value) == Ok(t)
  {
    FlagsJoined(t);
    var e := Encode(t).value;
    var f := Bits8(e[0]);
    assert f[5..] == Bits3(t.llsn);
    Bits3Inverse(Bits3(t.llsn), t.llsn);
    assert [f[1]] == t.llsef && [f[2], f[3]] == t.llsvu && [f[4]] == t.rdf;
    assert e[1..3] == Le16(t.maddr);
    assert e[3..] == if t.rdf == "1" then t.raw else Le32(t.llsd);
    Le16Inverse(t.maddr);
    Le32Inverse(t.llsd);
  }

  lemma SameOctet(x: byte, y: byte)
    requires Bits8(x) == ['0'] + Bits8(y)[1..]
    ensures x == y <==> Bits8(y)[0] == '0'
  {
    Bits8Parses(x);
    Bits8Parses(y);
    if Bits8(y)[0] == '0' {
      assert Bits8(x) == Bits8(y);
    }
  }

  /** What Decode fills is canonical and keeps every octet but the first. */
  lemma DecodedParts(b: seq<byte>)
    requires Decode(b).Ok?
    ensures var t := Decode(b).value;
            Canonical(t) && Le16(t.maddr) == b[1..3] && (if t.rdf == "1" then t.raw else Le32(t.llsd)) == b[3..]
            && Bits3(t.llsn) == Bits8(b[0])[5..]
  {
    Bits3Inverse(Bits8(b[0])[5..], 0);
    U16Inverse(b[1..3]);
    if Bits8(b[0])[4] == '0' {
      U32Inverse(b[3..]);
    }
  }

  lemma ClearTop(f: string, n: string)
    requires |f| == 8 && |n| == 3 && f[5..] == n
    ensures ['0', f[1], f[2], f[3], f[4], n[0], n[1], n[2]] == ['0'] + f[1..]
  {
    assert n[0] == f[5] && n[1] == f[6] && n[2] == f[7];
  }

  lemma DecodedFlags(b: seq<byte>)
    requires Decode(b).Ok?
    ensures var t := Decode(b).value; FlagByte(t).Value? && Bits8(FlagByte(t).v) == ['0'] + Bits8(b[0])[1..]
  {
    DecodedParts(b);
    FlagsJoined(Decode(b).value);
    ClearTop(Bits8(b[0]), Bits3(Decode(b).value.llsn));
  }

  lemma EncodeDecode(b: seq<byte>)
    requires Decode(b).Ok?
    ensures var t := Decode(b).value;
            Canonical(t) && Encode(t).Ok? && |Encode(t).value| == |b| && (Encode(t) == Ok(b) <==> Exact(b))
  {
    var t := Decode(b).value;
    DecodedParts(b);
    DecodedFlags(b);
    var fl := FlagByte(t).v;
    assert [fl] + b[1..3] + b[3..] == [fl] + b[1..];
    HeadDecides(fl, b[0], b[1..], b);
    SameOctet(fl, b[0]);
  }
}
