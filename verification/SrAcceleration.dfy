/** EGTS_SR_ACCEL_DATA (egts/subrecord/sr_acceleration_data.go): a counted list of fixed structures. */
module SrAcceleration {
  import opened Bytes

  type int16 = x: int | -0x8000 <= x < 0x8000

  datatype Sample = Sample(rtm: uint16, x: int16, y: int16, z: int16)

  /** atm counts whole seconds from the start of 2010. */
  datatype Acceleration = Acceleration(sa: byte, atm: uint32, ads: seq<Sample>)

  function Signed(u: uint16): int16 {
    if u >= 0x8000 then u - 0x1_0000 else u
  }

  function Unsigned(s: int16): uint16 {
    if s < 0 then s + 0x1_0000 else s
  }

  function DecodeSample(b: seq<byte>): Sample
    requires |b| == 8
  {
    Sample(U16(b[..2]), Signed(U16(b[2..4])), Signed(U16(b[4..6])), Signed(U16(b[6..])))
  }

  function EncodeSample(s: Sample): (b: seq<byte>)
    ensures |b| == 8
  {
    Le16(s.rtm) + Le16(Unsigned(s.x)) + Le16(Unsigned(s.y)) + Le16(Unsigned(s.z))
  }

  function DecodeSamples(n: nat, b: seq<byte>): (s: seq<Sample>)
    requires |b| == 8 * n
    ensures |s| == n
  {
    if n == 0 then [] else DecodeSamples(n - 1, b[..8 * (n - 1)]) + [DecodeSample(b[8 * (n - 1)..])]
  }

  function EncodeSamples(s: seq<Sample>): (b: seq<byte>)
    ensures |b| == 8 * |s|
  {
    if s == [] then [] else EncodeSamples(s[..|s| - 1]) + EncodeSample(s[|s| - 1])
  }

  function Decode(b: seq<byte>): Result<Acceleration> {
    if |b| < 1 || b[0] == 0 || |b| < 5 then Err
    else
      var sa: int := b[0];
      if |b| - 5 != 8 * sa then Err
      else Ok(Acceleration(b[0], U32(b[1..5]), DecodeSamples(sa, b[5..])))
  }

  function Encode(t: Acceleration): Result<seq<byte>> {
    if t.sa == 0 || t.sa != |t.ads| then Err
    else Ok([t.sa] + Le32(t.atm) + EncodeSamples(t.ads))
  }

  /** The list loop of Decode: one structure of eight octets a round, appended in order. */
  method ReadSamples(n: byte, b: seq<byte>) returns (ads: seq<Sample>)
    requires |b| == 8 * n
    ensures ads == DecodeSamples(n, b)
  {
    ads := [];
    var buffer := b;
    for i := 0 to n
      invariant buffer == b[8 * i..]
      invariant ads == DecodeSamples(i, b[..8 * i])
    {
      var bb := buffer[..8];
      buffer := buffer[8..];
      assert b[..8 * (i + 1)][..8 * i] == b[..8 * i] && b[..8 * (i + 1)][8 * i..] == bb;
      ads := ads + [DecodeSample(bb)];
    }
    assert b[..8 * n] == b;
  }

  lemma SampleInverse(s: Sample, b: seq<byte>)
    requires |b| == 8
    ensures DecodeSample(EncodeSample(s)) == s && EncodeSample(DecodeSample(b)) == b
  {
    var e := EncodeSample(s);
    assert e[..2] == Le16(s.rtm) && e[2..4] == Le16(Unsigned(s.x)) && e[4..6] == Le16(Unsigned(s.y)) && e[6..] == Le16(Unsigned(s.z));
    Le16Inverse(s.rtm);
    Le16Inverse(Unsigned(s.x));
    Le16Inverse(Unsigned(s.y));
    Le16Inverse(Unsigned(s.z));
    U16Inverse(b[..2]);
    U16Inverse(b[2..4]);
    U16Inverse(b[4..6]);
    U16Inverse(b[6..]);
    assert b[..2] + b[2..4] + b[4..6] + b[6..] == b;
  }

  lemma {:induction false} SamplesReadBack(s: seq<Sample>)
    ensures DecodeSamples(|s|, EncodeSamples(s)) == s
    decreases |s|
  {
    if s != [] {
      var n := |s| - 1;
      var e := EncodeSamples(s);
      assert e[..8 * n] == EncodeSamples(s[..n]) && e[8 * n..] == EncodeSample(s[n]);
      SamplesReadBack(s[..n]);
      SampleInverse(s[n], e[8 * n..]);
    }
  }

  lemma {:induction false} SamplesWrittenBack(n: nat, b: seq<byte>)
    requires |b| == 8 * n
    ensures EncodeSamples(DecodeSamples(n, b)) == b
  {
    if n > 0 {
      var m := n - 1;
      var s := DecodeSamples(n, b);
      assert s[..m] == DecodeSamples(m, b[..8 * m]);
      SamplesWrittenBack(m, b[..8 * m]);
      SampleInverse(s[m], b[8 * m..]);
      assert b[..8 * m] + b[8 * m..] == b;
    }
  }

  /** Everything Encode accepts is read back. */
  lemma DecodeEncode(t: Acceleration)
    requires Encode(t).Ok?
    ensures Decode(Encode(t).value) == Ok(t)
  {
    var e := Encode(t).value;
    assert e[1..5] == Le32(t.atm) && e[5..] == EncodeSamples(t.ads);
    Le32Inverse(t.atm);
    SamplesReadBack(t.ads);
  }

  /** Everything Decode accepts is written back octet for octet. */
  lemma EncodeDecode(b: seq<byte>)
    requires Decode(b).Ok?
    ensures Encode(Decode(b).value) == Ok(b)
  {
    U32Inverse(b[1..5]);
    SamplesWrittenBack(b[0], b[5..]);
    assert [b[0]] + b[1..5] + b[5..] == b;
  }
}
