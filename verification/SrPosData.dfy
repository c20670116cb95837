/** EGTS_SR_POS_DATA (egts/subrecord/sr_pos_data.go). A latitude or longitude is the number on the
    wire, which fixes the degrees that Decode keeps; Encode writes what those degrees come back to. */
module SrPosData {
  import opened Bytes
  import opened Flags
  import Coordinates

  type bit = x: int | 0 <= x < 2
  /** Speed as Decode keeps it: the 14-bit tenths divided by ten. */
  type speed = x: int | 0 <= x <= 1638

  datatype PosData = PosData(
    ntm: uint32, lat: uint32, lon: uint32,
    alte: string, lohs: string, lahs: string, mv: string, bb: string, cs: string, fix: string, vld: string,
    spd: speed, alts: bit, dirh: bit, dir: byte, odm: seq<byte>, din: byte, src: byte, alt: seq<byte>)

  function Decode(b: seq<byte>): Result<PosData> {
    if |b| < 21 then Err
    else
      var f := Bits8(b[12]);
      var w: int := U16(b[13..15]);
      if f[0] == '1' && |b| < 24 then Err
      else Ok(PosData(U32(b[..4]), U32(b[4..8]), U32(b[8..12]),
                      [f[0]], [f[1]], [f[2]], [f[3]], [f[4]], [f[5]], [f[6]], [f[7]],
                      w % 0x4000 / 10, w / 0x4000 % 2, w / 0x8000, b[15], b[16..19], b[19], b[20],
                      if f[0] == '1' then b[21..24] else []))
  }

  function FlagByte(t: PosData): Parsed {
    ParseBits(Join(t.alte, t.lohs, t.lahs, t.mv, t.bb, t.cs, t.fix, t.vld))
  }

  /** Speed and the two bits stored above it. */
  function SpeedWord(t: PosData): uint16 {
    t.spd * 10 + 0x4000 * t.alts + 0x8000 * t.dirh
  }

  /** The number written for the degrees that x was decoded to. */
  function Kept(x: uint32, d: nat): (y: uint32)
    requires 0 < d <= 180
    ensures x - 1 <= y <= x
  {
    Coordinates.WrittenNear(x, d);
    Coordinates.Written(x, d)
  }

  /** The data as another party reads it after Encode. */
  function Written(t: PosData): PosData {
    t.(lat := Kept(t.lat, 90), lon := Kept(t.lon, 180))
  }

  function Encode(t: PosData): Result<seq<byte>> {
    if !FlagByte(t).Value? then Err
    else Ok(Le32(t.ntm) + Le32(Kept(t.lat, 90)) + Le32(Kept(t.lon, 180)) + [FlagByte(t).v] + Le16(SpeedWord(t)) + [t.dir] + t.odm
            + [t.din, t.src] + (if t.alte == "1" then t.alt else []))
  }

  predicate Canonical(t: PosData) {
    && IsFlag(t.alte) && IsFlag(t.lohs) && IsFlag(t.lahs) && IsFlag(t.mv)
    && IsFlag(t.bb) && IsFlag(t.cs) && IsFlag(t.fix) && IsFlag(t.vld)
    && |t.odm| == 3 && |t.alt| == if t.alte == "1" then 3 else 0
  }

  /** Nothing is lost: coordinates that survive the way through degrees, a speed of whole units and
      no octets after the last field. */
  predicate Exact(b: seq<byte>) {
    |b| >= 21 && Kept(U32(b[4..8]), 90) == U32(b[4..8]) && Kept(U32(b[8..12]), 180) == U32(b[8..12])
    && U16(b[13..15]) % 0x4000 % 10 == 0 && |b| == if Bits8(b[12])[0] == '1' then 24 else 21
  }

  lemma Layout(h: seq<byte>, fl: byte, w: seq<byte>, dir: byte, odm: seq<byte>, din: byte, src: byte, alt: seq<byte>)
    requires |h| == 12 && |w| == 2 && |odm| == 3
    ensures var e := h + [fl] + w + [dir] + odm + [din, src] + alt;
            e[..12] == h && e[12] == fl && e[13..15] == w && e[15] == dir && e[16..19] == odm
            && e[19] == din && e[20] == src && e[21..] == alt
  {
  }

  lemma Head(a: seq<byte>, b: seq<byte>, c: seq<byte>, e: seq<byte>)
    requires |a| == |b| == |c| == 4 && |e| >= 12 && e[..12] == a + b + c
    ensures e[..4] == a && e[4..8] == b && e[8..12] == c
  {
    var h := e[..12];
    assert h[..4] == a && h[4..8] == b && h[8..12] == c;
  }

  lemma SpeedWordParts(t: PosData)
    ensures var w: int := SpeedWord(t);
            w % 0x4000 / 10 == t.spd && w / 0x4000 % 2 == t.alts && w / 0x8000 == t.dirh
  {
    var w: int := SpeedWord(t);
    var low := t.spd * 10;
    assert w == low + 0x4000 * (t.alts + 2 * t.dirh);
    assert w / 0x4000 == t.alts + 2 * t.dirh && w % 0x4000 == low;
  }

  /** The octets Encode writes, cut where Decode cuts them. */
  lemma Encoded(t: PosData)
    requires Canonical(t) && FlagByte(t).Value?
    ensures var e := Encode(t).value; var w := Written(t);
            |e| == 21 + |t.alt| && e[..4] == Le32(t.ntm) && e[4..8] == Le32(w.lat) && e[8..12] == Le32(w.lon)
            && e[12] == FlagByte(t).v && e[13..15] == Le16(SpeedWord(t)) && e[15] == t.dir && e[16..19] == t.odm
            && e[19] == t.din && e[20] == t.src && e[21..] == t.alt
  {
    var e := Encode(t).value;
    var w := Written(t);
    Layout(Le32(t.ntm) + Le32(w.lat) + Le32(w.lon), FlagByte(t).v, Le16(SpeedWord(t)), t.dir, t.odm, t.din, t.src, t.alt);
    Head(Le32(t.ntm), Le32(w.lat), Le32(w.lon), e);
  }

  /** What is written is read back, but for what the degrees did to the coordinates. */
  lemma DecodeEncode(t: PosData)
    requires Canonical(t)
    ensures Encode(t).Ok? && Decode(Encode(t).value) == Ok(Written(t))
  {
    FlagsReadBack(t.alte, t.lohs, t.lahs, t.mv, t.bb, t.cs, t.fix, t.vld);
    var e := Encode(t).value;
    Encoded(t);
    Le32Inverse(t.ntm);
    Le32Inverse(Kept(t.lat, 90));
    Le32Inverse(Kept(t.lon, 180));
    Le16Inverse(SpeedWord(t));
    SpeedWordParts(t);
    var f := Bits8(e[12]);
    assert [f[0]] == t.alte && [f[1]] == t.lohs && [f[2]] == t.lahs && [f[3]] == t.mv;
    assert [f[4]] == t.bb && [f[5]] == t.cs && [f[6]] == t.fix && [f[7]] == t.vld;
    assert f[0] == '1' ==> e[21..24] == e[21..];
  }

  lemma SpeedWordOf(w: uint16)
    ensures w % 0x4000 / 10 * 10 + 0x4000 * (w / 0x4000 % 2) + 0x8000 * (w / 0x8000) == w - w % 0x4000 % 10
  {
    assert w == 0x4000 * (w / 0x4000) + w % 0x4000;
    assert w / 0x4000 == 2 * (w / 0x8000) + w / 0x4000 % 2;
  }

  /** Decode accepts only canonical data, and it is written back octet for octet exactly when the
      octets were exact. */
  lemma EncodeDecode(b: seq<byte>)
    requires Decode(b).Ok?
    ensures var t := Decode(b).value;
            Canonical(t) && Encode(t).Ok? && (Encode(t) == Ok(b) <==> Exact(b))
  {
    var t := Decode(b).value;
    var w: uint16 := U16(b[13..15]);
    SpeedWordOf(w);
    U32Inverse(b[..4]);
    U16Inverse(b[13..15]);
    Le16Inverse(SpeedWord(t));
    FlagsWrittenBack(b[12]);
    var e := Encode(t).value;
    var alt := if t.alte == "1" then t.alt else [];
    var lat, lon := Le32(Kept(t.lat, 90)), Le32(Kept(t.lon, 180));
    var h := b[..4] + lat + lon;
    Layout(h, b[12], Le16(SpeedWord(t)), b[15], b[16..19], b[19], b[20], alt);
    assert e == h + [b[12]] + Le16(SpeedWord(t)) + [b[15]] + b[16..19] + [b[19], b[20]] + alt;
    assert |e| == 21 + |alt|;
    Coordinate(t.lat, 90, b[4..8]);
    Coordinate(t.lon, 180, b[8..12]);
    assert e[4..8] == lat && e[8..12] == lon by {
      Head(b[..4], lat, lon, e);
    }
    if Exact(b) {
      assert b[..4] + b[4..8] + b[8..12] == b[..12];
      assert b[21..] == alt;
      assert b == b[..12] + [b[12]] + b[13..15] + [b[15]] + b[16..19] + [b[19], b[20]] + b[21..];
    } else if w % 0x4000 % 10 != 0 {
      assert e[13..15] != b[13..15];
    }
  }

  lemma Coordinate(x: uint32, d: nat, b: seq<byte>)
    requires |b| == 4 && x == U32(b) && 0 < d <= 180
    ensures Le32(Kept(x, d)) == b <==> Kept(x, d) == x
  {
    U32Inverse(b);
    Le32Inverse(Kept(x, d));
  }

  /** Accepted data with the coordinate 186415 in either place is never written back as it was. */
  lemma SomePositionsSlip(b: seq<byte>)
    requires Decode(b).Ok? && (U32(b[4..8]) == Coordinates.SLIPS || U32(b[8..12]) == Coordinates.SLIPS)
    ensures !Exact(b) && Encode(Decode(b).value) != Ok(b)
  {
    Coordinates.SomeAreOneLess();
    hide Encode, Decode;
    EncodeDecode(b);
  }
}
