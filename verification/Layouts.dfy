/** Which octets carry which field, and which octets are accepted, by octet numbers and bit weights
    (egts/packet, egts/subrecord). */
module Layouts {
  import opened Bytes
  import opened Registers
  import opened Flags
  import Fields
  import S = Subrecords
  import SrTermIdentity
  import SrPosData
  import SrExtPosData
  import SrSensors
  import SrStateData
  import SrAcceleration
  import SrLiquidLevel
  import SrAuthInfo
  import Records
  import Services
  import Packets
  import Crc

  // ---- numbers and flags ----

  /** The little-endian numbers at k. */
  function Word(b: seq<byte>, k: nat): int
    requires k + 2 <= |b|
  {
    var lo: int, hi: int := b[k], b[k + 1];
    lo + 0x100 * hi
  }

  function Triple(b: seq<byte>, k: nat): int
    requires k + 3 <= |b|
  {
    Word(b, k) + 0x1_0000 * (b[k + 2] as int)
  }

  function Long(b: seq<byte>, k: nat): int
    requires k + 4 <= |b|
  {
    Word(b, k) + 0x1_0000 * Word(b, k + 2)
  }

  /** The bit of that weight. */
  predicate On(x: byte, weight: nat)
    requires weight > 0
  {
    x / weight % 2 == 1
  }

  function Bit(x: byte, weight: nat): string
    requires weight > 0
  {
    if On(x, weight) then "1" else "0"
  }

  lemma BitsAre(x: byte)
    ensures var f := Bits8(x);
            && [f[0]] == Bit(x, 128) && [f[1]] == Bit(x, 64) && [f[2]] == Bit(x, 32) && [f[3]] == Bit(x, 16)
            && [f[4]] == Bit(x, 8) && [f[5]] == Bit(x, 4) && [f[6]] == Bit(x, 2) && [f[7]] == Bit(x, 1)
  {
    OctetIs(x);
    hide Octet;
  }

  lemma LongIs(b: seq<byte>, k: nat)
    requires k + 4 <= |b|
    ensures U32(b[k..k + 4]) == Long(b, k)
  {
    var c := b[k..k + 4];
    assert c[..2][0] == b[k] && c[..2][1] == b[k + 1] && c[2..][0] == b[k + 2] && c[2..][1] == b[k + 3];
  }

  // ---- fields that may be absent ----

  datatype Field = Field(there: bool, width: nat)

  /** The octets the first i fields take. */
  function Span(fs: seq<Field>, i: nat): nat
    requires i <= |fs|
  {
    if i == 0 then 0 else Span(fs, i - 1) + (if fs[i - 1].there then fs[i - 1].width else 0)
  }

  lemma {:induction false} SpanMonotone(fs: seq<Field>, i: nat, j: nat)
    requires i <= j <= |fs|
    ensures Span(fs, i) <= Span(fs, j)
    decreases j - i
  {
    if i < j {
      SpanMonotone(fs, i, j - 1);
    }
  }

  /** The octets of the i-th field of a run that begins at k. */
  function At(b: seq<byte>, k: nat, fs: seq<Field>, i: nat): seq<byte>
    requires i < |fs| && k + Span(fs, |fs|) <= |b|
  {
    SpanMonotone(fs, i + 1, |fs|);
    b[k + Span(fs, i)..k + Span(fs, i + 1)]
  }

  function Slots(fs: seq<Field>, flags: seq<string>): (s: seq<Fields.Slot>)
    requires |flags| == |fs|
    ensures |s| == |fs|
  {
    seq(|fs|, i requires 0 <= i < |fs| => Fields.Slot(flags[i], fs[i].width))
  }

  predicate Fit(fs: seq<Field>, slots: seq<Fields.Slot>) {
    |slots| == |fs| && forall i :: 0 <= i < |fs| ==> slots[i].n == fs[i].width && (fs[i].there <==> slots[i].flag == "1")
  }

  /** Reading a run of such fields. */
  lemma {:induction false} RunRead(b: seq<byte>, fs: seq<Field>, slots: seq<Fields.Slot>)
    requires Fit(fs, slots)
    ensures Fields.ReadAll(slots, b).Ok? <==> Span(fs, |fs|) <= |b|
    ensures Fields.ReadAll(slots, b).Ok? ==>
              var p := Fields.ReadAll(slots, b).value;
              p.tail == b[Span(fs, |fs|)..] && forall i :: 0 <= i < |fs| ==> p.values[i] == At(b, 0, fs, i)
    decreases |fs|
  {
    if fs != [] {
      var n := if fs[0].there then fs[0].width else 0;
      SpanShift(fs, |fs|);
      hide At, Span;
      if n <= |b| {
        RunRead(b[n..], fs[1..], slots[1..]);
        if Span(fs, |fs|) <= |b| {
          var rest := Fields.ReadAll(slots[1..], b[n..]).value;
          FirstOfRun(b, fs, n);
          assert b[n..][Span(fs[1..], |fs| - 1)..] == b[Span(fs, |fs|)..];
          assert Fields.ReadAll(slots, b).value.values == [b[..n]] + rest.values;
        }
      }
    }
  }

  lemma FirstOfRun(b: seq<byte>, fs: seq<Field>, n: nat)
    requires fs != [] && n == (if fs[0].there then fs[0].width else 0) && Span(fs, |fs|) <= |b|
    requires n <= |b| && Span(fs[1..], |fs| - 1) <= |b[n..]|
    ensures At(b, 0, fs, 0) == b[..n]
    ensures forall i :: 1 <= i < |fs| ==> At(b, 0, fs, i) == At(b[n..], 0, fs[1..], i - 1)
  {
    SpanShift(fs, 1);
    assert Span(fs[1..], 0) == 0;
    forall i | 1 <= i < |fs|
      ensures At(b, 0, fs, i) == At(b[n..], 0, fs[1..], i - 1)
    {
      NextOfRun(b, fs, n, i);
    }
  }

  lemma NextOfRun(b: seq<byte>, fs: seq<Field>, n: nat, i: nat)
    requires fs != [] && n == (if fs[0].there then fs[0].width else 0) && Span(fs, |fs|) <= |b|
    requires n <= |b| && Span(fs[1..], |fs| - 1) <= |b[n..]| && 1 <= i < |fs|
    ensures At(b, 0, fs, i) == At(b[n..], 0, fs[1..], i - 1)
  {
    hide Span;
    SpanShift(fs, i);
    SpanShift(fs, i + 1);
    SpanMonotone(fs, i + 1, |fs|);
    SpanMonotone(fs, i, i + 1);
  }

  lemma {:induction false} SpanShift(fs: seq<Field>, i: nat)
    requires i <= |fs| && fs != []
    ensures Span(fs, i) == if i == 0 then 0 else (if fs[0].there then fs[0].width else 0) + Span(fs[1..], i - 1)
    decreases i
  {
    if i > 1 {
      SpanShift(fs, i - 1);
    }
  }

  /** A run at k of the whole is the run at the front of the rest. */
  lemma Shifted(b: seq<byte>, k: nat, fs: seq<Field>)
    requires k <= |b|
    ensures k + Span(fs, |fs|) <= |b| ==> forall i :: 0 <= i < |fs| ==> At(b[k..], 0, fs, i) == At(b, k, fs, i)
  {
    if k + Span(fs, |fs|) <= |b| {
      forall i | 0 <= i < |fs|
        ensures At(b[k..], 0, fs, i) == At(b, k, fs, i)
      {
        SpanMonotone(fs, i + 1, |fs|);
        hide Span;
      }
    }
  }

  /** The same from k on. */
  lemma RunAt(b: seq<byte>, k: nat, fs: seq<Field>, slots: seq<Fields.Slot>)
    requires Fit(fs, slots) && k <= |b|
    ensures var p := Fields.ReadAll(slots, b[k..]);
            && (p.Ok? <==> k + Span(fs, |fs|) <= |b|)
            && (p.Ok? ==>
                  && p.value.tail == b[k + Span(fs, |fs|)..]
                  && forall i :: 0 <= i < |fs| ==> p.value.values[i] == At(b, k, fs, i))
  {
    hide Span, At, Fit;
    RunRead(b[k..], fs, slots);
    Shifted(b, k, fs);
    if k + Span(fs, |fs|) <= |b| {
      assert b[k..][Span(fs, |fs|)..] == b[k + Span(fs, |fs|)..];
    }
  }

  // ---- subrecords of fixed layout ----

  lemma StateLayout(b: seq<byte>)
    ensures SrStateData.Decode(b).Ok? <==> |b| == 5 && b[0] <= 7
    ensures SrStateData.Decode(b).Ok? ==>
              SrStateData.Decode(b).value
              == SrStateData.StateData(b[0], b[1], b[2], b[3], Bit(b[4], 4), Bit(b[4], 2), Bit(b[4], 1))
  {
    if |b| == 5 {
      BitsAre(b[4]);
    }
  }

  /** The time, latitude and longitude are four octets each; the speed is 14 bits in tenths, below the
      signs of altitude and direction; the altitude is there only when its flag is. */
  lemma PositionLayout(b: seq<byte>)
    ensures SrPosData.Decode(b).Ok? <==> |b| >= 24 || (|b| >= 21 && !On(b[12], 128))
    ensures SrPosData.Decode(b).Ok? ==>
              var p := SrPosData.Decode(b).value;
              && p.ntm == Long(b, 0) && p.lat == Long(b, 4) && p.lon == Long(b, 8)
              && p.alte == Bit(b[12], 128) && p.lohs == Bit(b[12], 64) && p.lahs == Bit(b[12], 32) && p.mv == Bit(b[12], 16)
              && p.bb == Bit(b[12], 8) && p.cs == Bit(b[12], 4) && p.fix == Bit(b[12], 2) && p.vld == Bit(b[12], 1)
              && p.spd == Word(b, 13) % 0x4000 / 10 && p.alts == Word(b, 13) / 0x4000 % 2 && p.dirh == Word(b, 13) / 0x8000
              && p.dir == b[15] && p.odm == b[16..19] && p.din == b[19] && p.src == b[20]
              && p.alt == if On(b[12], 128) then b[21..24] else []
  {
    if |b| >= 21 {
      BitsAre(b[12]);
      LongIs(b, 0);
      LongIs(b, 4);
      LongIs(b, 8);
    }
  }

  lemma SampleLayout(b: seq<byte>)
    requires |b| == 8
    ensures var s := SrAcceleration.DecodeSample(b);
            && s.rtm == Word(b, 0)
            && s.x == (if Word(b, 2) >= 0x8000 then Word(b, 2) - 0x1_0000 else Word(b, 2))
            && s.y == (if Word(b, 4) >= 0x8000 then Word(b, 4) - 0x1_0000 else Word(b, 4))
            && s.z == (if Word(b, 6) >= 0x8000 then Word(b, 6) - 0x1_0000 else Word(b, 6))
  {
  }

  lemma {:induction false} SamplesLayout(n: nat, b: seq<byte>)
    requires |b| == 8 * n
    ensures forall i :: 0 <= i < n ==> SrAcceleration.DecodeSamples(n, b)[i] == SrAcceleration.DecodeSample(b[8 * i..8 * i + 8])
  {
    hide SrAcceleration.DecodeSample;
    if n > 0 {
      var c := b[..8 * (n - 1)];
      SamplesLayout(n - 1, c);
      assert forall i :: 0 <= i < n - 1 ==> c[8 * i..8 * i + 8] == b[8 * i..8 * i + 8];
      assert b[8 * (n - 1)..8 * (n - 1) + 8] == b[8 * (n - 1)..];
    }
  }

  /** A count, a time, and as many structures of eight octets. */
  lemma AccelerationLayout(b: seq<byte>)
    ensures SrAcceleration.Decode(b).Ok? <==> |b| >= 5 && b[0] > 0 && |b| == 5 + 8 * b[0] as int
    ensures SrAcceleration.Decode(b).Ok? ==>
              var t := SrAcceleration.Decode(b).value;
              && t.sa == b[0] && t.atm == Long(b, 1) && |t.ads| == b[0] as int
              && forall i :: 0 <= i < |t.ads| ==> t.ads[i] == SrAcceleration.DecodeSample(b[5 + 8 * i..13 + 8 * i])
  {
    hide SrAcceleration.DecodeSample, SrAcceleration.DecodeSamples;
    if SrAcceleration.Decode(b).Ok? {
      LongIs(b, 1);
      SamplesLayout(b[0] as int, b[5..]);
      assert forall i :: 0 <= i < b[0] as int ==> b[5..][8 * i..8 * i + 8] == b[5 + 8 * i..13 + 8 * i];
    }
  }

  /** The low three bits number the sensor; the reading is a number of four octets, or raw octets. */
  lemma LiquidLayout(b: seq<byte>)
    ensures SrLiquidLevel.Decode(b).Ok? <==> |b| == 7 || (7 <= |b| <= 515 && On(b[0], 8))
    ensures SrLiquidLevel.Decode(b).Ok? ==>
              var t := SrLiquidLevel.Decode(b).value;
              && t.llsn == b[0] % 8 && t.rdf == Bit(b[0], 8) && t.llsvu == Bit(b[0], 32) + Bit(b[0], 16) && t.llsef == Bit(b[0], 64)
              && t.maddr == Word(b, 1)
              && (if On(b[0], 8) then t.raw == b[3..] && t.llsd == 0 else t.llsd == Long(b, 3) && t.raw == [])
  {
    if |b| >= 3 {
      BitsAre(b[0]);
      LowThree(b[0]);
      if |b| == 7 {
        LongIs(b, 3);
        assert b[3..7] == b[3..];
      }
    }
  }

  lemma LowThree(x: byte)
    ensures ParseBits(Bits8(x)[5..]) == Value(x % 8)
  {
    BitsAre(x);
    ThreeBits(x);
    var s := Bits8(x)[5..];
    hide Bits8;
    ThreeDigits(s, x / 4 % 2, x / 2 % 2, x % 2);
  }

  lemma ThreeBits(x: byte)
    ensures x % 8 == 4 * (x / 4 % 2) + 2 * (x / 2 % 2) + x % 2
  {
  }

  lemma ThreeDigits(s: string, a: byte, c: byte, d: byte)
    requires |s| == 3 && IsBits(s)
    requires a == (if s[0] == '1' then 1 else 0) && c == (if s[1] == '1' then 1 else 0) && d == (if s[2] == '1' then 1 else 0)
    ensures ParseBits(s) == Value(4 * a + 2 * c + d)
  {
    assert s[1..][0] == s[1] && s[1..][1..][0] == s[2] && s[1..][1..][1..] == "";
    assert ParseFrom(0, s) == ParseFrom(a, s[1..]);
    assert ParseFrom(a, s[1..]) == ParseFrom(2 * a + c, s[1..][1..]);
    assert ParseFrom(2 * a + c, s[1..][1..]) == ParseFrom(4 * a + 2 * c + d, s[1..][1..][1..]);
  }

  // ---- subrecords with optional fields ----

  function IdentityFields(x: byte): (fs: seq<Field>)
    ensures |fs| == 7
  {
    [Field(On(x, 1), 2), Field(On(x, 2), 15), Field(On(x, 4), 16), Field(On(x, 8), 3), Field(On(x, 32), 3), Field(On(x, 64), 2),
     Field(On(x, 128), 15)]
  }

  /** The number in a field that may be absent. */
  function WordOrZero(b: seq<byte>): int {
    if |b| == 2 then Word(b, 0) else 0
  }

  function OctetOrZero(b: seq<byte>): int {
    if |b| == 1 then b[0] else 0
  }

  function TripleOrZero(b: seq<byte>): int {
    if |b| == 3 then Triple(b, 0) else 0
  }

  /** The terminal's identifier, flags, and in this order those fields whose flag is set: home
      dispatcher, IMEI, IMSI, language, network, buffer size, telephone number. */
  lemma IdentityLayout(b: seq<byte>)
    ensures SrTermIdentity.Decode(b).Ok? <==> |b| >= 5 && |b| == 5 + Span(IdentityFields(b[4]), 7)
    ensures SrTermIdentity.Decode(b).Ok? ==>
              var t, fs := SrTermIdentity.Decode(b).value, IdentityFields(b[4]);
              && t.tid == Long(b, 0)
              && t.mne == Bit(b[4], 128) && t.bse == Bit(b[4], 64) && t.nide == Bit(b[4], 32) && t.ssra == Bit(b[4], 16)
              && t.lngce == Bit(b[4], 8) && t.imsie == Bit(b[4], 4) && t.imeie == Bit(b[4], 2) && t.hdide == Bit(b[4], 1)
              && t.hdid == WordOrZero(At(b, 5, fs, 0)) && t.imei == At(b, 5, fs, 1) && t.imsi == At(b, 5, fs, 2)
              && t.lngc == At(b, 5, fs, 3) && t.nid == At(b, 5, fs, 4) && t.bs == WordOrZero(At(b, 5, fs, 5))
              && t.msisdn == At(b, 5, fs, 6)
  {
    if |b| >= 5 {
      var f, fs := Bits8(b[4]), IdentityFields(b[4]);
      BitsAre(b[4]);
      LongIs(b, 0);
      var slots := SrTermIdentity.FlagSlots(f);
      assert Fit(fs, slots);
      hide Bits8, Span, At, Fit, Fields.ReadAll;
      RunAt(b, 5, fs, slots);
    }
  }

  lemma AtWidth(b: seq<byte>, k: nat, fs: seq<Field>, i: nat)
    requires i < |fs| && k + Span(fs, |fs|) <= |b|
    ensures |At(b, k, fs, i)| == if fs[i].there then fs[i].width else 0
  {
    SpanMonotone(fs, i + 1, |fs|);
  }

  function ExtPosFields(x: byte): (fs: seq<Field>)
    ensures |fs| == 5
  {
    [Field(On(x, 1), 2), Field(On(x, 2), 2), Field(On(x, 4), 2), Field(On(x, 8), 1), Field(On(x, 16), 2)]
  }

  /** Dilution of precision: vertical, horizontal, of position; then satellites and their systems. */
  lemma ExtPosLayout(b: seq<byte>)
    ensures SrExtPosData.Decode(b).Ok? <==> |b| >= 1 && |b| == 1 + Span(ExtPosFields(b[0]), 5)
    ensures SrExtPosData.Decode(b).Ok? ==>
              var t, fs := SrExtPosData.Decode(b).value, ExtPosFields(b[0]);
              && t.vdopE == Bit(b[0], 1) && t.hdopE == Bit(b[0], 2) && t.pdopE == Bit(b[0], 4) && t.satE == Bit(b[0], 8)
              && t.nsE == Bit(b[0], 16)
              && t.vdop == WordOrZero(At(b, 1, fs, 0)) && t.hdop == WordOrZero(At(b, 1, fs, 1)) && t.pdop == WordOrZero(At(b, 1, fs, 2))
              && t.sat == OctetOrZero(At(b, 1, fs, 3)) && t.ns == WordOrZero(At(b, 1, fs, 4))
  {
    if |b| >= 1 {
      var f, fs := Bits8(b[0]), ExtPosFields(b[0]);
      hide Bits8, Span, At, Fit, Fields.ReadAll, On, Bit, SrExtPosData.FlagSlots, ExtPosFields;
      BitsAre(b[0]);
      ExtPosRead(b[0]);
      var slots := SrExtPosData.FlagSlots(f);
      RunAt(b, 1, fs, slots);
      if 1 + Span(fs, 5) <= |b| {
        AtWidth(b, 1, fs, 3);
      }
    }
  }

  lemma ExtPosRead(x: byte)
    ensures Fit(ExtPosFields(x), SrExtPosData.FlagSlots(Bits8(x))) && ExtPosFields(x)[3].width == 1
  {
    BitsAre(x);
    hide Bits8, On;
  }

  // ---- masks ----

  /** Fields of one width, announced by the bits of an octet from the lowest. */
  function MaskFields(x: byte, width: nat): (fs: seq<Field>)
    ensures |fs| == 8
  {
    [Field(On(x, 1), width), Field(On(x, 2), width), Field(On(x, 4), width), Field(On(x, 8), width), Field(On(x, 16), width),
     Field(On(x, 32), width), Field(On(x, 64), width), Field(On(x, 128), width)]
  }

  function MaskBits(x: byte): (m: seq<string>)
    ensures |m| == 8
  {
    [Bit(x, 1), Bit(x, 2), Bit(x, 4), Bit(x, 8), Bit(x, 16), Bit(x, 32), Bit(x, 64), Bit(x, 128)]
  }

  lemma MaskRead(x: byte, width: nat)
    ensures SrSensors.Mask(Bits8(x)) == MaskBits(x)
    ensures Fit(MaskFields(x, width), SrSensors.MaskSlots(SrSensors.Mask(Bits8(x)), width))
  {
    MaskIs(x);
    var m, fs := MaskBits(x), MaskFields(x, width);
    var slots := SrSensors.MaskSlots(m, width);
    hide Bits8, On, SrSensors.Mask;
    forall i | 0 <= i < 8
      ensures slots[i].n == fs[i].width && (fs[i].there <==> slots[i].flag == "1")
    {
      assert slots[i] == Fields.Slot(m[i], width);
    }
  }

  lemma MaskIs(x: byte)
    ensures SrSensors.Mask(Bits8(x)) == MaskBits(x)
  {
    BitsAre(x);
    hide Bits8, Bit;
  }

  /** Eight counters of three octets. */
  lemma CountersLayout(b: seq<byte>)
    ensures SrSensors.DecodeCounters(b).Ok? <==> |b| >= 1 && |b| == 1 + Span(MaskFields(b[0], 3), 8)
    ensures SrSensors.DecodeCounters(b).Ok? ==>
              var t, fs := SrSensors.DecodeCounters(b).value, MaskFields(b[0], 3);
              t.cne == MaskBits(b[0]) && forall i :: 0 <= i < 8 ==> t.cn[i] == TripleOrZero(At(b, 1, fs, i))
  {
    if |b| >= 1 {
      var fs := MaskFields(b[0], 3);
      var slots := SrSensors.MaskSlots(SrSensors.Mask(Bits8(b[0])), 3);
      MaskRead(b[0], 3);
      hide Bits8, Span, At, MaskFields, MaskBits, SrSensors.Mask, SrSensors.MaskSlots, Fit, Fields.ReadAll;
      RunAt(b, 1, fs, slots);
    }
  }

  /** Digital inputs of one octet and analog readings of three, under a mask each; the outputs stand
      between the masks. */
  lemma SensorsLayout(b: seq<byte>)
    ensures SrSensors.DecodeSensors(b).Ok?
            <==> |b| >= 3 && |b| == 3 + Span(MaskFields(b[0], 1), 8) + Span(MaskFields(b[2], 3), 8)
    ensures SrSensors.DecodeSensors(b).Ok? ==>
              var t, ds, fs := SrSensors.DecodeSensors(b).value, MaskFields(b[0], 1), MaskFields(b[2], 3);
              && t.dioe == MaskBits(b[0]) && t.dout == b[1] && t.anse == MaskBits(b[2])
              && forall i :: 0 <= i < 8 ==>
                   t.adi[i] == OctetOrZero(At(b, 3, ds, i)) && t.ans[i] == TripleOrZero(At(b, 3 + Span(ds, 8), fs, i))
  {
    if |b| >= 3 {
      var ds, fs := MaskFields(b[0], 1), MaskFields(b[2], 3);
      var d, a := SrSensors.MaskSlots(SrSensors.Mask(Bits8(b[0])), 1), SrSensors.MaskSlots(SrSensors.Mask(Bits8(b[2])), 3);
      MaskRead(b[0], 1);
      MaskRead(b[2], 3);
      hide Bits8, Span, At, MaskFields, MaskBits, SrSensors.Mask, SrSensors.MaskSlots, Fit, Fields.ReadAll;
      RunAt(b, 3, ds, d);
      if 3 + Span(ds, 8) <= |b| {
        var k := 3 + Span(ds, 8);
        RunAt(b, k, fs, a);
      }
    }
  }

  // ---- records ----

  function ServiceFields(x: byte): (fs: seq<Field>)
    ensures |fs| == 3
  {
    [Field(On(x, 1), 4), Field(On(x, 2), 4), Field(On(x, 4), 4)]
  }

  function LongOrZero(b: seq<byte>): int {
    if |b| == 4 then Long(b, 0) else 0
  }

  lemma ServiceRead(b: seq<byte>)
    requires |b| >= 5
    ensures var f, fs := Bits8(b[4]), ServiceFields(b[4]); var p := Fields.ReadAll(Services.Slots([f[7]], [f[6]], [f[5]]), b[5..]);
            && (p.Ok? <==> 5 + Span(fs, 3) <= |b|)
            && (p.Ok? ==>
                  && p.value.tail == b[5 + Span(fs, 3)..]
                  && Services.U32OrZero(p.value.values[0]) == LongOrZero(At(b, 5, fs, 0))
                  && Services.U32OrZero(p.value.values[1]) == LongOrZero(At(b, 5, fs, 1))
                  && Services.U32OrZero(p.value.values[2]) == LongOrZero(At(b, 5, fs, 2)))
  {
    var f, fs := Bits8(b[4]), ServiceFields(b[4]);
    var slots := Services.Slots([f[7]], [f[6]], [f[5]]);
    BitsAre(b[4]);
    assert Fit(fs, slots);
    hide Bits8, Span, At, Fit, Fields.ReadAll, Services.U32OrZero, LongOrZero;
    RunAt(b, 5, fs, slots);
    if 5 + Span(fs, 3) <= |b| {
      LongOrZeroIs(At(b, 5, fs, 0));
      LongOrZeroIs(At(b, 5, fs, 1));
      LongOrZeroIs(At(b, 5, fs, 2));
    }
  }

  lemma LongOrZeroIs(c: seq<byte>)
    ensures Services.U32OrZero(c) == LongOrZero(c)
  {
    if |c| == 4 {
      LongIs(c, 0);
      assert c[0..4] == c;
    }
  }

  /** A service record: length and number, flags, the object, event and time that the flags announce,
      the source and the recipient service, and as many octets of subrecords as the length says, not
      none; what follows is the next record. */
  lemma ServiceLayout(b: seq<byte>)
    ensures Services.DecodeOne(b).Ok?
            <==> |b| >= 5 && Word(b, 0) > 0
                 && var k := 5 + Span(ServiceFields(b[4]), 3);
                    k + 2 + Word(b, 0) <= |b| && Records.Decode(b[k + 2..k + 2 + Word(b, 0)]).Ok?
    ensures Services.DecodeOne(b).Ok? ==> ServiceParts(b, Services.DecodeOne(b).value.record, Services.DecodeOne(b).value.tail)
  {
    hide Bits8, Span, At, Fields.ReadAll, Records.Decode, LongOrZero, Services.U32OrZero, ServiceFields, Bit, On;
    if |b| >= 5 {
      ServiceRead(b);
      BitsAre(b[4]);
      Cut(b, 5 + Span(ServiceFields(b[4]), 3), Word(b, 0));
    }
  }

  predicate ServiceParts(b: seq<byte>, t: Services.ServiceRecord, tail: seq<byte>) {
    && |b| >= 5
    && var fs := ServiceFields(b[4]); var k := 5 + Span(fs, 3);
    && k + 2 + Word(b, 0) <= |b|
    && t.rl == Word(b, 0) && t.rn == Word(b, 2)
    && t.ssod == Bit(b[4], 128) && t.rsod == Bit(b[4], 64) && t.grp == Bit(b[4], 32)
    && t.rpp == Bit(b[4], 16) + Bit(b[4], 8) && t.tmfe == Bit(b[4], 4) && t.evfe == Bit(b[4], 2) && t.obfe == Bit(b[4], 1)
    && t.oid == LongOrZero(At(b, 5, fs, 0)) && t.evid == LongOrZero(At(b, 5, fs, 1)) && t.tm == LongOrZero(At(b, 5, fs, 2))
    && t.sst == b[k] && t.rst == b[k + 1]
    && Records.Decode(b[k + 2..k + 2 + Word(b, 0)]) == Ok(t.rd) && tail == b[k + 2 + Word(b, 0)..]
  }

  lemma Cut(b: seq<byte>, k: nat, n: nat)
    ensures k + 2 + n <= |b| ==> b[k..][2..2 + n] == b[k + 2..k + 2 + n] && b[k..][2 + n..] == b[k + 2 + n..]
  {
  }

  /** Subrecords: a type, a length and so many octets, one after the other. */
  lemma RecordsLayout(b: seq<byte>, n: nat)
    requires |b| >= 3 ==> n == Word(b, 1)
    ensures b == [] ==> Records.Decode(b) == Ok([])
    ensures 0 < |b| < 3 || (|b| >= 3 && 3 + n > |b|) ==> Records.Decode(b) == Err
    ensures |b| >= 3 && 3 + n <= |b| ==>
              Records.Decode(b) ==
              match S.Decode(b[0], b[3..3 + n])
              case Err => Err
              case Ok(x) =>
                match Records.Decode(b[3 + n..])
                case Err => Err
                case Ok(rest) => Ok([Records.RecordData(b[0], n, x)] + rest)
  {
    hide S.Decode;
    if |b| >= 3 {
      LengthIs(b);
      hide Word;
    }
  }

  lemma LengthIs(b: seq<byte>)
    requires |b| >= 3
    ensures U16(b[1..3]) == Word(b, 1)
  {
  }

  /** The octets of each type of subrecord. */
  lemma TypesLayout(b: seq<byte>)
    ensures S.Decode(0, b) == if |b| == 3 then Ok(S.RecordResponse(Word(b, 0), b[2])) else Err
    ensures S.Decode(6, b) == if b == [0] then Ok(S.AuthParams(0)) else Err
    ensures S.Decode(9, b) == if |b| == 1 then Ok(S.ResultCode(b[0])) else Err
    ensures forall t :: S.Decode(1, b) == Ok(t) <==> t.Identity? && SrTermIdentity.Decode(b) == Ok(t.id)
    ensures forall t :: S.Decode(7, b) == Ok(t) <==> t.Credentials? && SrAuthInfo.Decode(b) == Ok(t.auth)
    ensures forall t :: S.Decode(16, b) == Ok(t) <==> t.Position? && SrPosData.Decode(b) == Ok(t.pos)
    ensures forall t :: S.Decode(17, b) == Ok(t) <==> t.ExtPosition? && SrExtPosData.Decode(b) == Ok(t.ext)
    ensures forall t :: S.Decode(18, b) == Ok(t) <==> t.Sensors? && SrSensors.DecodeSensors(b) == Ok(t.sensors)
    ensures forall t :: S.Decode(19, b) == Ok(t) <==> t.CounterData? && SrSensors.DecodeCounters(b) == Ok(t.counters)
    ensures forall t :: S.Decode(20, b) == Ok(t) <==> t.State? && SrStateData.Decode(b) == Ok(t.state)
    ensures forall t :: S.Decode(21, b) == Ok(t) <==> t.Accel? && SrAcceleration.Decode(b) == Ok(t.accel)
    ensures forall t :: S.Decode(27, b) == Ok(t) <==> t.Liquid? && SrLiquidLevel.Decode(b) == Ok(t.liquid)
    ensures forall x: byte :: x !in {0, 1, 6, 7, 9, 16, 17, 18, 19, 20, 21, 27} ==> S.Decode(x, b).Err?
  {
    hide SrTermIdentity.Decode, SrAuthInfo.Decode, SrPosData.Decode, SrExtPosData.Decode, SrSensors.DecodeSensors,
         SrSensors.DecodeCounters, SrStateData.Decode, SrAcceleration.Decode, SrLiquidLevel.Decode;
  }

  /** The user's name, the password and perhaps a server sequence, each ended by a zero octet. */
  lemma AuthLayout(b: seq<byte>, t: SrAuthInfo.AuthInfo)
    ensures SrAuthInfo.Decode(b) == Ok(t)
            <==> && b == t.unm + [0] + t.upsw + [0] + (if t.ss.Some? then t.ss.value + [0] else [])
                 && 0 !in t.unm && 0 !in t.upsw && |t.unm| <= 32 && |t.upsw| <= 32
                 && (t.ss.Some? ==> 0 !in t.ss.value && |t.ss.value| <= 255)
  {
    hide SrAuthInfo.Decode;
    var names := t.unm + [0] + t.upsw + [0];
    assert names + [] == names;
    if t.ss.Some? {
      assert names + t.ss.value + [0] == names + (t.ss.value + [0]);
    }
    if SrAuthInfo.Decode(b) == Ok(t) {
      SrAuthInfo.EncodeDecode(b);
    } else if SrAuthInfo.Encode(t) == Ok(b) {
      SrAuthInfo.DecodeEncode(t);
    }
  }

  // ---- packets ----

  /** The octets of the header: with routing, sixteen. */
  predicate HeaderParts(b: seq<byte>, p: Packets.Packet) {
    && |b| >= 11 && (On(b[2], 32) ==> |b| >= 16)
    && p.prv == b[0] && p.skid == b[1]
    && p.prf == Bit(b[2], 128) + Bit(b[2], 64) && p.rte == Bit(b[2], 32) && p.ena == Bit(b[2], 16) + Bit(b[2], 8)
    && p.cmp == Bit(b[2], 4) && p.pr == Bit(b[2], 2) + Bit(b[2], 1)
    && p.hl == b[3] && p.he == b[4] && p.fdl == Word(b, 5) && p.pid == Word(b, 7) && p.pt == b[9]
    && p.pra == (if On(b[2], 32) then Word(b, 10) else 0) && p.rca == (if On(b[2], 32) then Word(b, 12) else 0)
    && p.ttl == (if On(b[2], 32) then b[14] else 0)
    && p.hcs == b[if On(b[2], 32) then 15 else 10]
  }

  lemma HeaderLayout(b: seq<byte>)
    requires |b| >= 11 && |b| >= Packets.HeaderLength(Bits8(b[2])[2]) as int
    requires b[3] == Packets.HeaderLength(Bits8(b[2])[2])
    ensures HeaderParts(b, Packets.Header(b)) && b[3] == if On(b[2], 32) then 16 else 11
  {
    BitsAre(b[2]);
    var f := Bits8(b[2]);
    hide Bits8;
    assert f[..2] == [f[0]] + [f[1]] && f[3..5] == [f[3]] + [f[4]] && f[6..] == [f[6]] + [f[7]];
  }

  /** The data of a packet: service records, or the packet that is confirmed, its result, and
      perhaps service records. */
  predicate DataParts(body: seq<byte>, pt: byte, d: Packets.FrameData) {
    if pt == 1 then d.AppData? && Services.Decode(body) == Ok(d.services)
    else
      && pt == 0 && d.Response? && |body| >= 3 && d.response.rpid == Word(body, 0) && d.response.result == body[2]
      && (if |body| == 3 then d.response.sdr.None? else d.response.sdr.Some? && Services.Decode(body[3..]) == Ok(d.response.sdr.value))
  }

  /** The header is there, its flags are those supported, the lengths agree, and both checksums do. */
  predicate PacketParts(b: seq<byte>, p: Packets.Packet) {
    && HeaderParts(b, p)
    && b[0] == 1 && b[4] == 0 && !On(b[2], 128) && !On(b[2], 64) && !On(b[2], 16) && !On(b[2], 8) && !On(b[2], 4)
    && var hl: nat, n: nat := if On(b[2], 32) then 16 else 11, Word(b, 5);
    && b[3] as int == hl && |b| <= 65535 && |b| == hl + n + (if n > 0 then 2 else 0)
    && p.hcs == Crc.Crc8(b[..hl - 1]) && p.errorCode == 0
    && p.sfrcs == (if n > 0 then Word(b, |b| - 2) else 0) && (n > 0 ==> p.sfrcs == Crc.Crc16(b[hl..|b| - 2]))
    && DataParts(b[hl..hl + n], b[9], p.sfrd)
  }

  lemma DataLayout(body: seq<byte>, pt: byte, d: Packets.FrameData)
    ensures Packets.DecodeFrame(pt, body) == Ok(d) <==> DataParts(body, pt, d)
  {
    hide Services.Decode;
    if |body| >= 3 {
      assert U16(body[..2]) == Word(body, 0);
    }
  }

  lemma TwoBits(x: byte, v: nat, w: nat)
    requires v > 0 && w > 0
    ensures Bit(x, v) + Bit(x, w) == "00" <==> !On(x, v) && !On(x, w)
    ensures Bit(x, v) == "0" <==> !On(x, v)
  {
    var s := Bit(x, v) + Bit(x, w);
    assert |s| == 2 && s[0] == Bit(x, v)[0] && s[1] == Bit(x, w)[0];
  }

  predicate HeaderThere(b: seq<byte>) {
    |b| >= 11 && (On(b[2], 32) ==> |b| >= 16) && b[3] == if On(b[2], 32) then 16 else 11
  }

  lemma HeaderUnique(b: seq<byte>, p: Packets.Packet)
    requires HeaderThere(b)
    ensures |b| >= Packets.HeaderLength(Bits8(b[2])[2]) as int && b[3] == Packets.HeaderLength(Bits8(b[2])[2])
    ensures p == Packets.Header(b).(sfrd := p.sfrd, sfrcs := p.sfrcs) <==> HeaderParts(b, p) && p.errorCode == 0
  {
    BitsAre(b[2]);
    hide Bits8, On, Bit, Word;
    HeaderLayout(b);
    assert Packets.Header(b).errorCode == 0;
    hide Packets.Header;
  }

  /** The checks on header and checksums in terms of the fields. */
  predicate Checked(b: seq<byte>, p: Packets.Packet) {
    && p.hl as int + p.fdl + (if p.fdl > 0 then 2 else 0) == |b| <= 65535 && p.hl > 0
    && p.hcs == Crc.Crc8(b[..p.hl - 1])
    && p.prv == 1 && p.prf == "00" && p.he == 0 && p.ena == "00" && p.cmp == "0"
    && p.sfrcs == (if p.fdl > 0 then Word(b, |b| - 2) else 0)
    && (p.fdl > 0 ==> p.sfrcs == Crc.Crc16(b[p.hl..p.hl as int + p.fdl]))
    && Packets.DecodeFrame(p.pt, b[p.hl..p.hl as int + p.fdl]) == Ok(p.sfrd)
  }

  lemma ParsesExactly(b: seq<byte>, p: Packets.Packet)
    ensures Packets.Parses(b, p) <==> HeaderThere(b) && HeaderParts(b, p) && p.errorCode == 0 && Checked(b, p)
  {
    hide HeaderParts, Checked, Packets.Parses;
    if HeaderThere(b) {
      HeaderUnique(b, p);
      ParsesChecked(b, p);
    } else {
      NoHeader(b, p);
    }
  }

  lemma NoHeader(b: seq<byte>, p: Packets.Packet)
    requires !HeaderThere(b)
    ensures !Packets.Parses(b, p)
  {
    if |b| >= 11 {
      BitsAre(b[2]);
      hide Bits8, Packets.Header, Packets.DecodeFrame, Crc.Crc8, Crc.Crc16;
    }
  }

  lemma ParsesChecked(b: seq<byte>, p: Packets.Packet)
    requires 11 <= |b| && |b| >= Packets.HeaderLength(Bits8(b[2])[2]) as int && b[3] == Packets.HeaderLength(Bits8(b[2])[2])
    ensures Packets.Parses(b, p) <==> p == Packets.Header(b).(sfrd := p.sfrd, sfrcs := p.sfrcs) && Checked(b, p)
  {
    hide Bits8, Packets.Header, Packets.DecodeFrame, Crc.Crc8, Crc.Crc16;
    assert U16(b[|b| - 2..]) == Word(b, |b| - 2);
    var h := Packets.Header(b);
    if p == h.(sfrd := p.sfrd, sfrcs := p.sfrcs) {
      assert p.hl == h.hl > 0;
    }
  }

  lemma CheckedExactly(b: seq<byte>, p: Packets.Packet)
    requires HeaderThere(b) && HeaderParts(b, p) && p.errorCode == 0
    ensures Checked(b, p) <==> PacketParts(b, p)
  {
    hide HeaderParts, Crc.Crc8, Crc.Crc16, Packets.DecodeFrame, Word, DataParts, On;
    HeaderSays(b, p);
    var hl, n := p.hl as int, p.fdl as int;
    if hl + n <= |b| {
      DataLayout(b[hl..hl + n], p.pt, p.sfrd);
    }
  }

  lemma HeaderSays(b: seq<byte>, p: Packets.Packet)
    requires HeaderThere(b) && HeaderParts(b, p)
    ensures p.hl as int == (if On(b[2], 32) then 16 else 11) && p.fdl == Word(b, 5) && p.pt == b[9] && p.prv == b[0] && p.he == b[4]
    ensures p.prf == "00" <==> !On(b[2], 128) && !On(b[2], 64)
    ensures p.ena == "00" <==> !On(b[2], 16) && !On(b[2], 8)
    ensures p.cmp == "0" <==> !On(b[2], 4)
  {
    TwoBits(b[2], 128, 64);
    TwoBits(b[2], 16, 8);
    TwoBits(b[2], 4, 1);
    hide On, Bit, Word;
  }

  /** Just these packets are accepted, each as what its octets say. */
  lemma PacketLayout(b: seq<byte>, p: Packets.Packet)
    ensures Packets.ReadPacket(b) == Packets.Accepted(p) <==> PacketParts(b, p)
  {
    hide Packets.ReadPacket, Packets.Parses, Checked;
    Packets.AcceptedExactlyWhenParses(b, p);
    ParsesExactly(b, p);
    if HeaderThere(b) && HeaderParts(b, p) && p.errorCode == 0 {
      CheckedExactly(b, p);
    }
  }
}
