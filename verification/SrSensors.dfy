/** EGTS_SR_AD_SENSORS_DATA and EGTS_SR_COUNTERS_DATA (egts/subrecord/sr_ad_sensors_data.go,
    sr_counters_data.go): eight-way presence masks over one- and three-octet fields. */
module SrSensors {
  import opened Bytes
  import opened Flags
  import opened Fields

  /** dioe[i] and anse[i] announce adi[i] and ans[i]; the values are Go arrays of eight. */
  datatype SensorFields = SensorFields(dioe: seq<string>, dout: byte, anse: seq<string>, adi: seq<byte>, ans: seq<uint32>)

  type AdSensors = t: SensorFields | |t.adi| == 8 && |t.ans| == 8
    witness SensorFields([], 0, [], [0, 0, 0, 0, 0, 0, 0, 0], [0, 0, 0, 0, 0, 0, 0, 0])

  datatype CounterFields = CounterFields(cne: seq<string>, cn: seq<uint32>)

  type Counters = t: CounterFields | |t.cn| == 8
    witness CounterFields([], [0, 0, 0, 0, 0, 0, 0, 0])

  // ---- masks ----

  /** The flags of a mask octet, bit 0 first. */
  function Mask(f: string): (m: seq<string>)
    requires |f| == 8
    ensures |m| == 8 && forall i :: 0 <= i < 8 ==> m[i] == [f[7 - i]]
  {
    [[f[7]], [f[6]], [f[5]], [f[4]], [f[3]], [f[2]], [f[1]], [f[0]]]
  }

  predicate IsMask(m: seq<string>) {
    |m| == 8 && forall i :: 0 <= i < 8 ==> IsFlag(m[i])
  }

  /** The octet Encode assembles from the last flag down to the first. */
  function MaskByte(m: seq<string>): Flags.Parsed
    requires |m| == 8
  {
    ParseBits(Join(m[7], m[6], m[5], m[4], m[3], m[2], m[1], m[0]))
  }

  function MaskSlots(m: seq<string>, n: nat): (s: seq<Slot>)
    ensures |s| == |m|
  {
    seq(|m|, i requires 0 <= i < |m| => Slot(m[i], n))
  }

  lemma MaskReadBack(m: seq<string>)
    requires IsMask(m)
    ensures MaskByte(m).Value? && Mask(Bits8(MaskByte(m).v)) == m
  {
    FlagsReadBack(m[7], m[6], m[5], m[4], m[3], m[2], m[1], m[0]);
    var f := Bits8(MaskByte(m).v);
    forall i | 0 <= i < 8
      ensures Mask(f)[i] == m[i]
    {
      assert IsFlag(m[i]) && f[7 - i] == m[i][0];
    }
  }

  lemma MaskWrittenBack(v: byte)
    ensures IsMask(Mask(Bits8(v))) && MaskByte(Mask(Bits8(v))) == Value(v)
  {
    FlagsWrittenBack(v);
  }

  // ---- one-octet and three-octet fields ----

  function ByteOrZero(b: seq<byte>): byte {
    if |b| == 1 then b[0] else 0
  }

  function U24OrZero(b: seq<byte>): uint32 {
    if |b| == 3 then U24(b) else 0
  }

  function Octets(v: seq<byte>): (w: seq<seq<byte>>)
    ensures |w| == |v|
  {
    seq(|v|, i requires 0 <= i < |v| => [v[i]])
  }

  function Triples(v: seq<uint32>): (w: seq<seq<byte>>)
    ensures |w| == |v|
  {
    seq(|v|, i requires 0 <= i < |v| => Le24(v[i]))
  }

  function OctetValues(w: seq<seq<byte>>): (v: seq<byte>)
    ensures |v| == |w|
  {
    seq(|w|, i requires 0 <= i < |w| => ByteOrZero(w[i]))
  }

  function TripleValues(w: seq<seq<byte>>): (v: seq<uint32>)
    ensures |v| == |w|
  {
    seq(|w|, i requires 0 <= i < |w| => U24OrZero(w[i]))
  }

  /** A value under a clear flag is zero. */
  predicate ZeroWhereAbsent(m: seq<string>, v: seq<uint32>) {
    |v| == |m| && forall i :: 0 <= i < |m| && m[i] != "1" ==> v[i] == 0
  }

  predicate Below24(m: seq<string>, v: seq<uint32>) {
    |v| == |m| && forall i :: 0 <= i < |m| && m[i] == "1" ==> v[i] <= 0xff_ffff
  }

  /** The values a mask lets through. */
  function Shown(m: seq<string>, w: seq<seq<byte>>): (s: seq<seq<byte>>)
    requires |w| == |m|
    ensures |s| == |m|
  {
    seq(|m|, i requires 0 <= i < |m| => if m[i] == "1" then w[i] else [])
  }

  lemma ShownFits(m: seq<string>, w: seq<seq<byte>>, n: nat)
    requires |w| == |m| && forall i :: 0 <= i < |w| ==> |w[i]| == n
    ensures Fit(MaskSlots(m, n), Shown(m, w))
    ensures WriteAll(MaskSlots(m, n), w) == WriteAll(MaskSlots(m, n), Shown(m, w))
  {
    WriteDropsAbsent(MaskSlots(m, n), w, Shown(m, w));
  }

  lemma TriplesReadBack(m: seq<string>, v: seq<uint32>)
    requires ZeroWhereAbsent(m, v) && Below24(m, v)
    ensures TripleValues(Shown(m, Triples(v))) == v
  {
    forall i | 0 <= i < |v|
      ensures TripleValues(Shown(m, Triples(v)))[i] == v[i]
    {
      if m[i] == "1" {
        Le24Inverse(v[i]);
      }
    }
  }

  lemma TriplesWrittenBack(m: seq<string>, w: seq<seq<byte>>)
    requires Fit(MaskSlots(m, 3), w)
    ensures ZeroWhereAbsent(m, TripleValues(w)) && Below24(m, TripleValues(w))
    ensures Shown(m, Triples(TripleValues(w))) == w
  {
    var s := MaskSlots(m, 3);
    forall i | 0 <= i < |m|
      ensures |w[i]| == if m[i] == "1" then 3 else 0
      ensures Shown(m, Triples(TripleValues(w)))[i] == w[i]
    {
      assert s[i] == Slot(m[i], 3);
      if m[i] == "1" {
        U24Inverse(w[i]);
      }
    }
  }

  lemma OctetsReadBack(m: seq<string>, v: seq<byte>)
    requires |v| == |m| && forall i :: 0 <= i < |m| && m[i] != "1" ==> v[i] == 0
    ensures OctetValues(Shown(m, Octets(v))) == v
  {
  }

  lemma OctetsWrittenBack(m: seq<string>, w: seq<seq<byte>>)
    requires Fit(MaskSlots(m, 1), w)
    ensures forall i :: 0 <= i < |m| && m[i] != "1" ==> OctetValues(w)[i] == 0
    ensures Shown(m, Octets(OctetValues(w))) == w
  {
    var s := MaskSlots(m, 1);
    forall i | 0 <= i < |m|
      ensures |w[i]| == if m[i] == "1" then 1 else 0
      ensures Shown(m, Octets(OctetValues(w)))[i] == w[i]
    {
      assert s[i] == Slot(m[i], 1);
    }
  }

  // ---- EGTS_SR_COUNTERS_DATA ----

  function DecodeCounters(b: seq<byte>): Result<Counters> {
    if |b| < 1 then Err
    else
      var m := Mask(Bits8(b[0]));
      var p :- ReadAll(MaskSlots(m, 3), b[1..]);
      if p.tail != [] then Err else Ok(CounterFields(m, TripleValues(p.values)))
  }

  function EncodeCounters(t: Counters): Result<seq<byte>>
  {
    if !IsMask(t.cne) || !MaskByte(t.cne).Value? || !Below24(t.cne, t.cn) then Err
    else Ok([MaskByte(t.cne).v] + WriteAll(MaskSlots(t.cne, 3), Triples(t.cn)))
  }

  predicate CanonicalCounters(t: Counters) {
    IsMask(t.cne) && ZeroWhereAbsent(t.cne, t.cn) && Below24(t.cne, t.cn)
  }

  lemma DecodeEncodeCounters(t: Counters)
    requires CanonicalCounters(t)
    ensures EncodeCounters(t).Ok? && DecodeCounters(EncodeCounters(t).value) == Ok(t)
  {
    MaskReadBack(t.cne);
    var w := Shown(t.cne, Triples(t.cn));
    ShownFits(t.cne, Triples(t.cn), 3);
    ReadWhole(MaskSlots(t.cne, 3), w);
    TriplesReadBack(t.cne, t.cn);
    var e := EncodeCounters(t).value;
    assert e[1..] == WriteAll(MaskSlots(t.cne, 3), w);
  }

  lemma EncodeDecodeCounters(b: seq<byte>)
    requires DecodeCounters(b).Ok?
    ensures CanonicalCounters(DecodeCounters(b).value) && EncodeCounters(DecodeCounters(b).value) == Ok(b)
  {
    hide Bits8, Mask, MaskByte, MaskSlots, IsMask, ReadAll, WriteAll, TripleValues, Triples, ZeroWhereAbsent, Below24;
    var m := Mask(Bits8(b[0]));
    MaskWrittenBack(b[0]);
    AnalogWrittenBack(m, b[1..]);
    assert [b[0]] + b[1..] == b;
  }

  // ---- EGTS_SR_AD_SENSORS_DATA ----

  function DecodeSensors(b: seq<byte>): Result<AdSensors> {
    if |b| < 3 then Err
    else
      var d := Mask(Bits8(b[0]));
      var a := Mask(Bits8(b[2]));
      var digital :- ReadAll(MaskSlots(d, 1), b[3..]);
      var analog :- ReadAll(MaskSlots(a, 3), digital.tail);
      if analog.tail != [] then Err
      else Ok(SensorFields(d, b[1], a, OctetValues(digital.values), TripleValues(analog.values)))
  }

  function EncodeSensors(t: AdSensors): Result<seq<byte>>
  {
    if !IsMask(t.dioe) || !IsMask(t.anse) || !MaskByte(t.dioe).Value? || !MaskByte(t.anse).Value?
       || !Below24(t.anse, t.ans) then Err
    else Ok([MaskByte(t.dioe).v, t.dout, MaskByte(t.anse).v]
            + (WriteAll(MaskSlots(t.dioe, 1), Octets(t.adi)) + WriteAll(MaskSlots(t.anse, 3), Triples(t.ans))))
  }

  predicate CanonicalSensors(t: AdSensors) {
    && IsMask(t.dioe) && IsMask(t.anse)
    && (forall i :: 0 <= i < 8 && t.dioe[i] != "1" ==> t.adi[i] == 0)
    && ZeroWhereAbsent(t.anse, t.ans) && Below24(t.anse, t.ans)
  }

  lemma DecodeEncodeSensors(t: AdSensors)
    requires CanonicalSensors(t)
    ensures EncodeSensors(t).Ok? && DecodeSensors(EncodeSensors(t).value) == Ok(t)
  {
    MaskReadBack(t.dioe);
    MaskReadBack(t.anse);
    var wd, wa := Shown(t.dioe, Octets(t.adi)), Shown(t.anse, Triples(t.ans));
    ShownFits(t.dioe, Octets(t.adi), 1);
    ShownFits(t.anse, Triples(t.ans), 3);
    var analog := WriteAll(MaskSlots(t.anse, 3), wa);
    ReadWritten(MaskSlots(t.dioe, 1), wd, analog);
    ReadWhole(MaskSlots(t.anse, 3), wa);
    OctetsReadBack(t.dioe, t.adi);
    TriplesReadBack(t.anse, t.ans);
    var e := EncodeSensors(t).value;
    assert e[3..] == WriteAll(MaskSlots(t.dioe, 1), wd) + analog;
  }

  lemma DigitalWrittenBack(m: seq<string>, b: seq<byte>)
    requires ReadAll(MaskSlots(m, 1), b).Ok?
    ensures var p := ReadAll(MaskSlots(m, 1), b).value;
            (forall i :: 0 <= i < |m| && m[i] != "1" ==> OctetValues(p.values)[i] == 0)
            && WriteAll(MaskSlots(m, 1), Octets(OctetValues(p.values))) + p.tail == b
  {
    WriteRead(MaskSlots(m, 1), b);
    var p := ReadAll(MaskSlots(m, 1), b).value;
    OctetsWrittenBack(m, p.values);
    ShownFits(m, Octets(OctetValues(p.values)), 1);
  }

  lemma AnalogWrittenBack(m: seq<string>, b: seq<byte>)
    requires ReadAll(MaskSlots(m, 3), b).Ok? && ReadAll(MaskSlots(m, 3), b).value.tail == []
    ensures var v := TripleValues(ReadAll(MaskSlots(m, 3), b).value.values);
            ZeroWhereAbsent(m, v) && Below24(m, v) && WriteAll(MaskSlots(m, 3), Triples(v)) == b
  {
    WriteWhole(MaskSlots(m, 3), b);
    var p := ReadAll(MaskSlots(m, 3), b).value;
    TriplesWrittenBack(m, p.values);
    ShownFits(m, Triples(TripleValues(p.values)), 3);
  }

  lemma EncodeDecodeSensors(b: seq<byte>)
    requires DecodeSensors(b).Ok?
    ensures CanonicalSensors(DecodeSensors(b).value) && EncodeSensors(DecodeSensors(b).value) == Ok(b)
  {
    var d, a := Mask(Bits8(b[0])), Mask(Bits8(b[2]));
    MaskWrittenBack(b[0]);
    MaskWrittenBack(b[2]);
    DigitalWrittenBack(d, b[3..]);
    AnalogWrittenBack(a, ReadAll(MaskSlots(d, 1), b[3..]).value.tail);
    assert [b[0], b[1], b[2]] + b[3..] == b;
  }
}
