/** Service data records and the frame that carries them (egts/packet/services_frame_data.go). */
module Services {
  import opened Bytes
  import opened Flags
  import opened Fields
  import Records

  datatype ServiceRecord = ServiceRecord(
    rl: uint16, rn: uint16,
    ssod: string, rsod: string, grp: string, rpp: string, tmfe: string, evfe: string, obfe: string,
    oid: uint32, evid: uint32, tm: uint32, sst: byte, rst: byte,
    rd: seq<Records.RecordData>)

  // ---- decoding ----

  function Slots(obfe: string, evfe: string, tmfe: string): (s: seq<Slot>)
    ensures |s| == 3
  {
    [Slot(obfe, 4), Slot(evfe, 4), Slot(tmfe, 4)]
  }

  function U32OrZero(b: seq<byte>): uint32 {
    if |b| == 4 then U32(b) else 0
  }

  /** The record Decode fills from its fixed part, its flag string and its optional fields. */
  function Build(rl: uint16, rn: uint16, f: string, v: seq<seq<byte>>, sst: byte, rst: byte, rd: seq<Records.RecordData>): ServiceRecord
    requires |f| == 8 && |v| == 3
  {
    ServiceRecord(rl, rn, [f[0]], [f[1]], [f[2]], [f[3], f[4]], [f[5]], [f[6]], [f[7]],
                  U32OrZero(v[0]), U32OrZero(v[1]), U32OrZero(v[2]), sst, rst, rd)
  }

  /** One record off the front of the buffer. */
  datatype Taken = Taken(record: ServiceRecord, tail: seq<byte>)

  function DecodeOne(b: seq<byte>): (r: Result<Taken>)
    ensures r.Ok? ==> |r.value.tail| < |b|
  {
    if |b| < 5 || U16(b[..2]) == 0 then Err
    else
      var rl := U16(b[..2]);
      var f := Bits8(b[4]);
      var p :- ReadAll(Slots([f[7]], [f[6]], [f[5]]), b[5..]);
      ReadShortens(Slots([f[7]], [f[6]], [f[5]]), b[5..]);
      if |p.tail| < 2 || rl > |p.tail| - 2 then Err
      else
        var rd :- Records.Decode(p.tail[2..2 + rl]);
        Ok(Taken(Build(rl, U16(b[2..4]), f, p.values, p.tail[0], p.tail[1], rd), p.tail[2 + rl..]))
  }

  lemma ReadShortens(slots: seq<Slot>, b: seq<byte>)
    requires ReadAll(slots, b).Ok?
    ensures |ReadAll(slots, b).value.tail| <= |b|
  {
    WriteRead(slots, b);
    var p := ReadAll(slots, b).value;
    assert |WriteAll(slots, p.values) + p.tail| == |b|;
  }

  function Decode(b: seq<byte>): Result<seq<ServiceRecord>>
    decreases |b|
  {
    if b == [] then Ok([])
    else
      var first :- DecodeOne(b);
      var rest :- Decode(first.tail);
      Ok([first.record] + rest)
  }

  method DecodeLoop(b: seq<byte>) returns (r: Result<seq<ServiceRecord>>)
    ensures r == Decode(b)
  {
    var buffer := b;
    var decoded: seq<ServiceRecord> := [];
    PrependNothing([], Decode(b));
    while buffer != []
      invariant Decode(b) == Prepend(decoded, Decode(buffer))
      decreases |buffer|
    {
      var taken := DecodeOne(buffer);
      if taken.Err? {
        return Err;
      }
      PrependTwice(decoded, [taken.value.record], Decode(taken.value.tail));
      decoded := decoded + [taken.value.record];
      buffer := taken.value.tail;
    }
    PrependNothing(decoded, Ok([]));
    return Ok(decoded);
  }

  // ---- encoding ----

  function FlagByte(s: ServiceRecord): Flags.Parsed {
    ParseBits(s.ssod + s.rsod + s.grp + s.rpp + s.tmfe + s.evfe + s.obfe)
  }

  predicate FlagsValid(s: ServiceRecord) {
    && IsFlag(s.ssod) && IsFlag(s.rsod) && IsFlag(s.grp) && |s.rpp| == 2
    && IsFlag(s.tmfe) && IsFlag(s.evfe) && IsFlag(s.obfe)
  }

  function SlotsOf(s: ServiceRecord): (r: seq<Slot>)
    ensures |r| == 3
  {
    Slots(s.obfe, s.evfe, s.tmfe)
  }

  function Values(s: ServiceRecord): (v: seq<seq<byte>>)
    ensures |v| == 3
  {
    [Le32(s.oid), Le32(s.evid), Le32(s.tm)]
  }

  function EncodeOne(s: ServiceRecord): Result<seq<byte>> {
    if !FlagsValid(s) || !FlagByte(s).Value? then Err
    else
      var rd :- Records.Encode(s.rd);
      if rd == [] || s.rl != |rd| then Err
      else Ok(Le16(s.rl) + Le16(s.rn) + [FlagByte(s).v] + (WriteAll(SlotsOf(s), Values(s)) + ([s.sst, s.rst] + rd)))
  }

  function Concat(ss: seq<ServiceRecord>): Result<seq<byte>>
    decreases |ss|
  {
    if ss == [] then Ok([])
    else
      var first :- EncodeOne(ss[0]);
      var rest :- Concat(ss[1..]);
      Ok(first + rest)
  }

  function Encode(ss: seq<ServiceRecord>): Result<seq<byte>> {
    var b :- Concat(ss);
    if |b| > 65535 then Err else Ok(b)
  }

  /** The encoding loop, which refuses as soon as the buffer would pass 65535 octets. */
  method EncodeLoop(ss: seq<ServiceRecord>) returns (r: Result<seq<byte>>)
    ensures r == Encode(ss)
  {
    var buffer: seq<byte> := [];
    assert ss[0..] == ss;
    PrependNothing([], Concat(ss));
    for i := 0 to |ss|
      invariant Concat(ss) == Prepend(buffer, Concat(ss[i..]))
      invariant |buffer| <= 65535
    {
      ConcatStep(ss, i);
      var one := EncodeOne(ss[i]);
      if one.Err? {
        return Err;
      }
      PrependTwice(buffer, one.value, Concat(ss[i + 1..]));
      if |buffer| + |one.value| > 65535 {
        return Err;
      }
      buffer := buffer + one.value;
    }
    PrependNothing(buffer, Ok([]));
    return Ok(buffer);
  }

  lemma ConcatStep(ss: seq<ServiceRecord>, i: nat)
    requires i < |ss|
    ensures Concat(ss[i..]) == match EncodeOne(ss[i])
                               case Ok(one) => Prepend(one, Concat(ss[i + 1..]))
                               case Err => Err
  {
    assert ss[i..][1..] == ss[i + 1..];
  }

  // ---- the laws ----

  predicate CanonicalOne(s: ServiceRecord) {
    && FlagsValid(s) && IsBits(s.rpp) && Records.Canonical(s.rd)
    && (s.obfe == "0" ==> s.oid == 0) && (s.evfe == "0" ==> s.evid == 0) && (s.tmfe == "0" ==> s.tm == 0)
  }

  predicate Canonical(ss: seq<ServiceRecord>) {
    forall i :: 0 <= i < |ss| ==> CanonicalOne(ss[i])
  }

  /** Where the subrecords of the record at the front of an accepted buffer start. */
  function BodyStart(b: seq<byte>): (n: nat)
    requires DecodeOne(b).Ok?
    ensures n + U16(b[..2]) <= |b|
  {
    var f := Bits8(b[4]);
    var p := ReadAll(Slots([f[7]], [f[6]], [f[5]]), b[5..]).value;
    ReadShortens(Slots([f[7]], [f[6]], [f[5]]), b[5..]);
    |b| - |p.tail| + 2
  }

  function Body(b: seq<byte>): (rd: seq<byte>)
    requires DecodeOne(b).Ok?
  {
    b[BodyStart(b)..BodyStart(b) + U16(b[..2])]
  }

  lemma BodyDecodes(b: seq<byte>)
    requires DecodeOne(b).Ok?
    ensures Records.Decode(Body(b)).Ok? && Records.Decode(Body(b)).value == DecodeOne(b).value.record.rd
  {
    hide Bits8, ReadAll, WriteAll, Records.Decode, Records.Canonical, FlagByte, FlagsValid, Fit;
    var f := Bits8(b[4]);
    var slots := Slots([f[7]], [f[6]], [f[5]]);
    var p := ReadAll(slots, b[5..]).value;
    WriteRead(slots, b[5..]);
    var rl: nat := U16(b[..2]);
    var w := WriteAll(slots, p.values);
    assert w + p.tail == b[5..];
    assert b[5 + |w|..] == p.tail;
    assert Body(b) == p.tail[2..2 + rl];
  }

  predicate Exact(b: seq<byte>)
    requires Decode(b).Ok?
    decreases |b|
  {
    b == [] || (BodyDecodes(b); Records.Exact(Body(b)) && Exact(DecodeOne(b).value.tail))
  }

  function WrittenOne(s: ServiceRecord): ServiceRecord {
    s.(rd := Records.Written(s.rd))
  }

  /** The list as another party reads it after Encode. */
  function Written(ss: seq<ServiceRecord>): (w: seq<ServiceRecord>)
    ensures |w| == |ss|
  {
    if ss == [] then [] else [WrittenOne(ss[0])] + Written(ss[1..])
  }

  predicate Unplaced(ss: seq<ServiceRecord>) {
    forall i :: 0 <= i < |ss| ==> Records.Unplaced(ss[i].rd)
  }

  lemma {:induction false} WrittenSame(ss: seq<ServiceRecord>)
    requires Unplaced(ss)
    ensures Written(ss) == ss
  {
    if ss != [] {
      assert Records.Unplaced(ss[0].rd);
      Records.WrittenSame(ss[0].rd);
      hide Records.Written;
      WrittenSame(ss[1..]);
      assert ss == [ss[0]] + ss[1..];
    }
  }

  // One record.

  function Opt32(flag: string, x: uint32): seq<byte> {
    if flag == "1" then Le32(x) else []
  }

  function Present(s: ServiceRecord): (v: seq<seq<byte>>)
    ensures |v| == 3
  {
    [Opt32(s.obfe, s.oid), Opt32(s.evfe, s.evid), Opt32(s.tmfe, s.tm)]
  }

  lemma WritesPresent(s: ServiceRecord)
    ensures WriteAll(SlotsOf(s), Values(s)) == WriteAll(SlotsOf(s), Present(s))
    ensures Fit(SlotsOf(s), Present(s))
  {
    WriteDropsAbsent(SlotsOf(s), Values(s), Present(s));
  }

  lemma Optional32(flag: string, x: uint32, b: seq<byte>)
    ensures (flag != "1" ==> x == 0) ==> U32OrZero(Opt32(flag, x)) == x
    ensures |b| == (if flag == "1" then 4 else 0) ==>
            Opt32(flag, U32OrZero(b)) == b && (flag != "1" ==> U32OrZero(b) == 0)
  {
    Le32Inverse(x);
    if |b| == 4 {
      U32Inverse(b);
    }
  }

  lemma FlagsAsJoin(s: ServiceRecord)
    requires |s.rpp| == 2
    ensures s.ssod + s.rsod + s.grp + s.rpp + s.tmfe + s.evfe + s.obfe
         == Join(s.ssod, s.rsod, s.grp, [s.rpp[0]], [s.rpp[1]], s.tmfe, s.evfe, s.obfe)
  {
    assert s.rpp == [s.rpp[0]] + [s.rpp[1]];
    var h := s.ssod + s.rsod + s.grp;
    assert h + ([s.rpp[0]] + [s.rpp[1]]) == h + [s.rpp[0]] + [s.rpp[1]];
  }

  lemma FlagByteReads(s: ServiceRecord)
    requires CanonicalOne(s)
    ensures FlagByte(s).Value?
    ensures Bits8(FlagByte(s).v)
         == [s.ssod[0], s.rsod[0], s.grp[0], s.rpp[0], s.rpp[1], s.tmfe[0], s.evfe[0], s.obfe[0]]
  {
    FlagsAsJoin(s);
    FlagsReadBack(s.ssod, s.rsod, s.grp, [s.rpp[0]], [s.rpp[1]], s.tmfe, s.evfe, s.obfe);
  }

  /** A canonical record is rebuilt from its own flags and fields. */
  lemma BuiltFromParts(s: ServiceRecord, f: string)
    requires CanonicalOne(s)
    requires f == [s.ssod[0], s.rsod[0], s.grp[0], s.rpp[0], s.rpp[1], s.tmfe[0], s.evfe[0], s.obfe[0]]
    ensures Slots([f[7]], [f[6]], [f[5]]) == SlotsOf(s)
    ensures Build(s.rl, s.rn, f, Present(s), s.sst, s.rst, s.rd) == s
  {
    Optional32(s.obfe, s.oid, []);
    Optional32(s.evfe, s.evid, []);
    Optional32(s.tmfe, s.tm, []);
    assert [f[0]] == s.ssod && [f[1]] == s.rsod && [f[2]] == s.grp && [f[3], f[4]] == s.rpp;
    assert [f[5]] == s.tmfe && [f[6]] == s.evfe && [f[7]] == s.obfe;
  }

  /** What DecodeOne does with a buffer cut into its parts. */
  lemma DecodeParts(rl: uint16, rn: uint16, fl: byte, w: seq<byte>, v: seq<seq<byte>>, sst: byte, rst: byte,
                    rd: seq<byte>, tail: seq<byte>)
    requires rl != 0 && rl == |rd| && |v| == 3 && Records.Decode(rd).Ok?
    requires var f := Bits8(fl);
             ReadAll(Slots([f[7]], [f[6]], [f[5]]), w + ([sst, rst] + rd + tail)) == Ok(Parsed(v, [sst, rst] + rd + tail))
    ensures DecodeOne(Le16(rl) + Le16(rn) + [fl] + (w + ([sst, rst] + rd)) + tail)
         == Ok(Taken(Build(rl, rn, Bits8(fl), v, sst, rst, Records.Decode(rd).value), tail))
  {
    var head := Le16(rl) + Le16(rn) + [fl];
    var rest := [sst, rst] + rd + tail;
    var b := head + (w + ([sst, rst] + rd)) + tail;
    assert b[5..] == w + rest;
    assert b[..2] == Le16(rl) && b[2..4] == Le16(rn) && b[4] == fl;
    Le16Inverse(rl);
    Le16Inverse(rn);
    assert rest[2..2 + rl] == rd && rest[2 + rl..] == tail;
  }

  lemma DecodeFront(s: ServiceRecord, tail: seq<byte>)
    requires CanonicalOne(s) && EncodeOne(s).Ok?
    ensures DecodeOne(EncodeOne(s).value + tail) == Ok(Taken(WrittenOne(s), tail))
  {
    var rd := Records.Encode(s.rd).value;
    Records.DecodeEncode(s.rd);
    FlagByteReads(s);
    BuiltFromParts(s, Bits8(FlagByte(s).v));
    WritesPresent(s);
    ReadWritten(SlotsOf(s), Present(s), [s.sst, s.rst] + rd + tail);
    DecodeParts(s.rl, s.rn, FlagByte(s).v, WriteAll(SlotsOf(s), Present(s)), Present(s), s.sst, s.rst, rd, tail);
  }

  /** Fields read under an octet's flags make a record that keeps them. */
  lemma BuildKeeps(rl: uint16, rn: uint16, fl: byte, v: seq<seq<byte>>, sst: byte, rst: byte, rd: seq<Records.RecordData>)
    requires |v| == 3 && Records.Canonical(rd)
    requires var f := Bits8(fl); Fit(Slots([f[7]], [f[6]], [f[5]]), v)
    ensures var s := Build(rl, rn, Bits8(fl), v, sst, rst, rd);
            CanonicalOne(s) && Present(s) == v && FlagByte(s) == Value(fl)
  {
    hide Bits8, Records.Canonical, ParseBits;
    var f := Bits8(fl);
    var slots := Slots([f[7]], [f[6]], [f[5]]);
    var s := Build(rl, rn, f, v, sst, rst, rd);
    assert |v[0]| == (if slots[0].flag == "1" then 4 else 0);
    assert |v[1]| == (if slots[1].flag == "1" then 4 else 0);
    assert |v[2]| == (if slots[2].flag == "1" then 4 else 0);
    Optional32([f[7]], 0, v[0]);
    Optional32([f[6]], 0, v[1]);
    Optional32([f[5]], 0, v[2]);
    assert Present(s) == [v[0], v[1], v[2]] == v;
    FlagsAsJoin(s);
    FlagsWrittenBack(fl);
  }

  /** Putting the pieces of a buffer back together. */
  lemma Reassemble(b: seq<byte>, w: seq<byte>, p: seq<byte>, rl: nat)
    requires |b| >= 5 && b[5..] == w + p && 2 + rl <= |p|
    ensures b == b[..2] + b[2..4] + [b[4]] + (w + ([p[0], p[1]] + p[2..2 + rl])) + p[2 + rl..]
  {
    var head := b[..2] + b[2..4] + [b[4]];
    assert b == head + (w + p);
    assert p == [p[0], p[1]] + p[2..2 + rl] + p[2 + rl..];
    assert w + ([p[0], p[1]] + p[2..2 + rl] + p[2 + rl..]) == w + ([p[0], p[1]] + p[2..2 + rl]) + p[2 + rl..];
    assert head + (w + ([p[0], p[1]] + p[2..2 + rl]) + p[2 + rl..]) == head + (w + ([p[0], p[1]] + p[2..2 + rl])) + p[2 + rl..];
  }

  lemma BodyIs(b: seq<byte>, w: seq<byte>, p: seq<byte>)
    requires DecodeOne(b).Ok?
    requires var f := Bits8(b[4]); ReadAll(Slots([f[7]], [f[6]], [f[5]]), b[5..]).value.tail == p
    requires b[5..] == w + p
    ensures var rl: nat := U16(b[..2]); |p| >= 2 + rl && Body(b) == p[2..2 + rl] && rl > 0
  {
    assert b[5 + |w|..] == p;
  }

  lemma DecodedParts(b: seq<byte>, slots: seq<Slot>, p: Fields.Parsed)
    requires DecodeOne(b).Ok?
    requires var f := Bits8(b[4]); slots == Slots([f[7]], [f[6]], [f[5]])
    requires ReadAll(slots, b[5..]) == Ok(p)
    ensures var rl: nat := U16(b[..2]); 0 < rl && 2 + rl <= |p.tail| && |p.values| == 3
    ensures var s := DecodeOne(b).value.record;
            s == Build(U16(b[..2]), U16(b[2..4]), Bits8(b[4]), p.values, p.tail[0], p.tail[1], s.rd)
    ensures DecodeOne(b).value.tail == p.tail[2 + U16(b[..2])..]
  {
    hide Bits8, Records.Decode;
    WriteRead(slots, b[5..]);
  }

  lemma BuiltFields(rl: uint16, rn: uint16, f: string, v: seq<seq<byte>>, sst: byte, rst: byte, rd: seq<Records.RecordData>)
    requires |f| == 8 && |v| == 3
    ensures var s := Build(rl, rn, f, v, sst, rst, rd);
            s.rl == rl && s.rn == rn && s.sst == sst && s.rst == rst && s.rd == rd && SlotsOf(s) == Slots([f[7]], [f[6]], [f[5]])
  {
  }

  lemma DecodedCanonical(b: seq<byte>)
    requires DecodeOne(b).Ok?
    ensures var s := DecodeOne(b).value.record; CanonicalOne(s) && FlagByte(s) == Value(b[4]) && s.rl == |Body(b)| > 0
  {
    var f := Bits8(b[4]);
    var slots := Slots([f[7]], [f[6]], [f[5]]);
    var p := ReadAll(slots, b[5..]).value;
    hide Bits8, ReadAll, WriteAll, Records.Decode, Records.Canonical, FlagByte, FlagsValid, Fit, Build, DecodeOne, Body, Present,
         Values, CanonicalOne, Slots, SlotsOf, U16, Le16;
    DecodedParts(b, slots, p);
    WriteRead(slots, b[5..]);
    var rl: uint16 := U16(b[..2]);
    var s := DecodeOne(b).value.record;
    BodyDecodes(b);
    Records.EncodeDecode(Body(b));
    BuiltFields(rl, U16(b[2..4]), f, p.values, p.tail[0], p.tail[1], s.rd);
    BuildKeeps(rl, U16(b[2..4]), b[4], p.values, p.tail[0], p.tail[1], s.rd);
    BodyIs(b, WriteAll(slots, p.values), p.tail);
  }

  lemma DecodedOctets(b: seq<byte>)
    requires DecodeOne(b).Ok?
    ensures var s := DecodeOne(b).value.record;
            b == Le16(s.rl) + Le16(s.rn) + [b[4]] + (WriteAll(SlotsOf(s), Values(s)) + ([s.sst, s.rst] + Body(b)))
                 + DecodeOne(b).value.tail
  {
    var f := Bits8(b[4]);
    var slots := Slots([f[7]], [f[6]], [f[5]]);
    var p := ReadAll(slots, b[5..]).value;
    hide Bits8, ReadAll, WriteAll, Records.Decode, Records.Canonical, FlagByte, FlagsValid, Fit, Build, DecodeOne, Body, Present,
         Values, CanonicalOne, Slots, SlotsOf, U16, Le16;
    DecodedParts(b, slots, p);
    WriteRead(slots, b[5..]);
    var w := WriteAll(slots, p.values);
    var rl: uint16 := U16(b[..2]);
    var s := DecodeOne(b).value.record;
    BuiltFields(rl, U16(b[2..4]), f, p.values, p.tail[0], p.tail[1], s.rd);
    BodyDecodes(b);
    Records.EncodeDecode(Body(b));
    BuildKeeps(rl, U16(b[2..4]), b[4], p.values, p.tail[0], p.tail[1], s.rd);
    WritesPresent(s);
    BodyIs(b, w, p.tail);
    U16Inverse(b[..2]);
    U16Inverse(b[2..4]);
    assert WriteAll(SlotsOf(s), Values(s)) == w;
    PutTogether(b, w, p.tail, s, Body(b), DecodeOne(b).value.tail);
  }

  /** An accepted record cut into its parts. */
  lemma DecodedOne(b: seq<byte>)
    requires DecodeOne(b).Ok?
    ensures var s := DecodeOne(b).value.record;
            CanonicalOne(s) && FlagByte(s) == Value(b[4]) && s.rl == |Body(b)| > 0
            && b == Le16(s.rl) + Le16(s.rn) + [b[4]] + (WriteAll(SlotsOf(s), Values(s)) + ([s.sst, s.rst] + Body(b)))
                    + DecodeOne(b).value.tail
  {
    DecodedCanonical(b);
    DecodedOctets(b);
  }

  lemma PutTogether(b: seq<byte>, w: seq<byte>, p: seq<byte>, s: ServiceRecord, body: seq<byte>, tail: seq<byte>)
    requires |b| >= 5 && b[5..] == w + p && 2 + s.rl as int <= |p|
    requires b[..2] == Le16(s.rl) && b[2..4] == Le16(s.rn) && p[0] == s.sst && p[1] == s.rst
    requires body == p[2..2 + s.rl] && tail == p[2 + s.rl..]
    ensures b == Le16(s.rl) + Le16(s.rn) + [b[4]] + (w + ([s.sst, s.rst] + body)) + tail
  {
    hide Le16;
    Reassemble(b, w, p, s.rl);
  }

  /** One accepted record written again. */
  lemma EncodeFront(b: seq<byte>)
    requires DecodeOne(b).Ok? && |b| <= 65535
    ensures var s := DecodeOne(b).value.record; var tail := DecodeOne(b).value.tail;
            CanonicalOne(s) && b == b[..|b| - |tail|] + tail
            && (EncodeOne(s).Ok? ==> |EncodeOne(s).value| == |b| - |tail|)
            && (EncodeOne(s) == Ok(b[..|b| - |tail|]) <==> (BodyDecodes(b); Records.Exact(Body(b))))
  {
    var s := DecodeOne(b).value.record;
    var tail := DecodeOne(b).value.tail;
    DecodedOne(b);
    BodyDecodes(b);
    Records.EncodeDecode(Body(b));
    var head := Le16(s.rl) + Le16(s.rn) + [b[4]];
    var w := WriteAll(SlotsOf(s), Values(s));
    var own := head + (w + ([s.sst, s.rst] + Body(b)));
    assert b == own + tail;
    assert b[..|b| - |tail|] == own;
    if Records.Encode(s.rd).Ok? {
      var rd := Records.Encode(s.rd).value;
      SplitSame([s.sst, s.rst], rd, [s.sst, s.rst], Body(b));
      SplitSame(w, [s.sst, s.rst] + rd, w, [s.sst, s.rst] + Body(b));
      SplitSame(head, w + ([s.sst, s.rst] + rd), head, w + ([s.sst, s.rst] + Body(b)));
    }
  }

  /** A canonical frame that Encode accepts is read back, but for coordinates that slip. */
  lemma {:induction false} DecodeEncode(ss: seq<ServiceRecord>)
    requires Canonical(ss) && Concat(ss).Ok?
    ensures Decode(Concat(ss).value) == Ok(Written(ss))
    decreases |ss|
  {
    if ss != [] {
      hide CanonicalOne, EncodeOne, DecodeOne, WrittenOne;
      assert CanonicalOne(ss[0]);
      DecodeEncode(ss[1..]);
      DecodeFront(ss[0], Concat(ss[1..]).value);
    }
  }

  /** Every accepted frame is canonical, and is written back octet for octet exactly when none of
      its subrecords lost anything. */
  lemma {:induction false} EncodeDecode(b: seq<byte>)
    requires Decode(b).Ok? && |b| <= 65535
    ensures var ss := Decode(b).value; Canonical(ss) && (Concat(ss) == Ok(b) <==> Exact(b))
    decreases |b|
  {
    if b != [] {
      var ss := Decode(b).value;
      var tail := DecodeOne(b).value.tail;
      EncodeFront(b);
      EncodeDecode(tail);
      assert ss[1..] == Decode(tail).value;
      forall i | 0 <= i < |ss|
        ensures CanonicalOne(ss[i])
      {
        if i > 0 {
          assert ss[i] == ss[1..][i - 1];
        }
      }
      if EncodeOne(ss[0]).Ok? && Concat(ss[1..]).Ok? {
        SplitSame(EncodeOne(ss[0]).value, Concat(ss[1..]).value, b[..|b| - |tail|], tail);
      }
    }
  }
}
