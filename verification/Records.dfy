/** The list of subrecords of one service record (egts/packet/record_data.go). */
module Records {
  import opened Bytes
  import S = Subrecords

  datatype RecordData = RecordData(srt: byte, srl: uint16, srd: S.Subrecord)

  /** The subrecord list of a buffer; any trouble in one subrecord refuses the whole list. */
  function Decode(b: seq<byte>): Result<seq<RecordData>>
    decreases |b|
  {
    if b == [] then Ok([])
    else if |b| < 3 then Err
    else
      var srl := U16(b[1..3]);
      if srl > |b| - 3 then Err
      else
        var srd :- S.Decode(b[0], b[3..3 + srl]);
        var rest :- Decode(b[3 + srl..]);
        Ok([RecordData(b[0], srl, srd)] + rest)
  }

  function EncodeOne(r: RecordData): Result<seq<byte>> {
    var sd :- S.Encode(r.srd);
    if r.srl != |sd| then Err else Ok([r.srt] + Le16(r.srl) + sd)
  }

  /** The subrecords one after the other, whatever their total length. */
  function Concat(rs: seq<RecordData>): Result<seq<byte>>
    decreases |rs|
  {
    if rs == [] then Ok([])
    else
      var first :- EncodeOne(rs[0]);
      var rest :- Concat(rs[1..]);
      Ok(first + rest)
  }

  function Encode(rs: seq<RecordData>): Result<seq<byte>> {
    var b :- Concat(rs);
    if |b| > 65535 then Err else Ok(b)
  }

  // ---- the loops ----

  /** The decoding loop: take a subrecord off the front of the buffer, append it to the list. */
  method DecodeLoop(b: seq<byte>) returns (r: Result<seq<RecordData>>)
    ensures r == Decode(b)
  {
    var buffer := b;
    var decoded: seq<RecordData> := [];
    PrependNothing([], Decode(b));
    while buffer != []
      invariant Decode(b) == Prepend(decoded, Decode(buffer))
      decreases |buffer|
    {
      if |buffer| < 3 {
        return Err;
      }
      var srl := U16(buffer[1..3]);
      if srl > |buffer| - 3 {
        return Err;
      }
      var srd := S.Decode(buffer[0], buffer[3..3 + srl]);
      if srd.Err? {
        return Err;
      }
      PrependTwice(decoded, [RecordData(buffer[0], srl, srd.value)], Decode(buffer[3 + srl..]));
      decoded := decoded + [RecordData(buffer[0], srl, srd.value)];
      buffer := buffer[3 + srl..];
    }
    PrependNothing(decoded, Ok([]));
    return Ok(decoded);
  }

  /** The encoding loop, which refuses as soon as the buffer would pass 65535 octets. */
  method EncodeLoop(rs: seq<RecordData>) returns (r: Result<seq<byte>>)
    ensures r == Encode(rs)
  {
    var buffer: seq<byte> := [];
    assert rs[0..] == rs;
    PrependNothing([], Concat(rs));
    for i := 0 to |rs|
      invariant Concat(rs) == Prepend(buffer, Concat(rs[i..]))
      invariant |buffer| <= 65535
    {
      ConcatStep(rs, i);
      var sd := S.Encode(rs[i].srd);
      if sd.Err? || rs[i].srl != |sd.value| {
        return Err;
      }
      var one := [rs[i].srt] + Le16(rs[i].srl) + sd.value;
      PrependTwice(buffer, one, Concat(rs[i + 1..]));
      if |buffer| + 3 + |sd.value| > 65535 {
        return Err;
      }
      buffer := buffer + one;
    }
    PrependNothing(buffer, Ok([]));
    return Ok(buffer);
  }

  lemma ConcatStep(rs: seq<RecordData>, i: nat)
    requires i < |rs|
    ensures Concat(rs[i..]) == match EncodeOne(rs[i])
                               case Ok(one) => Prepend(one, Concat(rs[i + 1..]))
                               case Err => Err
  {
    assert rs[i..][1..] == rs[i + 1..];
  }

  // ---- the laws ----

  /** A subrecord as Decode builds it. */
  predicate CanonicalOne(r: RecordData) {
    r.srt == S.TypeOf(r.srd) && S.Canonical(r.srd)
  }

  predicate Canonical(rs: seq<RecordData>) {
    forall i :: 0 <= i < |rs| ==> CanonicalOne(rs[i])
  }

  /** Every subrecord of an accepted buffer is one that loses nothing. */
  predicate Exact(b: seq<byte>)
    requires Decode(b).Ok?
    decreases |b|
  {
    b == []
    || (var srl := U16(b[1..3]); S.Exact(b[0], b[3..3 + srl]) && Exact(b[3 + srl..]))
  }

  function WrittenOne(r: RecordData): RecordData {
    r.(srd := S.Written(r.srd))
  }

  /** The list as another party reads it after Encode. */
  function Written(rs: seq<RecordData>): (w: seq<RecordData>)
    ensures |w| == |rs|
  {
    if rs == [] then [] else [WrittenOne(rs[0])] + Written(rs[1..])
  }

  predicate Unplaced(rs: seq<RecordData>) {
    forall i :: 0 <= i < |rs| ==> !rs[i].srd.Position?
  }

  /** Only positions can come back changed. */
  lemma {:induction false} WrittenSame(rs: seq<RecordData>)
    requires Unplaced(rs)
    ensures Written(rs) == rs
  {
    if rs != [] {
      assert !rs[0].srd.Position?;
      WrittenSame(rs[1..]);
      assert rs == [rs[0]] + rs[1..];
    }
  }

  lemma DecodeFront(r: RecordData, sd: seq<byte>, tail: seq<byte>)
    requires |sd| == r.srl && S.Decode(r.srt, sd) == Ok(S.Written(r.srd))
    ensures Decode([r.srt] + Le16(r.srl) + sd + tail) == Prepend([WrittenOne(r)], Decode(tail))
  {
    var b := [r.srt] + Le16(r.srl) + sd + tail;
    assert b[1..3] == Le16(r.srl) && b[3..3 + r.srl] == sd && b[3 + r.srl..] == tail;
    Le16Inverse(r.srl);
  }

  /** A canonical list that Encode accepts is read back, but for coordinates that slip. */
  lemma {:induction false} DecodeEncode(rs: seq<RecordData>)
    requires Canonical(rs) && Concat(rs).Ok?
    ensures Decode(Concat(rs).value) == Ok(Written(rs))
    decreases |rs|
  {
    if rs != [] {
      var r := rs[0];
      assert CanonicalOne(r);
      S.DecodeEncode(r.srd);
      var sd := S.Encode(r.srd).value;
      var tail := Concat(rs[1..]).value;
      DecodeEncode(rs[1..]);
      DecodeFront(r, sd, tail);
    }
  }

  /** One accepted subrecord written again. */
  lemma EncodeFront(b: seq<byte>)
    requires b != [] && Decode(b).Ok?
    ensures var srl: nat := U16(b[1..3]); var r := Decode(b).value[0];
            CanonicalOne(r) && b == b[..3 + srl] + b[3 + srl..]
            && (EncodeOne(r).Ok? ==> |EncodeOne(r).value| == 3 + srl)
            && (EncodeOne(r) == Ok(b[..3 + srl]) <==> S.Exact(b[0], b[3..3 + srl]))
  {
    var srl: nat := U16(b[1..3]);
    var body := b[3..3 + srl];
    var r := Decode(b).value[0];
    assert r == RecordData(b[0], srl, S.Decode(b[0], body).value);
    S.EncodeDecode(b[0], body);
    var sd := S.Encode(r.srd).value;
    assert EncodeOne(r) == if srl != |sd| then Err else Ok([b[0]] + Le16(srl) + sd);
    Front(b, srl, sd);
  }

  lemma Front(b: seq<byte>, srl: uint16, sd: seq<byte>)
    requires 3 + srl <= |b| && srl == U16(b[1..3])
    ensures b == b[..3 + srl] + b[3 + srl..]
    ensures [b[0]] + Le16(srl) + sd == b[..3 + srl] <==> sd == b[3..3 + srl]
  {
    U16Inverse(b[1..3]);
    var head := [b[0]] + b[1..3];
    assert b[..3 + srl] == head + b[3..3 + srl];
    SplitSame(head, sd, head, b[3..3 + srl]);
  }

  /** Every accepted list is canonical, and is written back octet for octet exactly when none of
      its subrecords lost anything. */
  lemma {:induction false} EncodeDecode(b: seq<byte>)
    requires Decode(b).Ok?
    ensures var rs := Decode(b).value; Canonical(rs) && (Concat(rs) == Ok(b) <==> Exact(b))
    decreases |b|
  {
    if b != [] {
      var srl: nat := U16(b[1..3]);
      var rs := Decode(b).value;
      var tail := b[3 + srl..];
      EncodeFront(b);
      EncodeDecode(tail);
      assert rs[1..] == Decode(tail).value;
      forall i | 0 <= i < |rs|
        ensures CanonicalOne(rs[i])
      {
        if i > 0 {
          assert rs[i] == rs[1..][i - 1];
        }
      }
      if EncodeOne(rs[0]).Ok? && Concat(rs[1..]).Ok? {
        SplitSame(EncodeOne(rs[0]).value, Concat(rs[1..]).value, b[..3 + srl], tail);
      }
    }
  }
}
