/** EGTS_SR_AUTH_INFO (egts/subrecord/sr_auth_info.go): zero-terminated strings. */
module SrAuthInfo {
  import opened Bytes

  datatype AuthInfo = AuthInfo(unm: seq<byte>, upsw: seq<byte>, ss: Option<seq<byte>>)

  /** The octets before the first zero. */
  function Before(b: seq<byte>): (h: seq<byte>)
    ensures 0 !in h && |h| <= |b| && h == b[..|h|] && (|h| < |b| ==> b[|h|] == 0)
  {
    if b == [] || b[0] == 0 then [] else [b[0]] + Before(b[1..])
  }

  /** bytes.Split(b, {0}). */
  function SplitZero(b: seq<byte>): (fields: seq<seq<byte>>)
    ensures fields != []
    decreases |b|
  {
    var h := Before(b);
    if |h| == |b| then [h] else [h] + SplitZero(b[|h| + 1..])
  }

  function Decode(b: seq<byte>): Result<AuthInfo> {
    var fields := SplitZero(b);
    if (|fields| != 3 && |fields| != 4) || fields[|fields| - 1] != [] then Err
    else if |fields[0]| > 32 || |fields[1]| > 32 then Err
    else if |fields| == 4 then
      if |fields[2]| > 255 then Err else Ok(AuthInfo(fields[0], fields[1], Some(fields[2])))
    else Ok(AuthInfo(fields[0], fields[1], None))
  }

  function Encode(t: AuthInfo): Result<seq<byte>> {
    if |t.unm| > 32 || |t.upsw| > 32 || 0 in t.unm || 0 in t.upsw then Err
    else
      var names := t.unm + [0] + t.upsw + [0];
      match t.ss
      case None => Ok(names)
      case Some(s) => if 0 in s || |s| > 255 then Err else Ok(names + s + [0])
  }

  lemma {:induction false} BeforeZero(h: seq<byte>, rest: seq<byte>)
    requires 0 !in h
    ensures Before(h + [0] + rest) == h
    decreases |h|
  {
    var b := h + [0] + rest;
    if h == [] {
      assert b[0] == 0;
    } else {
      assert b[0] == h[0] && b[1..] == h[1..] + [0] + rest;
      BeforeZero(h[1..], rest);
    }
  }

  /** The fields with a zero between neighbours. */
  function Joined(fields: seq<seq<byte>>): seq<byte>
    requires fields != []
    decreases |fields|
  {
    if |fields| == 1 then fields[0] else fields[0] + [0] + Joined(fields[1..])
  }

  predicate ZeroFree(fields: seq<seq<byte>>) {
    forall i :: 0 <= i < |fields| ==> 0 !in fields[i]
  }

  lemma {:induction false} SplitOfJoined(fields: seq<seq<byte>>)
    requires fields != [] && ZeroFree(fields)
    ensures SplitZero(Joined(fields)) == fields
    decreases |fields|
  {
    var b := Joined(fields);
    if |fields| == 1 {
      WholeIsBefore(b);
      assert fields == [b];
    } else {
      BeforeZero(fields[0], Joined(fields[1..]));
      assert b[|fields[0]| + 1..] == Joined(fields[1..]);
      SplitOfJoined(fields[1..]);
    }
  }

  lemma {:induction false} WholeIsBefore(h: seq<byte>)
    requires 0 !in h
    ensures Before(h) == h
    decreases |h|
  {
    if h != [] {
      WholeIsBefore(h[1..]);
    }
  }

  lemma {:induction false} JoinedOfSplit(b: seq<byte>)
    ensures ZeroFree(SplitZero(b)) && Joined(SplitZero(b)) == b
    decreases |b|
  {
    var h := Before(b);
    if |h| == |b| {
      assert h == b;
    } else {
      var rest := b[|h| + 1..];
      JoinedOfSplit(rest);
      assert SplitZero(b)[1..] == SplitZero(rest);
      assert b == b[..|h|] + [b[|h|]] + rest;
    }
  }

  function FieldsOf(t: AuthInfo): (f: seq<seq<byte>>)
    ensures f != []
  {
    if t.ss.Some? then [t.unm, t.upsw, t.ss.value, []] else [t.unm, t.upsw, []]
  }

  lemma EncodeJoins(t: AuthInfo)
    requires Encode(t).Ok?
    ensures Encode(t).value == Joined(FieldsOf(t)) && ZeroFree(FieldsOf(t))
  {
    var f := FieldsOf(t);
    var e := Encode(t).value;
    forall i | 0 <= i < |f|
      ensures 0 !in f[i]
    {
      assert f[i] == t.unm || f[i] == t.upsw || f[i] == [] || (t.ss.Some? && f[i] == t.ss.value);
    }
    if t.ss.Some? {
      assert f[1..] == [t.upsw, t.ss.value, []] && f[1..][1..] == [t.ss.value, []] && f[1..][1..][1..] == [[]];
      assert [t.ss.value, []][1..] == [[]];
      var last := Joined([t.ss.value, []]);
      assert last == t.ss.value + [0] + Joined([[]]);
      assert Joined(f[1..]) == t.upsw + [0] + last;
      assert last == t.ss.value + [0];
      assert e == t.unm + [0] + (t.upsw + [0] + last);
    } else {
      assert f[1..] == [t.upsw, []] && f[1..][1..] == [[]];
      assert Joined(f[1..]) == t.upsw + [0];
      assert e == t.unm + [0] + (t.upsw + [0]);
    }
  }

  /** Everything Encode accepts is read back. */
  lemma DecodeEncode(t: AuthInfo)
    requires Encode(t).Ok?
    ensures Decode(Encode(t).value) == Ok(t)
  {
    EncodeJoins(t);
    SplitOfJoined(FieldsOf(t));
  }

  /** Everything Decode accepts is written back octet for octet. */
  lemma EncodeDecode(b: seq<byte>)
    requires Decode(b).Ok?
    ensures Encode(Decode(b).value) == Ok(b)
  {
    JoinedOfSplit(b);
    var t := Decode(b).value;
    var f := SplitZero(b);
    assert f == FieldsOf(t);
    assert 0 !in f[0] && 0 !in f[1] && 0 !in f[2];
    EncodeJoins(t);
  }
}
