/** EGTS_SR_TERM_IDENTITY (egts/subrecord/sr_term_identity.go). */
module SrTermIdentity {
  import opened Bytes
  import opened Flags
  import opened Fields

  datatype TermIdentity = TermIdentity(
    tid: uint32,
    mne: string, bse: string, nide: string, ssra: string, lngce: string, imsie: string, imeie: string, hdide: string,
    hdid: uint16, imei: seq<byte>, imsi: seq<byte>, lngc: seq<byte>, nid: seq<byte>, bs: uint16, msisdn: seq<byte>)

  function Slots(hdide: string, imeie: string, imsie: string, lngce: string, nide: string, bse: string, mne: string): (s: seq<Slot>)
    ensures |s| == 7
  {
    [Slot(hdide, 2), Slot(imeie, 15), Slot(imsie, 16), Slot(lngce, 3), Slot(nide, 3), Slot(bse, 2), Slot(mne, 15)]
  }

  /** The structure Decode fills from the identifier, the flag string and the optional fields. */
  function Build(tid: uint32, f: string, v: seq<seq<byte>>): TermIdentity
    requires |f| == 8 && |v| == 7
  {
    TermIdentity(tid, [f[0]], [f[1]], [f[2]], [f[3]], [f[4]], [f[5]], [f[6]], [f[7]],
                 U16OrZero(v[0]), v[1], v[2], v[3], v[4], U16OrZero(v[5]), v[6])
  }

  function FlagSlots(f: string): (s: seq<Slot>)
    requires |f| == 8
    ensures |s| == 7
  {
    Slots([f[7]], [f[6]], [f[5]], [f[4]], [f[2]], [f[1]], [f[0]])
  }

  function Decode(b: seq<byte>): Result<TermIdentity> {
    if |b| < 5 then Err
    else
      var f := Bits8(b[4]);
      var p :- ReadAll(FlagSlots(f), b[5..]);
      if p.tail != [] then Err else Ok(Build(U32(b[..4]), f, p.values))
  }

  /** The flags as Encode joins them; a join that does not parse is written as 0 or 255, never
      refused. */
  function FlagByte(t: TermIdentity): byte {
    match ParseBits(Join(t.mne, t.bse, t.nide, t.ssra, t.lngce, t.imsie, t.imeie, t.hdide))
    case Value(v) => v
    case SyntaxError => 0
    case RangeError => 255
  }

  function SlotsOf(t: TermIdentity): (s: seq<Slot>)
    ensures |s| == 7
  {
    Slots(t.hdide, t.imeie, t.imsie, t.lngce, t.nide, t.bse, t.mne)
  }

  function Values(t: TermIdentity): (v: seq<seq<byte>>)
    ensures |v| == 7
  {
    [Le16(t.hdid), t.imei, t.imsi, t.lngc, t.nid, Le16(t.bs), t.msisdn]
  }

  function Encode(t: TermIdentity): Result<seq<byte>> {
    Ok(Le32(t.tid) + [FlagByte(t)] + WriteAll(SlotsOf(t), Values(t)))
  }

  /** A field of n octets exactly when its flag is set. */
  predicate Sized(flag: string, field: seq<byte>, n: nat) {
    |field| == if flag == "1" then n else 0
  }

  /** The identities Decode can return. */
  predicate Canonical(t: TermIdentity) {
    && IsFlag(t.mne) && IsFlag(t.bse) && IsFlag(t.nide) && IsFlag(t.ssra)
    && IsFlag(t.lngce) && IsFlag(t.imsie) && IsFlag(t.imeie) && IsFlag(t.hdide)
    && (t.hdide == "0" ==> t.hdid == 0) && (t.bse == "0" ==> t.bs == 0)
    && Sized(t.imeie, t.imei, 15) && Sized(t.imsie, t.imsi, 16) && Sized(t.lngce, t.lngc, 3)
    && Sized(t.nide, t.nid, 3) && Sized(t.mne, t.msisdn, 15)
  }

  /** The field values as they stand on the wire. */
  function Present(t: TermIdentity): (v: seq<seq<byte>>)
    ensures |v| == 7
  {
    [if t.hdide == "1" then Le16(t.hdid) else [], t.imei, t.imsi, t.lngc, t.nid,
     if t.bse == "1" then Le16(t.bs) else [], t.msisdn]
  }

  lemma WritesPresent(t: TermIdentity)
    ensures WriteAll(SlotsOf(t), Values(t)) == WriteAll(SlotsOf(t), Present(t))
  {
    WriteDropsAbsent(SlotsOf(t), Values(t), Present(t));
  }

  lemma BuildFlags(tid: uint32, f: string, v: seq<seq<byte>>)
    requires |f| == 8 && IsBits(f) && |v| == 7
    ensures var t := Build(tid, f, v);
            SlotsOf(t) == FlagSlots(f)
            && IsFlag(t.mne) && IsFlag(t.bse) && IsFlag(t.nide) && IsFlag(t.ssra)
            && IsFlag(t.lngce) && IsFlag(t.imsie) && IsFlag(t.imeie) && IsFlag(t.hdide)
  {
  }

  /** Fields read under the flags of an octet make a canonical identity that keeps them. */
  lemma BuildCanonical(tid: uint32, f: string, v: seq<seq<byte>>)
    requires |f| == 8 && IsBits(f) && |v| == 7 && Fit(FlagSlots(f), v)
    ensures var t := Build(tid, f, v); Canonical(t) && SlotsOf(t) == FlagSlots(f) && Present(t) == v
  {
    BuildFlags(tid, f, v);
    var s := FlagSlots(f);
    FitsOne(s, v, 0);
    FitsOne(s, v, 5);
    OptionalField([f[7]], v[0]);
    OptionalField([f[1]], v[5]);
    BuildSized(tid, f, v);
    assert v == [v[0], v[1], v[2], v[3], v[4], v[5], v[6]];
  }

  lemma BuildSized(tid: uint32, f: string, v: seq<seq<byte>>)
    requires |f| == 8 && |v| == 7 && Fit(FlagSlots(f), v)
    ensures var t := Build(tid, f, v);
            Sized(t.imeie, t.imei, 15) && Sized(t.imsie, t.imsi, 16) && Sized(t.lngce, t.lngc, 3)
            && Sized(t.nide, t.nid, 3) && Sized(t.mne, t.msisdn, 15)
  {
    var s := FlagSlots(f);
    FitsOne(s, v, 1);
    FitsOne(s, v, 2);
    FitsOne(s, v, 3);
    FitsOne(s, v, 4);
    FitsOne(s, v, 6);
  }

  lemma FitsOne(s: seq<Slot>, v: seq<seq<byte>>, i: nat)
    requires Fit(s, v) && i < |s|
    ensures |v[i]| == if s[i].flag == "1" then s[i].n else 0
  {
  }

  lemma PresentFits(t: TermIdentity)
    requires Canonical(t)
    ensures Fit(SlotsOf(t), Present(t))
  {
    var s, v := SlotsOf(t), Present(t);
    forall i | 0 <= i < 7
      ensures |v[i]| == if s[i].flag == "1" then s[i].n else 0
    {
      if i == 0 || i == 5 {
      } else if i == 1 || i == 2 {
      } else if i == 3 || i == 4 {
      }
    }
  }

  /** A canonical identity is built from its own flags and fields. */
  lemma BuiltFromParts(t: TermIdentity, f: string)
    requires Canonical(t)
    requires f == [t.mne[0], t.bse[0], t.nide[0], t.ssra[0], t.lngce[0], t.imsie[0], t.imeie[0], t.hdide[0]]
    ensures FlagSlots(f) == SlotsOf(t) && Build(t.tid, f, Present(t)) == t
  {
    OptionalU16(t.hdide, t.hdid);
    OptionalU16(t.bse, t.bs);
    assert [f[0]] == t.mne && [f[1]] == t.bse && [f[2]] == t.nide && [f[3]] == t.ssra;
    assert [f[4]] == t.lngce && [f[5]] == t.imsie && [f[6]] == t.imeie && [f[7]] == t.hdide;
  }

  lemma DecodeParts(tid: seq<byte>, flags: byte, fields: seq<byte>, v: seq<seq<byte>>)
    requires |tid| == 4 && |v| == 7
    requires ReadAll(FlagSlots(Bits8(flags)), fields) == Ok(Parsed(v, []))
    ensures Decode(tid + [flags] + fields) == Ok(Build(U32(tid), Bits8(flags), v))
  {
    var b := tid + [flags] + fields;
    assert b[..4] == tid && b[4] == flags && b[5..] == fields;
  }

  /** Whatever Encode writes for a canonical identity, Decode reads back. */
  lemma DecodeEncode(t: TermIdentity)
    requires Canonical(t)
    ensures Decode(Encode(t).value) == Ok(t)
  {
    FlagsReadBack(t.mne, t.bse, t.nide, t.ssra, t.lngce, t.imsie, t.imeie, t.hdide);
    BuiltFromParts(t, Bits8(FlagByte(t)));
    PresentFits(t);
    ReadWhole(SlotsOf(t), Present(t));
    DecodeParts(Le32(t.tid), FlagByte(t), WriteAll(SlotsOf(t), Present(t)), Present(t));
    Le32Inverse(t.tid);
    WritesPresent(t);
  }

  lemma BuiltFlagByte(tid: uint32, flags: byte, v: seq<seq<byte>>)
    requires |v| == 7
    ensures FlagByte(Build(tid, Bits8(flags), v)) == flags
  {
    FlagsWrittenBack(flags);
  }

  /** Whatever Decode accepts is canonical and is written back octet for octet. */
  lemma EncodeDecode(b: seq<byte>)
    requires Decode(b).Ok?
    ensures Canonical(Decode(b).value) && Encode(Decode(b).value) == Ok(b)
  {
    var slots := FlagSlots(Bits8(b[4]));
    var p := ReadAll(slots, b[5..]).value;
    var t := Build(U32(b[..4]), Bits8(b[4]), p.values);
    assert Decode(b) == Ok(t) && p.tail == [];
    WriteWhole(slots, b[5..]);
    BuildCanonical(U32(b[..4]), Bits8(b[4]), p.values);
    WritesPresent(t);
    BuiltFlagByte(U32(b[..4]), b[4], p.values);
    U32Inverse(b[..4]);
    assert b[..4] + [b[4]] + b[5..] == b;
  }
}
