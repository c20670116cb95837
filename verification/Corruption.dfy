/** What the checksums and the header-length rule catch in a packet ReadPacket accepts. */
module Corruption {
  import opened Bytes
  import opened Flags
  import opened Packets
  import Crc

  /** b with the stretch at i replaced by x. */
  function Overwrite(b: seq<byte>, i: nat, x: seq<byte>): (c: seq<byte>)
    requires i + |x| <= |b|
    ensures |c| == |b|
  {
    b[..i] + x + b[i + |x|..]
  }

  lemma OverwriteSplit(b: seq<byte>, i: nat, x: seq<byte>, lo: nat, hi: nat)
    requires lo <= i && i + |x| <= hi <= |b|
    ensures Overwrite(b, i, x)[lo..hi] == b[lo..i] + x + b[i + |x|..hi]
    ensures b[lo..hi] == b[lo..i] + b[i..i + |x|] + b[i + |x|..hi]
    ensures Overwrite(b, i, x)[..lo] == b[..lo] && Overwrite(b, i, x)[hi..] == b[hi..]
  {
    var c := Overwrite(b, i, x);
    var was, now := b[lo..i] + b[i..i + |x|] + b[i + |x|..hi], b[lo..i] + x + b[i + |x|..hi];
    assert |was| == |now| == hi - lo;
    forall k | 0 <= k < |c|
      ensures c[k] == if k < i then b[k] else if k < i + |x| then x[k - i] else b[k]
    {
    }
    assert forall k :: 0 <= k < hi - lo ==> b[lo..hi][k] == was[k];
    assert forall k :: 0 <= k < hi - lo ==> c[lo..hi][k] == now[k];
  }

  /** A burst inside a stretch changes the checksums of the stretch. */
  lemma StretchSum(b: seq<byte>, i: nat, x: seq<byte>, lo: nat, hi: nat)
    requires lo <= i && i + |x| <= hi <= |b| && x != b[i..i + |x|]
    ensures |x| <= 1 ==> Crc.Crc8(Overwrite(b, i, x)[lo..hi]) != Crc.Crc8(b[lo..hi])
    ensures |x| <= 2 ==> Crc.Crc16(Overwrite(b, i, x)[lo..hi]) != Crc.Crc16(b[lo..hi])
  {
    OverwriteSplit(b, i, x, lo, hi);
    Crc.EgtsDetectsBurst(b[lo..i], x, b[i..i + |x|], b[i + |x|..hi]);
  }

  /** One octet of the header. */
  lemma HeaderOctet(b: seq<byte>, i: nat, v: byte)
    requires Envelope(b) && i < b[3] as int && v != b[i]
    ensures !Envelope(Overwrite(b, i, [v]))
  {
    hide Crc.Crc8, Crc.Crc16, Bits8;
    var c := Overwrite(b, i, [v]);
    var n: nat := b[3] - 1;
    assert forall k :: 0 <= k < |b| && k != i ==> c[k] == b[k];
    assert c[i] == v;
    if i == 3 {
      assert c[2] == b[2];
    } else if i < n {
      StretchSum(b, i, [v], 0, n);
      assert c[0..n] == c[..n] && b[0..n] == b[..n];
      assert c[3] == b[3] && c[n] == b[n];
    } else {
      assert c[..n] == b[..n];
    }
  }

  lemma SameLength(b: seq<byte>, c: seq<byte>)
    requires |b| >= 11 && |c| == |b| && 11 <= b[3] as int <= |b| && c[..b[3]] == b[..b[3]]
    ensures c[3] == b[3] && c[5..7] == b[5..7]
  {
    var h := b[..b[3]];
    assert c[3] == h[3] && b[3] == h[3];
    assert c[5..7] == h[5..7] && b[5..7] == h[5..7];
  }

  /** One or two adjacent octets of the data. */
  lemma DataBurst(b: seq<byte>, i: nat, x: seq<byte>)
    requires Envelope(b) && b[3] as int <= i && i + |x| <= b[3] as nat + U16(b[5..7])
    requires |x| <= 2 && i + |x| <= |b| && x != b[i..i + |x|]
    ensures !Envelope(Overwrite(b, i, x))
  {
    hide Crc.Crc8, Crc.Crc16, Bits8;
    var c := Overwrite(b, i, x);
    var lo: nat, fdl: nat := b[3], U16(b[5..7]);
    OverwriteSplit(b, i, x, lo, lo + fdl);
    SameLength(b, c);
    StretchSum(b, i, x, lo, lo + fdl);
    assert c[|b| - 2..] == b[|b| - 2..];
  }

  /** One octet of the data checksum. */
  lemma TrailerOctet(b: seq<byte>, i: nat, v: byte)
    requires Envelope(b) && b[3] as nat + U16(b[5..7]) <= i < |b| && v != b[i]
    ensures !Envelope(Overwrite(b, i, [v]))
  {
    hide Crc.Crc8, Crc.Crc16, Bits8;
    var c := Overwrite(b, i, [v]);
    var lo: nat, fdl: nat := b[3], U16(b[5..7]);
    var n := |b| - 2;
    OverwriteSplit(b, i, [v], lo + fdl, |b|);
    assert c[..lo] == b[..lo];
    SameLength(b, c);
    assert BodyOf(lo, fdl, c) == BodyOf(lo, fdl, b);
    U16Inverse(c[n..]);
    U16Inverse(b[n..]);
    assert c[n..][i - n] == v && b[n..][i - n] == b[i];
  }

  /** Changing any one octet of an accepted packet, wherever it stands, makes ReadPacket reject. */
  lemma SingleOctetDetected(b: seq<byte>, i: nat, v: byte)
    requires ReadPacket(b).Accepted? && i < |b| && v != b[i]
    ensures ReadPacket(b[i := v]).Rejected?
  {
    hide ReadPacket, Envelope;
    AcceptedEnvelope(b, ReadPacket(b).p);
    var c := Overwrite(b, i, [v]);
    assert c == b[i := v];
    SingleOctetBreaks(b, i, v);
    if ReadPacket(c).Accepted? {
      AcceptedEnvelope(c, ReadPacket(c).p);
      assert false;
    }
  }

  lemma SingleOctetBreaks(b: seq<byte>, i: nat, v: byte)
    requires Envelope(b) && i < |b| && v != b[i]
    ensures !Envelope(Overwrite(b, i, [v]))
  {
    if i < b[3] as int {
      HeaderOctet(b, i, v);
    } else if i < b[3] as nat + U16(b[5..7]) {
      assert [v][0] != b[i..i + 1][0];
      DataBurst(b, i, [v]);
    } else {
      TrailerOctet(b, i, v);
    }
  }

  /** So does any change confined to two adjacent octets of the data: c is b with the octets at i
      and i + 1 changed. */
  lemma AdjacentOctetsDetected(b: seq<byte>, i: nat, c: seq<byte>)
    requires |b| >= 11 && b[3] as int <= i && i + 2 <= b[3] as nat + U16(b[5..7]) && i + 2 <= |b|
    requires c != b && |c| == |b| && c[..i] == b[..i] && c[i + 2..] == b[i + 2..]
    requires ReadPacket(b).Accepted?
    ensures ReadPacket(c).Rejected?
  {
    hide ReadPacket, Envelope;
    AcceptedEnvelope(b, ReadPacket(b).p);
    var x := c[i..i + 2];
    assert c == Overwrite(b, i, x);
    assert b == Overwrite(b, i, b[i..i + 2]);
    DataBurst(b, i, x);
    if ReadPacket(c).Accepted? {
      AcceptedEnvelope(c, ReadPacket(c).p);
      assert false;
    }
  }
}
