/** The table-driven checksums of crc/crc8 and crc/crc16, which differ only in the width of their
    register, proved against the bit-serial shift register they speed up. */
module Crc {
  import opened Bytes
  import opened Registers

  /** refIn, refOut and xorOut as in the Rocksoft parameter model; poly lacks its top term. */
  datatype Params = Params(poly: Register, init: Register, refIn: bool, refOut: bool, xorOut: Register) {
    ghost predicate Valid() {
      8 <= |poly| && |init| == |poly| && |xorOut| == |poly|
    }
  }

  // ---- the bit-serial register ----

  /** One clock of the register fed with one message bit. */
  function Clock(poly: Register, r: Register, bit: bool): (s: Register)
    requires |r| == |poly| > 0
    ensures |s| == |r|
  {
    if r[0] != bit then Xor(ShiftLeft(r, 1), poly) else ShiftLeft(r, 1)
  }

  function Serial(poly: Register, r: Register, bits: seq<bool>): (s: Register)
    requires |r| == |poly| > 0
    ensures |s| == |r|
  {
    if bits == [] then r
    else Clock(poly, Serial(poly, r, bits[..|bits| - 1]), bits[|bits| - 1])
  }

  /** The order in which the bits of one octet enter the register. */
  function OctetBits(d: byte, refIn: bool): (bits: seq<bool>)
    ensures |bits| == 8
  {
    if refIn then Reverse(Octet(d)) else Octet(d)
  }

  function MessageBits(data: seq<byte>, refIn: bool): (bits: seq<bool>)
    ensures |bits| == 8 * |data|
  {
    if data == [] then []
    else MessageBits(data[..|data| - 1], refIn) + OctetBits(data[|data| - 1], refIn)
  }

  /** The checksum as the standard's shift register computes it, bit by bit. */
  function SerialChecksum(params: Params, data: seq<byte>): (s: Register)
    requires params.Valid()
    ensures |s| == |params.poly|
  {
    Finish(params, Serial(params.poly, params.init, MessageBits(data, params.refIn)))
  }

  function Finish(params: Params, r: Register): (s: Register)
    requires params.Valid() && |r| == |params.poly|
    ensures |s| == |r|
  {
    Xor(if params.refOut then Reverse(r) else r, params.xorOut)
  }

  // ---- the table-driven code ----

  /** k rounds of "shift left, add the polynomial if the top bit fell out". */
  function Rounds(poly: Register, r: Register, k: nat): (s: Register)
    requires |r| == |poly| > 0
    ensures |s| == |r|
  {
    if k == 0 then r else Clock(poly, Rounds(poly, r, k - 1), false)
  }

  /** An octet in the top byte of a register. */
  function InTop(d: Register, width: nat): (r: Register)
    requires |d| == 8 <= width
    ensures |r| == width
  {
    d + Zeros(width - 8)
  }

  function Entry(poly: Register, n: byte): (r: Register)
    requires 8 <= |poly|
    ensures |r| == |poly|
  {
    Rounds(poly, InTop(Octet(n), |poly|), 8)
  }

  class Table {
    const params: Params
    const data: array<Register>

    ghost predicate Valid()
      reads this, data
    {
      && params.Valid()
      && data.Length == 256
      && forall n: byte :: data[n] == Entry(params.poly, n)
    }

    /** MakeTable. */
    constructor (params: Params)
      requires params.Valid()
      ensures Valid() && fresh(data) && this.params == params
    {
      this.params := params;
      var table := new Register[256];
      for n := 0 to 256
        invariant forall m: byte :: m < n ==> table[m] == Entry(params.poly, m)
      {
        var crc := InTop(Octet(n), |params.poly|);
        for i := 0 to 8
          invariant |crc| == |params.poly| && crc == Rounds(params.poly, InTop(Octet(n), |params.poly|), i)
        {
          var bit := crc[0];
          crc := ShiftLeft(crc, 1);
          if bit {
            crc := Xor(crc, params.poly);
          }
        }
        table[n] := crc;
      }
      data := table;
    }

    /** Update, for any chunk of a message: the loop over octets leaves the register where the
        bit-serial one would be. */
    method Update(crc: Register, chunk: seq<byte>) returns (r: Register)
      requires Valid() && |crc| == |params.poly|
      ensures r == Serial(params.poly, crc, MessageBits(chunk, params.refIn))
    {
      r := crc;
      for i := 0 to |chunk|
        invariant |r| == |params.poly|
        invariant r == Serial(params.poly, crc, MessageBits(chunk[..i], params.refIn))
      {
        var d := Octet(chunk[i]);
        if params.refIn {
          d := ReverseBits(d);
        }
        OctetStep(params.poly, r, d);
        r := Xor(ShiftLeft(r, 8), data[ByteValue(Xor(r[..8], d))]);
        assert chunk[..i + 1][..i] == chunk[..i];
        SerialConcat(params.poly, crc, MessageBits(chunk[..i], params.refIn), d);
      }
      assert chunk[..|chunk|] == chunk;
    }

    method Complete(crc: Register) returns (r: Register)
      requires Valid() && |crc| == |params.poly|
      ensures r == Finish(params, crc)
    {
      if params.refOut {
        var reversed := ReverseBits(crc);
        return Xor(reversed, params.xorOut);
      }
      return Xor(crc, params.xorOut);
    }

    method Checksum(message: seq<byte>) returns (r: Register)
      requires Valid()
      ensures r == SerialChecksum(params, message)
    {
      var crc := Update(params.init, message);
      r := Complete(crc);
    }
  }

  // ---- why one table look-up is eight clocks ----

  lemma {:induction false} SerialConcat(poly: Register, r: Register, a: seq<bool>, b: seq<bool>)
    requires |r| == |poly| > 0
    ensures Serial(poly, r, a + b) == Serial(poly, Serial(poly, r, a), b)
    decreases |b|
  {
    if b == [] {
      assert a + b == a;
    } else {
      SerialConcat(poly, r, a, b[..|b| - 1]);
      assert (a + b)[..|a + b| - 1] == a + b[..|b| - 1];
    }
  }

  lemma {:induction false} MessageConcat(a: seq<byte>, b: seq<byte>, refIn: bool)
    ensures MessageBits(a + b, refIn) == MessageBits(a, refIn) + MessageBits(b, refIn)
    decreases |b|
  {
    if b == [] {
      assert a + b == a;
    } else {
      MessageConcat(a, b[..|b| - 1], refIn);
      assert (a + b)[..|a + b| - 1] == a + b[..|b| - 1];
    }
  }

  /** Updating with a message is updating with its chunks in turn. */
  lemma UpdateInChunks(params: Params, crc: Register, a: seq<byte>, b: seq<byte>)
    requires params.Valid() && |crc| == |params.poly|
    ensures Serial(params.poly, crc, MessageBits(a + b, params.refIn))
         == Serial(params.poly, Serial(params.poly, crc, MessageBits(a, params.refIn)), MessageBits(b, params.refIn))
  {
    MessageConcat(a, b, params.refIn);
    SerialConcat(params.poly, crc, MessageBits(a, params.refIn), MessageBits(b, params.refIn));
  }

  lemma ClockLinear(poly: Register, a: Register, b: Register)
    requires |a| == |b| == |poly| > 0
    ensures Clock(poly, Xor(a, b), false) == Xor(Clock(poly, a, false), Clock(poly, b, false))
  {
  }

  lemma {:induction false} RoundsLinear(poly: Register, a: Register, b: Register, k: nat)
    requires |a| == |b| == |poly| > 0
    ensures Rounds(poly, Xor(a, b), k) == Xor(Rounds(poly, a, k), Rounds(poly, b, k))
  {
    if k > 0 {
      RoundsLinear(poly, a, b, k - 1);
      ClockLinear(poly, Rounds(poly, a, k - 1), Rounds(poly, b, k - 1));
    }
  }

  /** While the top k bits are clear, k rounds only shift. */
  lemma {:induction false} RoundsOfLow(poly: Register, r: Register, k: nat)
    requires |r| == |poly| > 0 && k <= |r|
    requires forall i :: 0 <= i < k ==> !r[i]
    ensures Rounds(poly, r, k) == ShiftLeft(r, k)
  {
    if k > 0 {
      RoundsOfLow(poly, r, k - 1);
      assert !ShiftLeft(r, k - 1)[0];
    }
  }

  /** Feeding k message bits equals adding them to the top of the register first. */
  lemma {:induction false} FeedFirst(poly: Register, r: Register, d: Register, k: nat)
    requires |r| == |poly| && k <= |d| <= |poly| && |poly| > 0
    ensures var padded := d + Zeros(|poly| - |d|);
            Xor(Serial(poly, r, d[..k]), ShiftLeft(padded, k)) == Rounds(poly, Xor(r, padded), k)
  {
    var padded := d + Zeros(|poly| - |d|);
    if k == 0 {
      assert ShiftLeft(padded, 0) == padded;
    } else {
      FeedFirst(poly, r, d, k - 1);
      var before := Serial(poly, r, d[..k - 1]);
      assert d[..k][..k - 1] == d[..k - 1];
      assert ShiftLeft(padded, k - 1)[0] == d[k - 1];
      assert ShiftLeft(ShiftLeft(padded, k - 1), 1) == ShiftLeft(padded, k);
      FeedOne(poly, before, ShiftLeft(padded, k - 1));
    }
  }

  lemma FeedOne(poly: Register, r: Register, p: Register)
    requires |r| == |p| == |poly| > 0
    ensures Xor(Clock(poly, r, p[0]), ShiftLeft(p, 1)) == Clock(poly, Xor(r, p), false)
  {
  }

  lemma FeedAll(poly: Register, r: Register, d: Register)
    requires |r| == |poly| && |d| <= |poly| && |poly| > 0
    ensures Serial(poly, r, d) == Rounds(poly, Xor(r, d + Zeros(|poly| - |d|)), |d|)
  {
    FeedFirst(poly, r, d, |d|);
    assert d[..|d|] == d;
    var shifted := ShiftLeft(d + Zeros(|poly| - |d|), |d|);
    assert Xor(Serial(poly, r, d), shifted) == Serial(poly, r, d);
  }

  /** The heart of the table method. */
  lemma OctetStep(poly: Register, r: Register, d: Register)
    requires |r| == |poly| && |d| == 8 <= |poly|
    ensures Xor(ShiftLeft(r, 8), Entry(poly, ByteValue(Xor(r[..8], d)))) == Serial(poly, r, d)
  {
    var w := |poly|;
    FeedAll(poly, r, d);
    var high := InTop(Xor(r[..8], d), w);
    var low := Zeros(8) + r[8..];
    assert Xor(low, high) == Xor(r, InTop(d, w));
    RoundsLinear(poly, low, high, 8);
    RoundsOfLow(poly, low, 8);
    assert ShiftLeft(low, 8) == ShiftLeft(r, 8);
  }

  // ---- the two EGTS checksums (crc/crc.go) ----

  function Egts8(): (p: Params)
    ensures p.Valid() && |p.poly| == 8
  {
    Params(OfNumber(0x31, 8), OfNumber(0xFF, 8), false, false, Zeros(8))
  }

  function Egts16(): (p: Params)
    ensures p.Valid() && |p.poly| == 16
  {
    Params(OfNumber(0x1021, 16), OfNumber(0xFFFF, 16), false, false, Zeros(16))
  }

  function Crc8(data: seq<byte>): byte {
    var r := SerialChecksum(Egts8(), data);
    NumberBound(r);
    Widths();
    Number(r)
  }

  function Crc16(data: seq<byte>): uint16 {
    var r := SerialChecksum(Egts16(), data);
    NumberBound(r);
    Widths();
    Number(r)
  }

  /** Crc: the width picks the table. */
  method ChecksumOf(bit: int, data: seq<byte>) returns (crc: int)
    ensures crc == if bit == 8 then Crc8(data) else if bit == 16 then Crc16(data) else 0
  {
    crc := 0;
    if bit == 8 {
      var table8 := new Table(Egts8());
      var r := table8.Checksum(data);
      crc := Number(r);
    } else if bit == 16 {
      var table16 := new Table(Egts16());
      var r := table16.Checksum(data);
      crc := Number(r);
    }
  }

  // ---- what a change of the message does to the register ----

  /** The polynomial has a constant term. */
  predicate Odd(poly: Register) {
    poly != [] && poly[|poly| - 1]
  }

  lemma EgtsOdd()
    ensures Odd(Egts8().poly) && Odd(Egts16().poly)
  {
  }

  lemma ClockInjective(poly: Register, a: Register, b: Register, bit: bool)
    requires |a| == |b| == |poly| && Odd(poly)
    requires Clock(poly, a, bit) == Clock(poly, b, bit)
    ensures a == b
  {
    var n := |poly|;
    var x, y := Clock(poly, a, bit), Clock(poly, b, bit);
    assert x[n - 1] == (a[0] != bit) && y[n - 1] == (b[0] != bit);
    forall i | 0 < i < n
      ensures a[i] == b[i]
    {
      assert x[i - 1] == y[i - 1];
      assert ShiftLeft(a, 1)[i - 1] == a[i] && ShiftLeft(b, 1)[i - 1] == b[i];
    }
  }

  lemma {:induction false} SerialInjective(poly: Register, a: Register, b: Register, bits: seq<bool>)
    requires |a| == |b| == |poly| && Odd(poly)
    requires Serial(poly, a, bits) == Serial(poly, b, bits)
    ensures a == b
    decreases |bits|
  {
    if bits != [] {
      var rest := bits[..|bits| - 1];
      ClockInjective(poly, Serial(poly, a, rest), Serial(poly, b, rest), bits[|bits| - 1]);
      SerialInjective(poly, a, b, rest);
    }
  }

  lemma {:induction false} RoundsInjective(poly: Register, a: Register, b: Register, k: nat)
    requires |a| == |b| == |poly| && Odd(poly)
    requires Rounds(poly, a, k) == Rounds(poly, b, k)
    ensures a == b
  {
    if k > 0 {
      ClockInjective(poly, Rounds(poly, a, k - 1), Rounds(poly, b, k - 1), false);
      RoundsInjective(poly, a, b, k - 1);
    }
  }

  /** No two bit strings of the same length up to the width of the register lead to one state. */
  lemma BurstDetected(poly: Register, r: Register, x: seq<bool>, y: seq<bool>)
    requires |r| == |poly| && Odd(poly) && |x| == |y| <= |poly|
    requires Serial(poly, r, x) == Serial(poly, r, y)
    ensures x == y
  {
    FeedAll(poly, r, x);
    FeedAll(poly, r, y);
    var px, py := x + Zeros(|poly| - |x|), y + Zeros(|poly| - |y|);
    RoundsInjective(poly, Xor(r, px), Xor(r, py), |x|);
    forall i | 0 <= i < |x|
      ensures x[i] == y[i]
    {
      assert Xor(r, px)[i] == Xor(r, py)[i];
      assert px[i] == x[i] && py[i] == y[i];
    }
  }

  /** Any change confined to a burst no wider than the register changes the checksum: for every
      parameter set with a constant term, every message around the burst, reflected or not. */
  lemma ChecksumDetectsBurst(params: Params, before: seq<byte>, x: seq<byte>, y: seq<byte>, after: seq<byte>)
    requires params.Valid() && Odd(params.poly)
    requires |x| == |y| && 8 * |x| <= |params.poly| && x != y
    ensures SerialChecksum(params, before + x + after) != SerialChecksum(params, before + y + after)
  {
    var p := params.poly;
    var r := Serial(p, params.init, MessageBits(before, params.refIn));
    var xb, yb, tail := MessageBits(x, params.refIn), MessageBits(y, params.refIn), MessageBits(after, params.refIn);
    forall m | m in {x, y}
      ensures Serial(p, params.init, MessageBits(before + m + after, params.refIn))
           == Serial(p, Serial(p, r, MessageBits(m, params.refIn)), tail)
    {
      UpdateInChunks(params, params.init, before + m, after);
      UpdateInChunks(params, params.init, before, m);
    }
    if SerialChecksum(params, before + x + after) == SerialChecksum(params, before + y + after) {
      FinishInjective(params, Serial(p, Serial(p, r, xb), tail), Serial(p, Serial(p, r, yb), tail));
      SerialInjective(p, Serial(p, r, xb), Serial(p, r, yb), tail);
      BurstDetected(p, r, xb, yb);
      MessageInjective(x, y, params.refIn);
      assert false;
    }
  }

  lemma FinishInjective(params: Params, a: Register, b: Register)
    requires params.Valid() && |a| == |b| == |params.poly|
    requires Finish(params, a) == Finish(params, b)
    ensures a == b
  {
    var n := |a|;
    forall i | 0 <= i < n
      ensures a[i] == b[i]
    {
      assert Finish(params, a)[i] == Finish(params, b)[i];
      assert Finish(params, a)[n - 1 - i] == Finish(params, b)[n - 1 - i];
    }
  }

  lemma OctetBitsInjective(a: byte, b: byte, refIn: bool)
    requires OctetBits(a, refIn) == OctetBits(b, refIn)
    ensures a == b
  {
    if refIn {
      assert Reverse(Reverse(Octet(a))) == Octet(a) && Reverse(Reverse(Octet(b))) == Octet(b);
    }
    OctetInjective(a, b);
  }

  lemma MessageBitsSnoc(x: seq<byte>, refIn: bool)
    requires x != []
    ensures MessageBits(x, refIn) == MessageBits(x[..|x| - 1], refIn) + OctetBits(x[|x| - 1], refIn)
    ensures |OctetBits(x[|x| - 1], refIn)| == 8
  {
  }

  lemma {:induction false} MessageInjective(x: seq<byte>, y: seq<byte>, refIn: bool)
    requires |x| == |y| && MessageBits(x, refIn) == MessageBits(y, refIn)
    ensures x == y
    decreases |x|
  {
    hide MessageBits, OctetBits;
    if x != [] {
      var n := |x| - 1;
      var xs, ys := MessageBits(x[..n], refIn), MessageBits(y[..n], refIn);
      MessageBitsSnoc(x, refIn);
      MessageBitsSnoc(y, refIn);
      SplitSame(xs, OctetBits(x[n], refIn), ys, OctetBits(y[n], refIn));
      MessageInjective(x[..n], y[..n], refIn);
      OctetBitsInjective(x[n], y[n], refIn);
      assert x == x[..n] + [x[n]] && y == y[..n] + [y[n]];
    }
  }

  /** The two EGTS checksums differ whenever their messages differ in one burst: one octet of a
      header, two adjacent octets of a body. */
  lemma EgtsDetectsBurst(before: seq<byte>, x: seq<byte>, y: seq<byte>, after: seq<byte>)
    requires |x| == |y| && x != y
    ensures |x| <= 1 ==> Crc8(before + x + after) != Crc8(before + y + after)
    ensures |x| <= 2 ==> Crc16(before + x + after) != Crc16(before + y + after)
  {
    EgtsOdd();
    var mx, my := before + x + after, before + y + after;
    if |x| <= 2 {
      ChecksumDetectsBurst(Egts16(), before, x, y, after);
      NumberInverse(SerialChecksum(Egts16(), mx));
      NumberInverse(SerialChecksum(Egts16(), my));
    }
    if |x| <= 1 {
      ChecksumDetectsBurst(Egts8(), before, x, y, after);
      NumberInverse(SerialChecksum(Egts8(), mx));
      NumberInverse(SerialChecksum(Egts8(), my));
    }
  }
}
