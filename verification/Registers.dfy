/** Shift registers as sequences of bits, most significant bit first. A Go uint8 is a register of
    width 8, a uint16 one of width 16; <<, ^ and the reversals of egts/utils/utils.go are spelled
    out on the bits. */
module Registers {
  import opened Bytes

  type Register = seq<bool>

  function Zeros(n: nat): (r: Register)
    ensures |r| == n && forall i :: 0 <= i < n ==> !r[i]
  {
    seq(n, i => false)
  }

  function Xor(a: Register, b: Register): (r: Register)
    requires |a| == |b|
    ensures |r| == |a| && forall i :: 0 <= i < |r| ==> r[i] == (a[i] != b[i])
  {
    seq(|a|, i requires 0 <= i < |a| => a[i] != b[i])
  }

  /** r << n, keeping the width. */
  function ShiftLeft(r: Register, n: nat): (s: Register)
    requires n <= |r|
    ensures |s| == |r|
  {
    r[n..] + Zeros(n)
  }

  function Reverse(r: Register): (s: Register)
    ensures |s| == |r| && forall i :: 0 <= i < |r| ==> s[i] == r[|r| - 1 - i]
  {
    seq(|r|, i requires 0 <= i < |r| => r[|r| - 1 - i])
  }

  /** The number a register holds. */
  function Number(r: Register): nat {
    if r == [] then 0 else 2 * Number(r[..|r| - 1]) + (if r[|r| - 1] then 1 else 0)
  }

  /** The low `width` bits of n. */
  function OfNumber(n: nat, width: nat): (r: Register)
    ensures |r| == width
  {
    if width == 0 then [] else OfNumber(n / 2, width - 1) + [n % 2 == 1]
  }

  function Power2(n: nat): (p: nat)
    ensures p > 0
  {
    if n == 0 then 1 else 2 * Power2(n - 1)
  }

  lemma {:induction false} NumberBound(r: Register)
    ensures Number(r) < Power2(|r|)
  {
    if r != [] {
      NumberBound(r[..|r| - 1]);
    }
  }

  lemma {:induction false} NumberInverse(r: Register)
    ensures OfNumber(Number(r), |r|) == r
  {
    if r != [] {
      NumberInverse(r[..|r| - 1]);
      assert Number(r) / 2 == Number(r[..|r| - 1]);
    }
  }

  lemma {:induction false} OfNumberInverse(n: nat, width: nat)
    requires n < Power2(width)
    ensures Number(OfNumber(n, width)) == n
  {
    if width > 0 {
      OfNumberInverse(n / 2, width - 1);
      var r := OfNumber(n, width);
      assert r[..width - 1] == OfNumber(n / 2, width - 1);
    }
  }

  lemma Widths()
    ensures Power2(8) == 0x100 && Power2(16) == 0x1_0000
  {
    assert Power2(4) == 16;
    assert Power2(8) == 16 * Power2(4);
    assert Power2(12) == 16 * Power2(8);
    assert Power2(16) == 16 * Power2(12);
  }

  /** The eight bits of an octet. */
  function Octet(b: byte): (r: Register)
    ensures |r| == 8
  {
    OfNumber(b, 8)
  }

  function ByteValue(r: Register): (b: byte)
    requires |r| == 8
    ensures Octet(b) == r
  {
    NumberBound(r);
    NumberInverse(r);
    Widths();
    Number(r)
  }

  lemma {:induction false} BitOf(r: Register, i: nat)
    requires i < |r|
    ensures Number(r) / Power2(|r| - 1 - i) % 2 == if r[i] then 1 else 0
    decreases |r|
  {
    var n := |r| - 1;
    LowBit(r);
    if i < n {
      BitOf(r[..n], i);
      hide Number, Power2;
      Halved(Number(r), Power2(n - 1 - i));
      Doubles(n - 1 - i);
    }
  }

  lemma LowBit(r: Register)
    requires r != []
    ensures Number(r) / 2 == Number(r[..|r| - 1]) && Number(r) % 2 == (if r[|r| - 1] then 1 else 0) && Power2(0) == 1
  {
  }

  lemma Doubles(n: nat)
    ensures Power2(n + 1) == 2 * Power2(n)
  {
  }

  lemma Halved(a: nat, p: nat)
    requires p > 0
    ensures a / (2 * p) == a / 2 / p
  {
    var q, s := a / 2 / p, a / 2 % p;
    assert a / 2 == p * q + s;
    assert a == 2 * p * q + (2 * s + a % 2);
    assert 0 <= 2 * s + a % 2 < 2 * p;
    DivideIs(a, 2 * p, q, 2 * s + a % 2);
  }

  lemma DivideIs(a: nat, p: nat, q: nat, s: nat)
    requires 0 <= s < p && a == p * q + s
    ensures a / p == q && a % p == s
  {
    var d: int := a / p - q;
    assert p * d == s - a % p;
    Multiples(p, d);
  }

  lemma Multiples(p: int, d: int)
    requires p > 0
    ensures (d >= 1 ==> p * d >= p) && (d <= -1 ==> p * d <= -p)
  {
  }

  lemma Powers()
    ensures Power2(0) == 1 && Power2(4) == 0x10 && Power2(5) == 0x20 && Power2(7) == 0x80
    ensures Power2(12) == 0x1000 && Power2(15) == 0x8000
  {
    assert Power2(8) == 0x10 * Power2(4);
    assert Power2(12) == 0x10 * Power2(8);
    assert Power2(15) == 8 * Power2(12);
  }

  /** The bits of an octet by their weights. */
  lemma OctetIs(d: byte)
    ensures var o := Octet(d);
            && o[0] == (d / 128 % 2 == 1) && o[1] == (d / 64 % 2 == 1) && o[2] == (d / 32 % 2 == 1) && o[3] == (d / 16 % 2 == 1)
            && o[4] == (d / 8 % 2 == 1) && o[5] == (d / 4 % 2 == 1) && o[6] == (d / 2 % 2 == 1) && o[7] == (d % 2 == 1)
  {
    Widths();
    OfNumberInverse(d, 8);
    var o := Octet(d);
    assert Power2(4) == 16 && Power2(3) == 8 && Power2(2) == 4 && Power2(1) == 2 && Power2(0) == 1;
    assert Power2(7) == 2 * Power2(6) && Power2(6) == 2 * Power2(5) && Power2(5) == 2 * Power2(4);
    hide Number, Power2, OfNumber, Octet;
    BitOf(o, 0);
    BitOf(o, 1);
    BitOf(o, 2);
    BitOf(o, 3);
    BitOf(o, 4);
    BitOf(o, 5);
    BitOf(o, 6);
    BitOf(o, 7);
  }

  lemma OctetInjective(a: byte, b: byte)
    requires Octet(a) == Octet(b)
    ensures a == b
  {
    Widths();
    OfNumberInverse(a, 8);
    OfNumberInverse(b, 8);
  }

  /** egts/utils/utils.go tests the bits of val from the least significant one up and sets the
      mirrored bit of the result; at width 8 this is ReverseByte, at width 16 ReverseUint16. */
  method ReverseBits(val: Register) returns (rval: Register)
    ensures rval == Reverse(val)
  {
    rval := Zeros(|val|);
    for i := 0 to |val|
      invariant |rval| == |val|
      invariant forall k :: 0 <= k < i ==> rval[k] == val[|val| - 1 - k]
      invariant forall k :: i <= k < |val| ==> !rval[k]
    {
      if val[|val| - 1 - i] {
        rval := rval[i := true];
      }
    }
  }
}
