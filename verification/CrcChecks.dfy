/** The check values of the two EGTS checksums (crc/crc.go): the register computed in numbers. */
module CrcChecks {
  import opened Bytes
  import opened Registers
  import opened Crc

  // ---- a register as a number ----

  /** n with the bit of that weight turned over. */
  function Flipped(n: int, weight: int): int
    requires weight > 0
  {
    if n / weight % 2 == 1 then n - weight else n + weight
  }

  lemma {:induction false} FlipBit(r: Register, i: nat)
    requires i < |r|
    ensures Number(r[i := !r[i]]) == Flipped(Number(r), Power2(|r| - 1 - i))
    decreases |r|
  {
    var n := |r| - 1;
    var f := r[i := !r[i]];
    BitOf(r, i);
    if i < n {
      FlipBit(r[..n], i);
      BitOf(r[..n], i);
      assert f[..n] == r[..n][i := !r[..n][i]];
    } else {
      assert f[..n] == r[..n];
    }
  }

  lemma {:induction false} DropTop(r: Register)
    requires r != []
    ensures Number(r) == Number(r[1..]) + if r[0] then Power2(|r| - 1) else 0
  {
    var n := |r| - 1;
    if n > 0 {
      DropTop(r[..n]);
      assert r[1..][..n - 1] == r[..n][1..];
    }
  }

  lemma ShiftNumber(r: Register)
    requires r != []
    ensures Number(ShiftLeft(r, 1)) == Number(r) % Power2(|r| - 1) * 2 && (r[0] <==> Number(r) >= Power2(|r| - 1))
  {
    DropTop(r);
    NumberBound(r[1..]);
    var p := Power2(|r| - 1);
    DivideIs(Number(r), p, if r[0] then 1 else 0, Number(r[1..]));
    var s := ShiftLeft(r, 1);
    assert s[..|r| - 1] == r[1..];
  }

  // ---- a clock and an octet of a polynomial of three terms ----

  /** The highest bit and the terms of the polynomial below it, by their weights. */
  datatype Weights = Weights(top: nat, a: nat, b: nat, c: nat) {
    predicate Valid() {
      top > 0 && a > 0 && b > 0 && c > 0
    }
  }

  function Clocked(w: Weights, n: int, bit: bool): int
    requires w.Valid()
  {
    var s := n % w.top * 2;
    if (n >= w.top) != bit then Flipped(Flipped(Flipped(s, w.a), w.b), w.c) else s
  }

  /** Bits fed in one after the other. */
  function Fed(w: Weights, n: int, bits: seq<bool>): int
    requires w.Valid()
  {
    if bits == [] then n else Clocked(w, Fed(w, n, bits[..|bits| - 1]), bits[|bits| - 1])
  }

  /** The polynomial has its terms at i, j and k. */
  predicate Terms(poly: Register, i: nat, j: nat, k: nat, w: Weights) {
    && i < j < k < |poly| && (forall m :: 0 <= m < |poly| ==> (poly[m] <==> m == i || m == j || m == k))
    && w == Weights(Power2(|poly| - 1), Power2(|poly| - 1 - i), Power2(|poly| - 1 - j), Power2(|poly| - 1 - k))
  }

  lemma XorTerms(poly: Register, s: Register, i: nat, j: nat, k: nat, w: Weights)
    requires Terms(poly, i, j, k, w) && |s| == |poly|
    ensures Number(Xor(s, poly)) == Flipped(Flipped(Flipped(Number(s), w.a), w.b), w.c)
  {
    hide Number, Power2, Flipped;
    var s1 := s[i := !s[i]];
    var s2 := s1[j := !s1[j]];
    FlipBit(s, i);
    FlipBit(s1, j);
    FlipBit(s2, k);
    assert Xor(s, poly) == s2[k := !s2[k]];
  }

  lemma ClockNumber(poly: Register, r: Register, bit: bool, i: nat, j: nat, k: nat, w: Weights)
    requires Terms(poly, i, j, k, w) && |r| == |poly|
    ensures Number(Clock(poly, r, bit)) == Clocked(w, Number(r), bit)
  {
    TermsFit(poly, i, j, k, w);
    ShiftNumber(r);
    XorTerms(poly, ShiftLeft(r, 1), i, j, k, w);
    assert w.top == Power2(|r| - 1);
    hide Number, Power2, Flipped, Terms, ShiftLeft, Xor;
  }

  lemma TermsFit(poly: Register, i: nat, j: nat, k: nat, w: Weights)
    requires Terms(poly, i, j, k, w)
    ensures |poly| > 0 && w.Valid()
  {
  }

  lemma {:induction false} FedNumber(poly: Register, r: Register, bits: seq<bool>, i: nat, j: nat, k: nat, w: Weights)
    requires Terms(poly, i, j, k, w) && |r| == |poly| && w.Valid()
    ensures Number(Serial(poly, r, bits)) == Fed(w, Number(r), bits)
    decreases |bits|
  {
    hide Number, Power2, Terms, Clock, Clocked;
    TermsFit(poly, i, j, k, w);
    if bits != [] {
      FedNumber(poly, r, bits[..|bits| - 1], i, j, k, w);
      ClockNumber(poly, Serial(poly, r, bits[..|bits| - 1]), bits[|bits| - 1], i, j, k, w);
    }
  }

  lemma {:induction false} FedConcat(w: Weights, n: int, a: seq<bool>, b: seq<bool>)
    requires w.Valid()
    ensures Fed(w, n, a + b) == Fed(w, Fed(w, n, a), b)
    decreases |b|
  {
    hide Clocked;
    if b == [] {
      assert a + b == a;
    } else {
      FedConcat(w, n, a, b[..|b| - 1]);
      assert (a + b)[..|a + b| - 1] == a + b[..|b| - 1];
    }
  }

  // ---- the check values ----

  /** One octet, bit by bit. */
  lemma OctetFed(w: Weights, d: byte, n0: int, n1: int, n2: int, n3: int, n4: int, n5: int, n6: int, n7: int, n8: int)
    requires w.Valid()
    requires Clocked(w, n0, d / 128 % 2 == 1) == n1 && Clocked(w, n1, d / 64 % 2 == 1) == n2
    requires Clocked(w, n2, d / 32 % 2 == 1) == n3 && Clocked(w, n3, d / 16 % 2 == 1) == n4
    requires Clocked(w, n4, d / 8 % 2 == 1) == n5 && Clocked(w, n5, d / 4 % 2 == 1) == n6
    requires Clocked(w, n6, d / 2 % 2 == 1) == n7 && Clocked(w, n7, d % 2 == 1) == n8
    ensures Fed(w, n0, Octet(d)) == n8
  {
    OctetIs(d);
    var o := Octet(d);
    hide Clocked, Octet;
    FedStep(w, n0, o, 0);
    FedStep(w, n0, o, 1);
    FedStep(w, n0, o, 2);
    FedStep(w, n0, o, 3);
    FedStep(w, n0, o, 4);
    FedStep(w, n0, o, 5);
    FedStep(w, n0, o, 6);
    FedStep(w, n0, o, 7);
    assert o[..8] == o;
  }

  lemma FedStep(w: Weights, n: int, bits: seq<bool>, k: nat)
    requires w.Valid() && k < |bits|
    ensures Fed(w, n, bits[..k + 1]) == Clocked(w, Fed(w, n, bits[..k]), bits[k]) && Fed(w, n, bits[..0]) == n
  {
    hide Clocked;
    assert bits[..k + 1][..k] == bits[..k];
  }

  lemma OctetMore(w: Weights, n: int, data: seq<byte>, d: byte)
    requires w.Valid()
    ensures Fed(w, n, MessageBits(data + [d], false)) == Fed(w, Fed(w, n, MessageBits(data, false)), Octet(d))
  {
    hide Fed, Octet;
    assert (data + [d])[..|data|] == data;
    FedConcat(w, n, MessageBits(data, false), Octet(d));
  }

  /** The digits from one to nine. */
  const DIGITS: seq<byte> := [0x31, 0x32, 0x33, 0x34, 0x35, 0x36, 0x37, 0x38, 0x39]

  const EIGHT := Weights(0x80, 0x20, 0x10, 1)
  const SIXTEEN := Weights(0x8000, 0x1000, 0x20, 1)

  lemma EightOneTwo()
    ensures Fed(EIGHT, 0xFF, Octet(0x31)) == 0x58
    ensures Fed(EIGHT, 0x58, Octet(0x32)) == 0x60
  {
    hide Fed, Octet;
    OctetFed(EIGHT, 0x31, 0xFF, 0xCF, 0xAF, 0x5E, 0x8D, 0x2B, 0x56, 0xAC, 0x58);
    OctetFed(EIGHT, 0x32, 0x58, 0xB0, 0x51, 0x93, 0x26, 0x4C, 0x98, 0x30, 0x60);
  }

  lemma EightThreeFour()
    ensures Fed(EIGHT, 0x60, Octet(0x33)) == 0x2D
    ensures Fed(EIGHT, 0x2D, Octet(0x34)) == 0xCB
  {
    hide Fed, Octet;
    OctetFed(EIGHT, 0x33, 0x60, 0xC0, 0xB1, 0x62, 0xF5, 0xDB, 0x87, 0x0E, 0x2D);
    OctetFed(EIGHT, 0x34, 0x2D, 0x5A, 0xB4, 0x68, 0xE1, 0xF3, 0xE6, 0xFD, 0xCB);
  }

  lemma EightFiveSix()
    ensures Fed(EIGHT, 0xCB, Octet(0x35)) == 0x9D
    ensures Fed(EIGHT, 0x9D, Octet(0x36)) == 0x16
  {
    hide Fed, Octet;
    OctetFed(EIGHT, 0x35, 0xCB, 0xA7, 0x7F, 0xCF, 0x9E, 0x0D, 0x2B, 0x56, 0x9D);
    OctetFed(EIGHT, 0x36, 0x9D, 0x0B, 0x16, 0x1D, 0x0B, 0x16, 0x1D, 0x0B, 0x16);
  }

  lemma EightSevenEight()
    ensures Fed(EIGHT, 0x16, Octet(0x37)) == 0xB7
    ensures Fed(EIGHT, 0xB7, Octet(0x38)) == 0x54
  {
    hide Fed, Octet;
    OctetFed(EIGHT, 0x37, 0x16, 0x2C, 0x58, 0x81, 0x02, 0x04, 0x39, 0x43, 0xB7);
    OctetFed(EIGHT, 0x38, 0xB7, 0x5F, 0xBE, 0x7C, 0xC9, 0x92, 0x15, 0x2A, 0x54);
  }

  lemma EightNine()
    ensures Fed(EIGHT, 0x54, Octet(0x39)) == 0xF7
  {
    hide Fed, Octet;
    OctetFed(EIGHT, 0x39, 0x54, 0xA8, 0x61, 0xF3, 0xE6, 0xCC, 0xA9, 0x63, 0xF7);
  }

  lemma SixteenOneTwo()
    ensures Fed(SIXTEEN, 0xFFFF, Octet(0x31)) == 0xC782
    ensures Fed(SIXTEEN, 0xC782, Octet(0x32)) == 0x3DBA
  {
    hide Fed, Octet;
    OctetFed(SIXTEEN, 0x31, 0xFFFF, 0xEFDF, 0xCF9F, 0x9F3E, 0x3E7C, 0x7CF8, 0xF9F0, 0xE3C1, 0xC782);
    OctetFed(SIXTEEN, 0x32, 0xC782, 0x9F25, 0x2E6B, 0x4CF7, 0x89CF, 0x03BF, 0x077E, 0x1EDD, 0x3DBA);
  }

  lemma SixteenThreeFour()
    ensures Fed(SIXTEEN, 0x3DBA, Octet(0x33)) == 0x5BCE
    ensures Fed(SIXTEEN, 0x5BCE, Octet(0x34)) == 0x5349
  {
    hide Fed, Octet;
    OctetFed(SIXTEEN, 0x33, 0x3DBA, 0x7B74, 0xF6E8, 0xEDD0, 0xDBA0, 0xA761, 0x5EE3, 0xADE7, 0x5BCE);
    OctetFed(SIXTEEN, 0x34, 0x5BCE, 0xB79C, 0x7F19, 0xEE13, 0xDC26, 0xA86D, 0x50DA, 0xA1B4, 0x5349);
  }

  lemma SixteenFiveSix()
    ensures Fed(SIXTEEN, 0x5349, Octet(0x35)) == 0x4560
    ensures Fed(SIXTEEN, 0x4560, Octet(0x36)) == 0x2EF4
  {
    hide Fed, Octet;
    OctetFed(SIXTEEN, 0x35, 0x5349, 0xA692, 0x5D05, 0xAA2B, 0x5456, 0xA8AC, 0x5158, 0xA2B0, 0x4560);
    OctetFed(SIXTEEN, 0x36, 0x4560, 0x8AC0, 0x05A1, 0x1B63, 0x26E7, 0x4DCE, 0x8BBD, 0x177A, 0x2EF4);
  }

  lemma SixteenSevenEight()
    ensures Fed(SIXTEEN, 0x2EF4, Octet(0x37)) == 0x7718
    ensures Fed(SIXTEEN, 0x7718, Octet(0x38)) == 0xA12B
  {
    hide Fed, Octet;
    OctetFed(SIXTEEN, 0x37, 0x2EF4, 0x5DE8, 0xBBD0, 0x77A0, 0xFF61, 0xEEE3, 0xDDC6, 0xBB8C, 0x7718);
    OctetFed(SIXTEEN, 0x38, 0x7718, 0xEE30, 0xCC41, 0x9882, 0x3104, 0x7229, 0xE452, 0xD885, 0xA12B);
  }

  lemma SixteenNine()
    ensures Fed(SIXTEEN, 0xA12B, Octet(0x39)) == 0x29B1
  {
    hide Fed, Octet;
    OctetFed(SIXTEEN, 0x39, 0xA12B, 0x5277, 0xA4EE, 0x49DC, 0x8399, 0x0732, 0x0E64, 0x1CC8, 0x29B1);
  }

  /** Nine octets, each one taking the register from one state to the next. */
  lemma NineFed(w: Weights, data: seq<byte>, n: seq<int>)
    requires w.Valid() && |data| == 9 && |n| == 10
    requires forall k :: 0 <= k < 9 ==> Fed(w, n[k], Octet(data[k])) == n[k + 1]
    ensures Fed(w, n[0], MessageBits(data, false)) == n[9]
  {
    FedFrom(w, data, n, 9);
    assert data[..9] == data;
  }

  lemma {:induction false} FedFrom(w: Weights, data: seq<byte>, n: seq<int>, k: nat)
    requires w.Valid() && |n| == |data| + 1 && k <= |data|
    requires forall j :: 0 <= j < |data| ==> Fed(w, n[j], Octet(data[j])) == n[j + 1]
    ensures Fed(w, n[0], MessageBits(data[..k], false)) == n[k]
    decreases k
  {
    if k > 0 {
      hide Fed, Octet, MessageBits;
      FedFrom(w, data, n, k - 1);
      OctetMore(w, n[0], data[..k - 1], data[k - 1]);
      assert data[..k - 1] + [data[k - 1]] == data[..k];
    }
  }

  lemma EightTerms()
    ensures Terms(Egts8().poly, 2, 3, 7, EIGHT) && Number(Egts8().init) == 0xFF
  {
    Widths();
    Powers();
    OfNumberInverse(0xFF, 8);
    EightPoly();
    hide Power2, Number, OfNumber;
  }

  lemma EightPoly()
    ensures forall m :: 0 <= m < 8 ==> (Octet(0x31)[m] <==> m == 2 || m == 3 || m == 7)
  {
    OctetIs(0x31);
    hide Octet;
  }

  lemma SixteenTerms()
    ensures Terms(Egts16().poly, 3, 10, 15, SIXTEEN) && Number(Egts16().init) == 0xFFFF
  {
    Widths();
    Powers();
    OfNumberInverse(0xFFFF, 16);
    hide Power2, Number, OfNumber;
    SixteenPoly(Egts16().poly);
  }

  lemma SixteenPoly(poly: Register)
    requires poly == OfNumber(0x1021, 16)
    ensures forall m :: 0 <= m < 16 ==> (poly[m] <==> m == 3 || m == 10 || m == 15)
  {
    HighHalf();
    LowHalf();
    OfNumberSplits(0x10, 0x21);
    var a, b := Octet(0x10), Octet(0x21);
    hide OfNumber, Octet;
    assert forall m :: 0 <= m < 8 ==> poly[m] == a[m];
    assert forall m :: 8 <= m < 16 ==> poly[m] == b[m - 8];
  }

  lemma HighHalf()
    ensures forall m :: 0 <= m < 8 ==> (Octet(0x10)[m] <==> m == 3)
  {
    OctetIs(0x10);
    hide Octet;
  }

  lemma LowHalf()
    ensures forall m :: 0 <= m < 8 ==> (Octet(0x21)[m] <==> m == 2 || m == 7)
  {
    OctetIs(0x21);
    hide Octet;
  }

  lemma OfNumberSplits(a: byte, b: byte)
    ensures OfNumber(0x100 * a + b, 16) == Octet(a) + Octet(b)
  {
    OfNumberFront(a, b, 8);
  }

  lemma {:induction false} OfNumberFront(a: nat, b: nat, width: nat)
    requires b < Power2(width)
    ensures OfNumber(Power2(width) * a + b, width + 8) == OfNumber(a, 8) + OfNumber(b, width)
    decreases width
  {
    if width > 0 {
      var p := Power2(width - 1);
      OfNumberFront(a, b / 2, width - 1);
      Doubled(p, a);
      var x := p * a;
      assert Power2(width) * a + b == 2 * x + b;
      assert (2 * x + b) / 2 == x + b / 2 && (2 * x + b) % 2 == b % 2;
      var f, g := OfNumber(a, 8), OfNumber(b / 2, width - 1);
      assert f + (g + [b % 2 == 1]) == f + g + [b % 2 == 1];
    } else {
      assert OfNumber(a, 8) + [] == OfNumber(a, 8);
    }
  }

  lemma Doubled(p: nat, a: nat)
    ensures 2 * p * a == 2 * (p * a)
  {
  }

  lemma EightFed()
    ensures Fed(EIGHT, 0xFF, MessageBits(DIGITS, false)) == 0xF7
  {
    hide Fed, Octet;
    EightOneTwo();
    EightThreeFour();
    EightFiveSix();
    EightSevenEight();
    EightNine();
    NineFed(EIGHT, DIGITS, [0xFF, 0x58, 0x60, 0x2D, 0xCB, 0x9D, 0x16, 0xB7, 0x54, 0xF7]);
  }

  lemma SixteenFed()
    ensures Fed(SIXTEEN, 0xFFFF, MessageBits(DIGITS, false)) == 0x29B1
  {
    hide Fed, Octet;
    SixteenOneTwo();
    SixteenThreeFour();
    SixteenFiveSix();
    SixteenSevenEight();
    SixteenNine();
    NineFed(SIXTEEN, DIGITS, [0xFFFF, 0xC782, 0x3DBA, 0x5BCE, 0x5349, 0x4560, 0x2EF4, 0x7718, 0xA12B, 0x29B1]);
  }

  lemma Plain(params: Params, r: Register)
    requires params.Valid() && |r| == |params.poly| && !params.refOut && params.xorOut == Zeros(|r|)
    ensures Finish(params, r) == r
  {
  }

  /** The check value of each, for the digits from one to nine. They fix the polynomial, the initial
      value, that nothing is reflected and that nothing is added in the end. */
  lemma CheckValues()
    ensures Crc8(DIGITS) == 0xF7 && Crc16(DIGITS) == 0x29B1
  {
    EightTerms();
    SixteenTerms();
    hide Terms, Fed, Number, OfNumber;
    var a, b := Egts8(), Egts16();
    EightFed();
    FedNumber(a.poly, a.init, MessageBits(DIGITS, false), 2, 3, 7, EIGHT);
    Plain(a, Serial(a.poly, a.init, MessageBits(DIGITS, false)));
    SixteenFed();
    FedNumber(b.poly, b.init, MessageBits(DIGITS, false), 3, 10, 15, SIXTEEN);
    Plain(b, Serial(b.poly, b.init, MessageBits(DIGITS, false)));
  }
}
