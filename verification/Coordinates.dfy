/** What becomes of a coordinate that is decoded to degrees and encoded again: the arithmetic of
    sr_pos_data.go on IEEE 754 doubles (53-bit significands, ties to even), in whole numbers. */
module Coordinates {
  import opened Bytes

  /** 0xFFFFFFFF, the largest coordinate on the wire. */
  const FULL: nat := 0xFFFF_FFFF
  /** The smallest 53-bit significand. */
  const HIDDEN: nat := 0x10_0000_0000_0000

  function Pow2(k: nat): (p: nat)
    ensures p > 0
  {
    if k == 0 then 1 else 2 * Pow2(k - 1)
  }

  /** m / 2^k. */
  datatype Double = Double(m: nat, k: nat)

  function Value(d: Double): real {
    d.m as real / Pow2(d.k) as real
  }

  /** How often p/q is doubled to get a significand of 53 bits. */
  function Shift(p: nat, q: nat): nat
    requires 0 < p < 2 * HIDDEN * q
    decreases HIDDEN * q - p
  {
    if p >= HIDDEN * q then 0 else 1 + Shift(2 * p, q)
  }

  function NearestEven(p: nat, q: nat): nat
    requires q > 0
  {
    var f, r := p / q, p % q;
    if 2 * r < q || (2 * r == q && f % 2 == 0) then f else f + 1
  }

  /** The double nearest to p/q. */
  function Rounded(p: nat, q: nat): Double
    requires 0 < p < 2 * HIDDEN * q
  {
    var k := Shift(p, q);
    Double(NearestEven(p * Pow2(k), q), k)
  }

  // ---- how near ----

  lemma {:induction false} ShiftScales(p: nat, q: nat)
    requires 0 < p < 2 * HIDDEN * q
    ensures HIDDEN * q <= p * Pow2(Shift(p, q)) < 2 * HIDDEN * q
    decreases HIDDEN * q - p
  {
    if p < HIDDEN * q {
      ShiftScales(2 * p, q);
      var k := Shift(2 * p, q);
      assert p * Pow2(1 + k) == p * (2 * Pow2(k)) == 2 * p * Pow2(k);
    }
  }

  lemma NearestHalf(p: nat, q: nat)
    requires q > 0
    ensures -(q as int) <= 2 * (NearestEven(p, q) * q - p) <= q
  {
    var f, r := p / q, p % q;
    assert p == f * q + r;
    assert (f + 1) * q == f * q + q;
  }

  /** The significand has 53 bits, and the error is at most half a unit in its last place. */
  lemma RoundedNear(p: nat, q: nat)
    requires 0 < p < 2 * HIDDEN * q
    ensures var d := Rounded(p, q);
            && HIDDEN <= d.m <= 2 * HIDDEN
            && 2 * HIDDEN * (d.m * q - p * Pow2(d.k)) <= p * Pow2(d.k)
            && 2 * HIDDEN * (p * Pow2(d.k) - d.m * q) <= p * Pow2(d.k)
  {
    var k := Shift(p, q);
    var s := p * Pow2(k);
    var m := NearestEven(s, q);
    ShiftScales(p, q);
    NearestHalf(s, q);
    assert m >= HIDDEN by {
      if m <= HIDDEN - 1 {
        MulOrder(m, HIDDEN - 1, q);
      }
    }
    assert m <= 2 * HIDDEN by {
      if m >= 2 * HIDDEN + 1 {
        MulOrder(2 * HIDDEN + 1, m, q);
      }
    }
  }

  lemma MulOrder(a: int, b: int, q: nat)
    requires a <= b
    ensures a * q <= b * q
  {
  }

  lemma CastProduct(a: int, b: int)
    ensures (a * b) as real == a as real * b as real
  {
  }

  lemma CastNear(u: int, a: int, b: int)
    requires u * (a - b) <= b && u * (b - a) <= b
    ensures u as real * (a as real - b as real) <= b as real && u as real * (b as real - a as real) <= b as real
  {
    CastProduct(u, a - b);
    CastProduct(u, b - a);
  }

  /** Within a factor of 2^-53. */
  predicate Near(r: real, v: real) {
    2.0 * HIDDEN as real * (r - v) <= v && 2.0 * HIDDEN as real * (v - r) <= v
  }

  lemma Divide(u: real, r: real, v: real, c: real, rc: real, vc: real)
    requires c > 0.0 && rc == r * c && vc == v * c
    requires u * (rc - vc) <= vc && u * (vc - rc) <= vc
    ensures u * (r - v) <= v && u * (v - r) <= v
  {
    assert (u * (r - v) - v) * c <= 0.0;
    assert (u * (v - r) - v) * c <= 0.0;
  }

  lemma Over(m: real, s: real, p: real, t: real, a: real, b: real)
    requires s > 0.0 && t > 0.0 && a == m * t && b == p * s && Near(a, b)
    ensures Near(m / s, p / t)
  {
    var r, v := m / s, p / t;
    assert a == r * (s * t) by {
      assert m == r * s;
    }
    assert b == v * (s * t) by {
      assert p == v * t;
    }
    assert s * t > 0.0;
    Divide(2.0 * HIDDEN as real, r, v, s * t, a, b);
  }

  /** The same in numbers: a relative error of at most 2^-53. */
  lemma RelativeError(p: nat, q: nat)
    requires 0 < p < 2 * HIDDEN * q
    ensures Near(Value(Rounded(p, q)), p as real / q as real)
  {
    var d := Rounded(p, q);
    RoundedNear(p, q);
    hide Rounded, Pow2;
    var s := Pow2(d.k);
    var a, b := d.m * q, p * s;
    assert q > 0;
    RelativeErrorOf(d.m, s, p, q, a, b);
  }

  lemma RelativeErrorOf(m: nat, s: nat, p: nat, q: nat, a: nat, b: nat)
    requires s > 0 && q > 0 && a == m * q && b == p * s
    requires 2 * HIDDEN * (a - b) <= b && 2 * HIDDEN * (b - a) <= b
    ensures Near(m as real / s as real, p as real / q as real)
  {
    CastProduct(m, q);
    CastProduct(p, s);
    var u, v := a as real, b as real;
    assert Near(u, v) by {
      CastNear(2 * HIDDEN, a, b);
    }
    hide Near;
    Over(m as real, s as real, p as real, q as real, u, v);
  }

  // ---- decoded and encoded again ----

  /** The degrees that a coordinate stands for; d is 90 for a latitude, 180 for a longitude. */
  function Degrees(x: nat, d: nat): Double
    requires 0 < x <= FULL && 0 < d <= 180
  {
    PartOf(x, d);
    Rounded(d * x, FULL)
  }

  lemma RealOrder(a: real, b: real, c: real)
    requires a <= b && c >= 0.0
    ensures a * c <= b * c
  {
  }

  lemma StrictOrder(a: real, b: real, c: real)
    requires a < b && c > 0.0
    ensures a * c < b * c
  {
  }

  lemma Under(d: Double, c: nat)
    requires Value(d) < c as real
    ensures d.m < c * Pow2(d.k)
  {
    hide Pow2;
    var s := Pow2(d.k);
    assert d.m as real == Value(d) * s as real;
    StrictOrder(Value(d), c as real, s as real);
    CastProduct(c, s);
  }

  lemma Above(d: Double, c: int)
    requires Value(d) > c as real
    ensures d.m > c * Pow2(d.k)
  {
    hide Pow2;
    var s := Pow2(d.k);
    assert d.m as real == Value(d) * s as real;
    StrictOrder(c as real, Value(d), s as real);
    CastProduct(c, s);
  }

  lemma OverProduct(m: nat, d: nat, s: nat)
    requires d > 0 && s > 0
    ensures m as real / (d * s) as real == m as real / s as real / d as real
  {
    CastProduct(d, s);
    var v := m as real / s as real / d as real;
    assert v * d as real * s as real == m as real;
    assert v * (d * s) as real == m as real;
  }

  lemma Positive(d: nat, s: nat)
    requires d > 0 && s > 0
    ensures 0 < 2 * d * s == 2 * (d * s) < 2 * HIDDEN * (d * s)
  {
  }

  lemma PartOf(x: nat, d: nat)
    requires 0 < x <= FULL && 0 < d
    ensures 0 < d * x <= d * FULL && (d * x) as real / FULL as real <= d as real
  {
    var p := d * x;
    MulOrder(1, x, d);
    MulOrder(x, FULL, d);
    assert p as real <= d as real * FULL as real;
  }

  lemma NearTwice(r: real, v: real, d: nat)
    requires Near(r, v) && v <= d as real && d > 0
    ensures r < (2 * d) as real
  {
  }

  lemma RoundedFits(p: nat, d: nat)
    requires 0 < p < 2 * HIDDEN * FULL && 0 < d <= 180 && p as real / FULL as real <= d as real
    ensures var a := Rounded(p, FULL);
            && HIDDEN <= a.m <= 2 * HIDDEN && a.m < 2 * (d * Pow2(a.k)) < 2 * HIDDEN * (d * Pow2(a.k))
            && Near(Value(a), p as real / FULL as real)
  {
    RoundedNear(p, FULL);
    RelativeError(p, FULL);
    var a := Rounded(p, FULL);
    hide Rounded, Pow2, Value, Near;
    NearTwice(Value(a), p as real / FULL as real, d);
    Under(a, 2 * d);
    Positive(d, Pow2(a.k));
  }

  /** The degrees over d lie below 2, so that the quotient fits a double. */
  lemma DegreesFit(x: nat, d: nat)
    requires 0 < x <= FULL && 0 < d <= 180
    ensures var a := Degrees(x, d);
            && HIDDEN <= a.m <= 2 * HIDDEN && a.m < 2 * (d * Pow2(a.k)) < 2 * HIDDEN * (d * Pow2(a.k))
            && Near(Value(a), (d * x) as real / FULL as real)
  {
    PartOf(x, d);
    var p := d * x;
    assert Degrees(x, d) == Rounded(p, FULL);
    hide Rounded, Pow2, Value, Near;
    RoundedFits(p, d);
  }

  /** math.Abs(degrees) / d. */
  function Fraction(a: Double, d: nat): Double
    requires HIDDEN <= a.m && 0 < d && a.m < 2 * HIDDEN * (d * Pow2(a.k))
  {
    Rounded(a.m, d * Pow2(a.k))
  }

  lemma BelowTwo(m: nat, q: nat)
    requires m < 2 * q
    ensures m as real / q as real < 2.0
  {
    var v, t := m as real / q as real, q as real;
    assert v * t == m as real;
    if v >= 2.0 {
      RealOrder(2.0, v, t);
    }
  }

  lemma FractionFits(a: Double, d: nat)
    requires HIDDEN <= a.m && 0 < d && a.m < 2 * (d * Pow2(a.k)) < 2 * HIDDEN * (d * Pow2(a.k))
    ensures var b := Fraction(a, d);
            && HIDDEN <= b.m && b.m * FULL < 2 * HIDDEN * Pow2(b.k)
            && Near(Value(b), Value(a) / d as real)
  {
    var q := d * Pow2(a.k);
    RoundedNear(a.m, q);
    RelativeError(a.m, q);
    OverProduct(a.m, d, Pow2(a.k));
    var b := Fraction(a, d);
    hide Rounded, Pow2, Value;
    BelowTwo(a.m, q);
    assert Value(b) < 3.0;
    Under(b, 3);
    assert Pow2(b.k) > FULL;
    MulOrder(FULL + 1, Pow2(b.k), 2 * HIDDEN);
    MulOrder(b.m, 2 * HIDDEN, FULL);
  }

  /** That times 0xFFFFFFFF. */
  function Scaled(b: Double): Double
    requires 0 < b.m * FULL < 2 * HIDDEN * Pow2(b.k)
  {
    Rounded(b.m * FULL, Pow2(b.k))
  }

  /** math.Abs(degrees) / d, where the degrees are those of x. */
  function Share(x: nat, d: nat): (b: Double)
    requires 0 < x <= FULL && 0 < d <= 180
    ensures 0 < b.m * FULL < 2 * HIDDEN * Pow2(b.k)
  {
    hide Rounded, Pow2, Near, Value;
    DegreesFit(x, d);
    FractionFits(Degrees(x, d), d);
    Fraction(Degrees(x, d), d)
  }

  function Floor(d: Double): int {
    d.m / Pow2(d.k)
  }

  /** uint32(math.Abs(degrees) / d * 0xFFFFFFFF), where the degrees are those of x. */
  function Written(x: nat, d: nat): int
    requires x <= FULL && 0 < d <= 180
  {
    if x == 0 then 0
    else
      Floor(Scaled(Share(x, d)))
  }

  lemma QuotientTimes(m: nat, s: nat)
    requires s > 0
    ensures (m * FULL) as real / s as real == m as real / s as real * FULL as real
  {
    var v := m as real / s as real;
    assert v * s as real == m as real;
    assert v * FULL as real * s as real == (m * FULL) as real;
  }

  lemma ScaledNear(b: Double)
    requires 0 < b.m * FULL < 2 * HIDDEN * Pow2(b.k)
    ensures Near(Value(Scaled(b)), Value(b) * FULL as real)
  {
    var s := Pow2(b.k);
    RelativeError(b.m * FULL, s);
    hide Near, Rounded, Pow2;
    QuotientTimes(b.m, s);
  }

  lemma NearTimes(r: real, v: real, c: real)
    requires Near(r, v) && c > 0.0
    ensures Near(r * c, v * c)
  {
    assert (2.0 * HIDDEN as real * (r - v) - v) * c <= 0.0;
    assert (2.0 * HIDDEN as real * (v - r) - v) * c <= 0.0;
  }

  lemma Truncated(c: Double, x: nat)
    requires (x as real) - 1.0 < Value(c) < x as real + 1.0
    ensures x - 1 <= Floor(c) <= x
  {
    hide Pow2;
    Under(c, x + 1);
    Above(c, x - 1);
    QuotientBetween(c.m, Pow2(c.k), x);
  }

  lemma QuotientBetween(m: nat, s: nat, x: nat)
    requires s > 0 && (x - 1) * s < m < (x + 1) * s
    ensures x - 1 <= m / s <= x
  {
    var f := m / s;
    assert f * s <= m < (f + 1) * s;
    if f > x {
      MulOrder(x + 1, f, s);
    }
    if f < x - 1 {
      MulOrder(f + 1, x - 1, s);
    }
  }

  /** Three roundings and a truncation: a coordinate is written back as it was or one less. */
  lemma WrittenNear(x: nat, d: nat)
    requires x <= FULL && 0 < d <= 180
    ensures x - 1 <= Written(x, d) <= x
  {
    if x > 0 {
      DegreesFit(x, d);
      var a := Degrees(x, d);
      FractionFits(a, d);
      var b := Fraction(a, d);
      ScaledNear(b);
      var c := Scaled(b);
      assert Written(x, d) == Floor(c);
      hide Rounded, Pow2, Value, Near, Degrees, Fraction, Scaled, Written;
      NearChain(Value(a), Value(b), Value(c), x, d);
      Truncated(c, x);
    }
  }

  lemma NearChain(a: real, b: real, c: real, x: nat, d: nat)
    requires 0 < x <= FULL && 0 < d
    requires Near(a, (d * x) as real / FULL as real) && Near(b, a / d as real) && Near(c, b * FULL as real)
    ensures (x as real) - 1.0 < c < x as real + 1.0
  {
    FirstNear(a, x, d);
    SecondNear(b, a, d as real);
    NearThrice(c, b * FULL as real, a * (FULL as real / d as real), x as real);
  }

  lemma FirstNear(a: real, x: nat, d: nat)
    requires 0 < x <= FULL && 0 < d && Near(a, (d * x) as real / FULL as real)
    ensures Near(a * (FULL as real / d as real), x as real)
  {
    var n, e := FULL as real, d as real;
    assert n / e > 0.0 && (d * x) as real / n * (n / e) == x as real by {
      CastProduct(d, x);
      Cancel(e, x as real, n);
    }
    NearTimes(a, (d * x) as real / n, n / e);
  }

  lemma SecondNear(b: real, a: real, e: real)
    requires e > 0.0 && Near(b, a / e)
    ensures Near(b * FULL as real, a * (FULL as real / e))
  {
    var n := FULL as real;
    assert a / e * n == a * (n / e) by {
      Swap(a, e, n);
    }
    NearTimes(b, a / e, n);
  }

  lemma Cancel(e: real, x: real, n: real)
    requires e > 0.0 && n > 0.0
    ensures n / e > 0.0 && e * x / n * (n / e) == x
  {
    var q := n / e;
    assert q * e == n;
    assert q > 0.0;
    var v := e * x / n;
    assert v * n == e * x;
    assert v * q * e == e * x;
  }

  lemma Swap(a: real, e: real, n: real)
    requires e > 0.0
    ensures a / e * n == a * (n / e)
  {
    var u, v := a / e, n / e;
    assert u * e == a && v * e == n;
  }

  lemma NearThrice(c: real, b: real, a: real, x: real)
    requires 0.0 < x <= FULL as real && Near(c, b) && Near(b, a) && Near(a, x)
    ensures x - 1.0 < c < x + 1.0
  {
  }

  /** Shift is told by its scale. */
  lemma {:induction false} ShiftIs(p: nat, q: nat, k: nat)
    requires 0 < p < 2 * HIDDEN * q && HIDDEN * q <= p * Pow2(k) < 2 * HIDDEN * q
    ensures Shift(p, q) == k
    decreases k
  {
    if k > 0 {
      assert p * Pow2(k) == 2 * p * Pow2(k - 1);
      MulOrder(1, Pow2(k - 1), 2 * p);
      ShiftIs(2 * p, q, k - 1);
    }
  }

  lemma NearestIs(p: nat, q: nat, m: nat)
    requires q > 0 && -(q as int) < 2 * (m * q - p) < q
    ensures NearestEven(p, q) == m
  {
    var f, r := p / q, p % q;
    assert p == f * q + r;
    assert (m + 1) * q == m * q + q && (f + 2) * q == f * q + 2 * q;
    assert f <= m by {
      if f > m {
        MulOrder(m + 1, f, q);
      }
    }
    assert f >= m - 1 by {
      if f < m - 1 {
        MulOrder(f + 2, m, q);
      }
    }
    assert f == m || m * q == f * q + q by {
      if f != m {
        assert (f + 1) * q == f * q + q;
      }
    }
  }

  lemma RoundedIs(p: nat, q: nat, k: nat, s: nat, m: nat)
    requires 0 < p < 2 * HIDDEN * q && s == Pow2(k) && HIDDEN * q <= p * s < 2 * HIDDEN * q
    requires -(q as int) < 2 * (m * q - p * s) < q
    ensures Rounded(p, q) == Double(m, k)
  {
    ShiftIs(p, q, k);
    NearestIs(p * s, q, m);
  }

  lemma WrittenIs(x: nat, d: nat, a: Double, b: Double, c: Double)
    requires 0 < x <= FULL && 0 < d <= 180 && Degrees(x, d) == a
    requires 0 < a.m < 2 * HIDDEN * (d * Pow2(a.k)) && Rounded(a.m, d * Pow2(a.k)) == b
    requires 0 < b.m * FULL < 2 * HIDDEN * Pow2(b.k) && Rounded(b.m * FULL, Pow2(b.k)) == c
    ensures Written(x, d) == Floor(c)
  {
  }

  const SLIPS: nat := 186415

  lemma {:induction false} PowerSum(k: nat, n: nat)
    ensures Pow2(k + n) == Pow2(k) * Pow2(n)
  {
    if k > 0 {
      PowerSum(k - 1, n);
      assert 2 * Pow2(k - 1) * Pow2(n) == 2 * (Pow2(k - 1) * Pow2(n));
    }
  }

  lemma SmallPowers()
    ensures Pow2(1) == 2 && Pow2(3) == 8 && Pow2(7) == 128 && Pow2(28) == 0x1000_0000
  {
    assert Pow2(1) == 2;
    hide Pow2;
    PowerSum(1, 1);
    PowerSum(1, 2);
    PowerSum(3, 3);
    PowerSum(6, 1);
    PowerSum(7, 7);
    PowerSum(14, 14);
  }

  lemma Powers()
    ensures Pow2(35) == 0x800000000 && Pow2(59) == 0x800000000000000
    ensures Pow2(60) == 0x1000000000000000 && Pow2(67) == 0x80000000000000000
  {
    SmallPowers();
    hide Pow2;
    PowerSum(28, 7);
    PowerSum(28, 28);
    PowerSum(56, 3);
    PowerSum(59, 1);
    PowerSum(60, 7);
  }

  lemma SlipsAt(d: nat, k: nat, s: nat, p: nat)
    requires s == Pow2(k) && 0 < d <= 180 && p == d * SLIPS
    requires d * s == 103762935414616227840 && p * s == 19342967605315684112793600
    ensures Written(SLIPS, d) == SLIPS - 1
  {
    Powers();
    hide Pow2, Rounded, Written;
    var a, b, c := 4503635598770184, 6405170629362039, 6405170627870719;
    RoundedIs(p, FULL, k, s, a);
    RoundedIs(a, 103762935414616227840, 67, 0x80000000000000000, b);
    RoundedIs(b * FULL, 0x80000000000000000, 35, 0x800000000, c);
    WrittenIs(SLIPS, d, Double(a, k), Double(b, 67), Double(c, 35));
  }

  /** Not every coordinate survives: this one is written back as one less, be it a latitude or a longitude. */
  lemma SomeAreOneLess()
    ensures Written(SLIPS, 90) == Written(SLIPS, 180) == SLIPS - 1
  {
    Powers();
    hide Pow2, Written;
    SlipsAt(90, 60, 0x1000000000000000, 90 * SLIPS);
    SlipsAt(180, 59, 0x800000000000000, 180 * SLIPS);
  }
}
