/** The strings of '0' and '1' in which the codec keeps its flags: Sprintf("%08b") on the way in,
    strconv.ParseUint(s, 2, 8) on the way out. */
module Flags {
  import opened Bytes
  import opened Registers

  function Digit(bit: bool): char {
    if bit then '1' else '0'
  }

  /** What Sprintf("%08b") prints: the eight bits of b, most significant first. */
  function Bits8(b: byte): (s: string)
    ensures |s| == 8 && IsBits(s)
  {
    var r := Octet(b);
    seq(8, i requires 0 <= i < 8 => Digit(r[i]))
  }

  predicate IsBits(s: string) {
    forall i :: 0 <= i < |s| ==> s[i] == '0' || s[i] == '1'
  }

  /** A one-bit flag as Decode leaves it. */
  predicate IsFlag(s: string) {
    s == "0" || s == "1"
  }

  datatype Parsed = Value(v: byte) | SyntaxError | RangeError

  /** The first bad digit or overflow met from the left decides; an empty string is a bad digit. */
  function ParseBits(s: string): Parsed {
    if s == "" then SyntaxError else ParseFrom(0, s)
  }

  function ParseFrom(acc: byte, s: string): Parsed
    decreases s
  {
    if s == "" then Value(acc)
    else
      var next := ParseDigit(acc, s[0]);
      if next.Value? then ParseFrom(next.v, s[1..]) else next
  }

  function ParseDigit(acc: byte, c: char): Parsed {
    if c != '0' && c != '1' then SyntaxError
    else if 2 * acc + (if c == '1' then 1 else 0) > 255 then RangeError
    else Value(2 * acc + (if c == '1' then 1 else 0))
  }

  function Bools(s: string): (r: Register)
    ensures |r| == |s|
  {
    seq(|s|, i requires 0 <= i < |s| => s[i] == '1')
  }

  lemma {:induction false} ParseSnoc(acc: byte, s: string, c: char)
    ensures ParseFrom(acc, s + [c]) ==
            var first := ParseFrom(acc, s);
            if first.Value? then ParseDigit(first.v, c) else first
    decreases s
  {
    if s == "" {
      assert (s + [c])[1..] == "";
    } else {
      assert (s + [c])[0] == s[0] && (s + [c])[1..] == s[1..] + [c];
      var next := ParseDigit(acc, s[0]);
      if next.Value? {
        ParseSnoc(next.v, s[1..], c);
      }
    }
  }

  /** Up to eight binary digits parse to the number they spell; nothing but digits parses. */
  lemma {:induction false} ParseShort(s: string)
    requires |s| <= 8
    ensures IsBits(s) ==> Number(Bools(s)) < 0x100 && ParseFrom(0, s) == Value(Number(Bools(s)))
    ensures ParseFrom(0, s).Value? ==> IsBits(s)
    decreases |s|
  {
    if s != "" {
      var n := |s| - 1;
      ParseShort(s[..n]);
      ParseSnoc(0, s[..n], s[n]);
      assert s[..n] + [s[n]] == s;
      assert Bools(s)[..n] == Bools(s[..n]);
      NumberBound(Bools(s));
      Power2Monotone(|s|);
    }
  }

  lemma {:induction false} Power2Monotone(n: nat)
    requires n <= 8
    ensures Power2(n) <= 0x100
    decreases 8 - n
  {
    if n == 8 {
      Widths();
    } else {
      Power2Monotone(n + 1);
    }
  }

  /** Printing an octet and parsing it back is the identity. */
  lemma Bits8Parses(b: byte)
    ensures ParseBits(Bits8(b)) == Value(b)
  {
    assert Bools(Bits8(b)) == Octet(b);
    Widths();
    OfNumberInverse(b, 8);
    ParseShort(Bits8(b));
  }

  /** Eight characters parse exactly when they are all digits, and print back unchanged. */
  lemma ParsedPrints(s: string)
    requires |s| == 8
    ensures ParseBits(s).Value? <==> IsBits(s)
    ensures IsBits(s) ==> Bits8(ParseBits(s).v) == s
  {
    ParseShort(s);
    if IsBits(s) {
      NumberInverse(Bools(s));
      assert Bits8(ParseBits(s).v) == s;
    }
  }

  /** Eight flags joined, most significant first. */
  function Join(a: string, b: string, c: string, d: string, e: string, f: string, g: string, h: string): string {
    a + b + c + d + e + f + g + h
  }

  lemma JoinFlags(s: string)
    requires |s| == 8 && IsBits(s)
    ensures Join([s[0]], [s[1]], [s[2]], [s[3]], [s[4]], [s[5]], [s[6]], [s[7]]) == s
  {
  }

  lemma JoinedFlags(a: string, b: string, c: string, d: string, e: string, f: string, g: string, h: string)
    requires IsFlag(a) && IsFlag(b) && IsFlag(c) && IsFlag(d) && IsFlag(e) && IsFlag(f) && IsFlag(g) && IsFlag(h)
    ensures Join(a, b, c, d, e, f, g, h) == [a[0], b[0], c[0], d[0], e[0], f[0], g[0], h[0]]
  {
    assert a + b == [a[0], b[0]];
    assert a + b + c == [a[0], b[0], c[0]];
    assert a + b + c + d == [a[0], b[0], c[0], d[0]];
    assert a + b + c + d + e == [a[0], b[0], c[0], d[0], e[0]];
    assert a + b + c + d + e + f == [a[0], b[0], c[0], d[0], e[0], f[0]];
    assert a + b + c + d + e + f + g == [a[0], b[0], c[0], d[0], e[0], f[0], g[0]];
  }

  /** Flags written by Encode are the flags Decode finds in the octet. */
  lemma FlagsReadBack(a: string, b: string, c: string, d: string, e: string, f: string, g: string, h: string)
    requires IsFlag(a) && IsFlag(b) && IsFlag(c) && IsFlag(d) && IsFlag(e) && IsFlag(f) && IsFlag(g) && IsFlag(h)
    ensures ParseBits(Join(a, b, c, d, e, f, g, h)).Value?
    ensures Bits8(ParseBits(Join(a, b, c, d, e, f, g, h)).v) == [a[0], b[0], c[0], d[0], e[0], f[0], g[0], h[0]]
  {
    JoinedFlags(a, b, c, d, e, f, g, h);
    ParsedPrints([a[0], b[0], c[0], d[0], e[0], f[0], g[0], h[0]]);
  }

  /** Flags found by Decode are written back as the same octet. */
  lemma FlagsWrittenBack(v: byte)
    ensures var s := Bits8(v);
            ParseBits(Join([s[0]], [s[1]], [s[2]], [s[3]], [s[4]], [s[5]], [s[6]], [s[7]])) == Value(v)
  {
    JoinFlags(Bits8(v));
    Bits8Parses(v);
  }
}
