/** Bytes and fixed-width little-endian integers. */
module Bytes {
  type byte = x: int | 0 <= x < 0x100
  type uint16 = x: int | 0 <= x < 0x1_0000
  type uint32 = x: int | 0 <= x < 0x1_0000_0000

  datatype Option<+T> = None | Some(value: T)

  /** Go's (value, error) pair; only the presence of an error is kept. */
  datatype Result<+T> = Ok(value: T) | Err {
    predicate IsFailure() {
      Err?
    }

    function PropagateFailure<U>(): Result<U>
      requires Err?
    {
      Err
    }

    function Extract(): T
      requires Ok?
    {
      value
    }
  }

  /** What a read took from the front of a buffer, and what it left. */
  datatype Split = Split(head: seq<byte>, tail: seq<byte>)

  /** io.ReadFull of n octets. */
  function Read(n: nat, b: seq<byte>): Result<Split> {
    if |b| < n then Err else Ok(Split(b[..n], b[n..]))
  }

  /** The number in an optional field; zero when the field is absent. */
  function U16OrZero(b: seq<byte>): uint16 {
    if |b| == 2 then U16(b) else 0
  }

  // ---- little-endian integers ----

  function Le16(x: uint16): (b: seq<byte>)
    ensures |b| == 2
  {
    [x % 0x100, x / 0x100]
  }

  function U16(b: seq<byte>): uint16
    requires |b| == 2
  {
    var lo: int, hi: int := b[0], b[1];
    lo + 0x100 * hi
  }

  /** The three low octets of x, as the 24-bit fields are written. */
  function Le24(x: uint32): (b: seq<byte>)
    ensures |b| == 3
  {
    [x % 0x100, x / 0x100 % 0x100, x / 0x1_0000 % 0x100]
  }

  function U24(b: seq<byte>): (x: uint32)
    requires |b| == 3
    ensures x <= 0xff_ffff
  {
    var lo: int, mid: int, hi: int := b[0], b[1], b[2];
    lo + 0x100 * mid + 0x1_0000 * hi
  }

  function Le32(x: uint32): (b: seq<byte>)
    ensures |b| == 4
  {
    Le16(x % 0x1_0000) + Le16(x / 0x1_0000)
  }

  function U32(b: seq<byte>): uint32
    requires |b| == 4
  {
    var lo: int, hi: int := U16(b[..2]), U16(b[2..]);
    lo + 0x1_0000 * hi
  }

  lemma Le16Inverse(x: uint16)
    ensures U16(Le16(x)) == x
  {
  }

  lemma U16Inverse(b: seq<byte>)
    requires |b| == 2
    ensures Le16(U16(b)) == b
  {
    var lo: int, hi: int := b[0], b[1];
    assert (lo + 0x100 * hi) / 0x100 == hi;
  }

  lemma Le24Inverse(x: uint32)
    requires x <= 0xff_ffff
    ensures U24(Le24(x)) == x
  {
  }

  lemma U24Inverse(b: seq<byte>)
    requires |b| == 3
    ensures Le24(U24(b)) == b
  {
    var lo: int, mid: int, hi: int := b[0], b[1], b[2];
    var rest := mid + 0x100 * hi;
    assert (lo + 0x100 * rest) / 0x100 == rest && (lo + 0x100 * rest) % 0x100 == lo;
    assert rest / 0x100 == hi && rest % 0x100 == mid;
    assert (lo + 0x100 * rest) / 0x1_0000 == hi;
  }

  lemma Le32Inverse(x: uint32)
    ensures U32(Le32(x)) == x
  {
    assert Le32(x)[..2] == Le16(x % 0x1_0000) && Le32(x)[2..] == Le16(x / 0x1_0000);
    Le16Inverse(x % 0x1_0000);
    Le16Inverse(x / 0x1_0000);
  }

  lemma U32Inverse(b: seq<byte>)
    requires |b| == 4
    ensures Le32(U32(b)) == b
  {
    U16Inverse(b[..2]);
    U16Inverse(b[2..]);
    var lo: int, hi: int := U16(b[..2]), U16(b[2..]);
    assert (lo + 0x1_0000 * hi) / 0x1_0000 == hi && (lo + 0x1_0000 * hi) % 0x1_0000 == lo;
    assert b[..2] + b[2..] == b;
  }

  /** An optional 16-bit number and the octets that stand for it. */
  lemma OptionalU16(flag: string, x: uint16)
    requires flag != "1" ==> x == 0
    ensures U16OrZero(if flag == "1" then Le16(x) else []) == x
  {
    Le16Inverse(x);
  }

  lemma OptionalField(flag: string, b: seq<byte>)
    requires |b| == if flag == "1" then 2 else 0
    ensures (if flag == "1" then Le16(U16OrZero(b)) else []) == b
    ensures flag != "1" ==> U16OrZero(b) == 0
  {
    if flag == "1" {
      U16Inverse(b);
    }
  }

  lemma HeadDecides(x: byte, y: byte, rest: seq<byte>, b: seq<byte>)
    requires |b| == |rest| + 1 && b[1..] == rest && b[0] == y
    ensures |[x] + rest| == |b| && ([x] + rest == b <==> x == y)
  {
    assert b == [y] + rest;
    assert ([x] + rest)[0] == x;
  }

  // ---- lists built in a loop ----

  /** What is already done, in front of what the rest will give. */
  function Prepend<T>(done: seq<T>, rest: Result<seq<T>>): Result<seq<T>> {
    match rest
    case Ok(v) => Ok(done + v)
    case Err => Err
  }

  lemma PrependTwice<T>(done: seq<T>, more: seq<T>, rest: Result<seq<T>>)
    ensures Prepend(done, Prepend(more, rest)) == Prepend(done + more, rest)
  {
    if rest.Ok? {
      assert done + (more + rest.value) == done + more + rest.value;
    }
  }

  lemma PrependNothing<T>(done: seq<T>, rest: Result<seq<T>>)
    ensures Prepend([], rest) == rest
    ensures Prepend(done, Ok([])) == Ok(done)
  {
    if rest.Ok? {
      assert [] + rest.value == rest.value;
    }
    assert done + [] == done;
  }

  /** Two concatenations cut at the same place. */
  lemma SplitSame<T>(a: seq<T>, c: seq<T>, x: seq<T>, y: seq<T>)
    requires |a| == |x|
    ensures a + c == x + y <==> a == x && c == y
  {
    assert (a + c)[..|a|] == a && (a + c)[|a|..] == c;
    assert (x + y)[..|x|] == x && (x + y)[|x|..] == y;
  }
}
