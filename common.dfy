/** Small helpers shared by every module: an optional value (Java's nullable
    reference), decimal rendering of non-negative integers (Java string
    concatenation of an int), and Java's wrapping 32-bit int arithmetic. */
module Common {

  /** A Java reference that may be null. */
  datatype Option<+T> = None | Some(value: T)

  function DigitChar(d: nat): char
    requires d < 10
  {
    "0123456789"[d]
  }

  /** Decimal text of a non-negative int, as `"" + n` produces it in Java. */
  function NatToString(n: nat): (s: string)
    ensures |s| >= 1
    ensures forall i :: 0 <= i < |s| ==> '0' <= s[i] <= '9'
    decreases n
  {
    if n < 10 then [DigitChar(n)] else NatToString(n / 10) + [DigitChar(n % 10)]
  }

  const TwoTo32: int := 0x1_0000_0000

  /** Java's `int`: two's complement, 32 bits. */
  newtype Int32 = x: int | -0x8000_0000 <= x < 0x8000_0000

  /** The Java `int` that an unbounded integer wraps around to. */
  function Wrap(x: int): (r: Int32)
    ensures (r as int - x) % TwoTo32 == 0
  {
    var shifted := x + 0x8000_0000;
    assert shifted == TwoTo32 * (shifted / TwoTo32) + shifted % TwoTo32;
    (shifted % TwoTo32 - 0x8000_0000) as Int32
  }

  /** Two integers congruent modulo 2^32 wrap to the same Java `int`. */
  lemma WrapCongruent(x: int, y: int)
    requires (x - y) % TwoTo32 == 0
    ensures Wrap(x) == Wrap(y)
  {
    var sx, sy := x + 0x8000_0000, y + 0x8000_0000;
    assert sx == TwoTo32 * (sx / TwoTo32) + sx % TwoTo32;
    assert sy == TwoTo32 * (sy / TwoTo32) + sy % TwoTo32;
    assert x - y == TwoTo32 * ((x - y) / TwoTo32);
    var d := (sx / TwoTo32) - (sy / TwoTo32) - (x - y) / TwoTo32;
    assert sx % TwoTo32 - sy % TwoTo32 == -TwoTo32 * d;
  }
}
