/**
 Bytes and 32-bit words as the C++ code sees them: integers with an explicit range, whose sums wrap
 through `Wrap`. The bitwise operators of MD5 go through bit-vectors.
 */
module Machine {
  type Byte = b: int | 0 <= b < 0x100
  type Word = w: int | 0 <= w < 0x1_0000_0000

  const WORD_SPAN := 0x1_0000_0000

  function Wrap(n: int): Word {
    n % WORD_SPAN
  }

  /** `count` zero bytes. */
  function Zeros(count: nat): (z: seq<Byte>)
    ensures |z| == count
  {
    seq(count, i => 0)
  }
}
