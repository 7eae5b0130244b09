/**
 The MD5 message digest as RFC 1321 defines it: padding and length (sections 3.1 and 3.2), the
 four table-driven rounds (section 3.4) and the output (section 3.5). Nothing here is streaming; this is
 the reference the hasher in `Md5` is measured against.
 */
module Rfc1321 {
  import opened Machine

  datatype Regs = Regs(a: Word, b: Word, c: Word, d: Word)

  const BLOCK: nat := 64
  const INIT := Regs(0x67452301, 0xefcdab89, 0x98badcfe, 0x10325476)

  function Sine1(i: nat): Word {
    match i
    case 0 => 0xd76aa478 case 1 => 0xe8c7b756 case 2 => 0x242070db case 3 => 0xc1bdceee
    case 4 => 0xf57c0faf case 5 => 0x4787c62a case 6 => 0xa8304613 case 7 => 0xfd469501
    case 8 => 0x698098d8 case 9 => 0x8b44f7af case 10 => 0xffff5bb1 case 11 => 0x895cd7be
    case 12 => 0x6b901122 case 13 => 0xfd987193 case 14 => 0xa679438e case _ => 0x49b40821
  }

  function Sine2(i: nat): Word {
    match i
    case 16 => 0xf61e2562 case 17 => 0xc040b340 case 18 => 0x265e5a51 case 19 => 0xe9b6c7aa
    case 20 => 0xd62f105d case 21 => 0x02441453 case 22 => 0xd8a1e681 case 23 => 0xe7d3fbc8
    case 24 => 0x21e1cde6 case 25 => 0xc33707d6 case 26 => 0xf4d50d87 case 27 => 0x455a14ed
    case 28 => 0xa9e3e905 case 29 => 0xfcefa3f8 case 30 => 0x676f02d9 case _ => 0x8d2a4c8a
  }

  function Sine3(i: nat): Word {
    match i
    case 32 => 0xfffa3942 case 33 => 0x8771f681 case 34 => 0x6d9d6122 case 35 => 0xfde5380c
    case 36 => 0xa4beea44 case 37 => 0x4bdecfa9 case 38 => 0xf6bb4b60 case 39 => 0xbebfbc70
    case 40 => 0x289b7ec6 case 41 => 0xeaa127fa case 42 => 0xd4ef3085 case 43 => 0x04881d05
    case 44 => 0xd9d4d039 case 45 => 0xe6db99e5 case 46 => 0x1fa27cf8 case _ => 0xc4ac5665
  }

  function Sine4(i: nat): Word {
    match i
    case 48 => 0xf4292244 case 49 => 0x432aff97 case 50 => 0xab9423a7 case 51 => 0xfc93a039
    case 52 => 0x655b59c3 case 53 => 0x8f0ccc92 case 54 => 0xffeff47d case 55 => 0x85845dd1
    case 56 => 0x6fa87e4f case 57 => 0xfe2ce6e0 case 58 => 0xa3014314 case 59 => 0x4e0811a1
    case 60 => 0xf7537e82 case 61 => 0xbd3af235 case 62 => 0x2ad7d2bb case _ => 0xeb86d391
  }

  /** The table of section 3.4, one round at a time. */
  function Sine(i: nat): Word {
    match i / 16
    case 0 => Sine1(i)
    case 1 => Sine2(i)
    case 2 => Sine3(i)
    case _ => Sine4(i)
  }

  // The four auxiliary functions and the rotation of section 3.4, on the bits of a word.

  function FBits(x: bv32, y: bv32, z: bv32): bv32 {
    (x & y) | (!x & z)
  }

  function GBits(x: bv32, y: bv32, z: bv32): bv32 {
    (x & z) | (y & !z)
  }

  function HBits(x: bv32, y: bv32, z: bv32): bv32 {
    x ^ y ^ z
  }

  function IBits(x: bv32, y: bv32, z: bv32): bv32 {
    y ^ (x | !z)
  }

  function RotateBits(x: bv32, n: nat): bv32
    requires 0 < n < 32
  {
    (x << n) | (x >> (32 - n))
  }

  function F(x: Word, y: Word, z: Word): Word {
    FBits(x as bv32, y as bv32, z as bv32) as int
  }

  function G(x: Word, y: Word, z: Word): Word {
    GBits(x as bv32, y as bv32, z as bv32) as int
  }

  function H(x: Word, y: Word, z: Word): Word {
    HBits(x as bv32, y as bv32, z as bv32) as int
  }

  function I(x: Word, y: Word, z: Word): Word {
    IBits(x as bv32, y as bv32, z as bv32) as int
  }

  function RotateLeft(x: Word, n: nat): Word
    requires 0 < n < 32
  {
    RotateBits(x as bv32, n) as int
  }

  function Mix(round: nat, x: Word, y: Word, z: Word): Word {
    match round
    case 0 => F(x, y, z)
    case 1 => G(x, y, z)
    case 2 => H(x, y, z)
    case _ => I(x, y, z)
  }

  /** Which of the sixteen block words step `i` reads: i, 5i+1, 3i+5 and 7i mod 16, round by round. */
  function WordIndex(i: nat): (k: nat)
    ensures k < 16
  {
    match i / 16
    case 0 => i % 16
    case 1 => (5 * i + 1) % 16
    case 2 => (3 * i + 5) % 16
    case _ => (7 * i) % 16
  }

  function Shift(i: nat): (s: nat)
    requires i < 64
    ensures 0 < s < 32
  {
    match i / 16
    case 0 => (match i % 4 case 0 => 7 case 1 => 12 case 2 => 17 case _ => 22)
    case 1 => (match i % 4 case 0 => 5 case 1 => 9 case 2 => 14 case _ => 20)
    case 2 => (match i % 4 case 0 => 4 case 1 => 11 case 2 => 16 case _ => 23)
    case _ => (match i % 4 case 0 => 6 case 1 => 10 case 2 => 15 case _ => 21)
  }

  /** One table step; the registers rotate so that the new value always lands in `b`. */
  function Step(i: nat, r: Regs, x: seq<Word>): Regs
    requires i < 64 && |x| == 16
  {
    var sum := Wrap(r.a + Mix(i / 16, r.b, r.c, r.d) + x[WordIndex(i)] + Sine(i));
    Regs(r.d, Wrap(r.b + RotateLeft(sum, Shift(i))), r.b, r.c)
  }

  function Steps(n: nat, r: Regs, x: seq<Word>): Regs
    requires n <= 64 && |x| == 16
    decreases |x|, n
  {
    if n == 0 then r else Step(n - 1, Steps(n - 1, r, x), x)
  }

  /** The word stored low byte first in four bytes. */
  function WordAt(bytes: seq<Byte>, j: nat): Word
    requires j + 4 <= |bytes|
  {
    bytes[j] as int + 0x100 * bytes[j + 1] as int + 0x1_0000 * bytes[j + 2] as int + 0x100_0000 * bytes[j + 3] as int
  }

  function Words(block: seq<Byte>): (x: seq<Word>)
    requires |block| == BLOCK
    ensures |x| == 16
  {
    seq(16, i requires 0 <= i < 16 => WordAt(block, 4 * i))
  }

  function Compress(r: Regs, block: seq<Byte>): Regs
    requires |block| == BLOCK
  {
    var s := Steps(64, r, Words(block));
    Regs(Wrap(r.a + s.a), Wrap(r.b + s.b), Wrap(r.c + s.c), Wrap(r.d + s.d))
  }

  /** All blocks of `data`, first to last. */
  function Fold(r: Regs, data: seq<Byte>): Regs
    requires |data| % BLOCK == 0
    decreases |data|
  {
    if data == [] then r
    else Compress(Fold(r, data[..|data| - BLOCK]), data[|data| - BLOCK..])
  }

  /** A word as four bytes, low byte first. */
  function WordBytes(w: Word): seq<Byte> {
    [w % 0x100, (w / 0x100) % 0x100, (w / 0x1_0000) % 0x100, w / 0x100_0000]
  }

  function RegsBytes(r: Regs): (out: seq<Byte>)
    ensures |out| == 16
  {
    WordBytes(r.a) + WordBytes(r.b) + WordBytes(r.c) + WordBytes(r.d)
  }

  /** Section 3.1: between 1 and 64 bytes, so that the length becomes 56 modulo 64. */
  function PadLength(n: nat): (k: nat)
    ensures 1 <= k <= 64 && (n + k) % 64 == 56
    ensures (n + k + 8) % BLOCK == 0
  {
    1 + (119 - n % 64) % 64
  }

  /** Section 3.2: the bit length modulo 2^64, low byte first. */
  function LengthBytes(n: nat): (out: seq<Byte>)
    ensures |out| == 8
  {
    var bits := (8 * n) % (WORD_SPAN * WORD_SPAN);
    WordBytes(bits % WORD_SPAN) + WordBytes(bits / WORD_SPAN)
  }

  function Padding(n: nat): (p: seq<Byte>)
    ensures |p| == PadLength(n) + 8
  {
    [0x80] + Zeros(PadLength(n) - 1) + LengthBytes(n)
  }

  function Digest(message: seq<Byte>): (out: seq<Byte>)
    ensures |out| == 16
  {
    RegsBytes(Fold(INIT, message + Padding(|message|)))
  }
}
