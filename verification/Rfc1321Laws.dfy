/**
 What the parts of the reference compute, stated without their formulas, and one digest of the test suite of
 RFC 1321 (section A.5) worked through.
 */
module Rfc1321Laws {
  import opened Machine
  import opened Rfc1321

  /** F chooses: the bits of y where x has a 1, the bits of z where it has a 0. */
  lemma FChooses(x: bv32, y: bv32, z: bv32)
    ensures FBits(x, y, z) & x == y & x
    ensures FBits(x, y, z) & !x == z & !x
  {
  }

  /** G chooses by z: the bits of x where z has a 1, the bits of y where it has a 0. */
  lemma GChooses(x: bv32, y: bv32, z: bv32)
    ensures GBits(x, y, z) & z == x & z
    ensures GBits(x, y, z) & !z == y & !z
  {
  }

  lemma GIsF(x: bv32, y: bv32, z: bv32)
    ensures GBits(x, y, z) == FBits(z, x, y)
  {
    assert x & z == z & x && y & !z == !z & y;
  }

  lemma HKeeps(x: bv32, y: bv32, z: bv32)
    ensures HBits(x, y, z) & y & z == x & y & z
  {
  }

  lemma HKeepsToo(x: bv32, y: bv32, z: bv32)
    ensures HBits(x, y, z) & !y & !z == x & !y & !z
  {
  }

  lemma HFlips(x: bv32, y: bv32, z: bv32)
    ensures HBits(x, y, z) & y & !z == !x & y & !z
  {
  }

  lemma HFlipsToo(x: bv32, y: bv32, z: bv32)
    ensures HBits(x, y, z) & !y & z == !x & !y & z
  {
  }

  lemma IFlips(x: bv32, y: bv32, z: bv32)
    ensures IBits(x, y, z) & x == !y & x
    ensures IBits(x, y, z) & !z == !y & !z
  {
  }

  lemma IKeeps(x: bv32, y: bv32, z: bv32)
    ensures IBits(x, y, z) & !x & z == y & !x & z
  {
  }

  // Rotations: the low bits move up by the shift, and the high ones come in at the bottom.

  lemma TurnBy7(x: bv32)
    ensures RotateBits(x, 7) >> 7 == (x << 7) >> 7 && RotateBits(x, 7) << 25 == (x >> 25) << 25
  {
  }

  lemma TurnBy12(x: bv32)
    ensures RotateBits(x, 12) >> 12 == (x << 12) >> 12 && RotateBits(x, 12) << 20 == (x >> 20) << 20
  {
  }

  lemma TurnBy17(x: bv32)
    ensures RotateBits(x, 17) >> 17 == (x << 17) >> 17 && RotateBits(x, 17) << 15 == (x >> 15) << 15
  {
  }

  lemma TurnBy22(x: bv32)
    ensures RotateBits(x, 22) >> 22 == (x << 22) >> 22 && RotateBits(x, 22) << 10 == (x >> 10) << 10
  {
  }

  lemma TurnBy5(x: bv32)
    ensures RotateBits(x, 5) >> 5 == (x << 5) >> 5 && RotateBits(x, 5) << 27 == (x >> 27) << 27
  {
  }

  lemma TurnBy9(x: bv32)
    ensures RotateBits(x, 9) >> 9 == (x << 9) >> 9 && RotateBits(x, 9) << 23 == (x >> 23) << 23
  {
  }

  lemma TurnBy14(x: bv32)
    ensures RotateBits(x, 14) >> 14 == (x << 14) >> 14 && RotateBits(x, 14) << 18 == (x >> 18) << 18
  {
  }

  lemma TurnBy20(x: bv32)
    ensures RotateBits(x, 20) >> 20 == (x << 20) >> 20 && RotateBits(x, 20) << 12 == (x >> 12) << 12
  {
  }

  lemma TurnBy4(x: bv32)
    ensures RotateBits(x, 4) >> 4 == (x << 4) >> 4 && RotateBits(x, 4) << 28 == (x >> 28) << 28
  {
  }

  lemma TurnBy11(x: bv32)
    ensures RotateBits(x, 11) >> 11 == (x << 11) >> 11 && RotateBits(x, 11) << 21 == (x >> 21) << 21
  {
  }

  lemma TurnBy16(x: bv32)
    ensures RotateBits(x, 16) >> 16 == (x << 16) >> 16 && RotateBits(x, 16) << 16 == (x >> 16) << 16
  {
  }

  lemma TurnBy23(x: bv32)
    ensures RotateBits(x, 23) >> 23 == (x << 23) >> 23 && RotateBits(x, 23) << 9 == (x >> 9) << 9
  {
  }

  lemma TurnBy6(x: bv32)
    ensures RotateBits(x, 6) >> 6 == (x << 6) >> 6 && RotateBits(x, 6) << 26 == (x >> 26) << 26
  {
  }

  lemma TurnBy10(x: bv32)
    ensures RotateBits(x, 10) >> 10 == (x << 10) >> 10 && RotateBits(x, 10) << 22 == (x >> 22) << 22
  {
  }

  lemma TurnBy15(x: bv32)
    ensures RotateBits(x, 15) >> 15 == (x << 15) >> 15 && RotateBits(x, 15) << 17 == (x >> 17) << 17
  {
  }

  lemma TurnBy21(x: bv32)
    ensures RotateBits(x, 21) >> 21 == (x << 21) >> 21 && RotateBits(x, 21) << 11 == (x >> 11) << 11
  {
  }

  lemma ShiftsAre(i: nat)
    requires i < 64
    ensures i / 16 == 0 ==> Shift(i) == [7, 12, 17, 22][i % 4]
    ensures i / 16 == 1 ==> Shift(i) == [5, 9, 14, 20][i % 4]
    ensures i / 16 == 2 ==> Shift(i) == [4, 11, 16, 23][i % 4]
    ensures i / 16 == 3 ==> Shift(i) == [6, 10, 15, 21][i % 4]
  {
  }

  /** Four bytes stand for a word with the low byte first, and a word is stored as the bytes that stand for it. */
  lemma WordOfBytes(b: seq<Byte>)
    requires |b| == 4
    ensures WordAt(b, 0) == b[0] as int + 0x100 * (b[1] as int + 0x100 * (b[2] as int + 0x100 * b[3] as int))
  {
  }

  lemma BytesOfWord(w: Word)
    ensures |WordBytes(w)| == 4 && WordAt(WordBytes(w), 0) == w
  {
    var q := w / 0x100;
    assert w / 0x1_0000 == q / 0x100 && w / 0x100_0000 == q / 0x100 / 0x100;
    assert w == 0x100 * q + w % 0x100 && q == 0x100 * (q / 0x100) + q % 0x100;
  }

  lemma LengthReads(n: nat)
    ensures WordAt(LengthBytes(n), 0) + 0x1_0000_0000 * WordAt(LengthBytes(n), 4) == (8 * n) % 0x1_0000_0000_0000_0000
  {
    hide WordBytes;
    var bits := (8 * n) % 0x1_0000_0000_0000_0000;
    var low, high := bits % 0x1_0000_0000, bits / 0x1_0000_0000;
    BytesOfWord(low);
    BytesOfWord(high);
    var a, b := WordBytes(low), WordBytes(high);
    assert LengthBytes(n) == a + b;
    assert (a + b)[0] == a[0] && (a + b)[1] == a[1] && (a + b)[2] == a[2] && (a + b)[3] == a[3];
    assert (a + b)[4] == b[0] && (a + b)[5] == b[1] && (a + b)[6] == b[2] && (a + b)[7] == b[3];
  }

  /**
   Sections 3.1 and 3.2: a one bit, at most 63 zero bytes, and the number of bits in eight bytes, low byte first,
   which fill up whole blocks.
   */
  lemma PaddingIs(n: nat)
    ensures
      var p := Padding(n);
      && 9 <= |p| <= 72 && (n + |p|) % 64 == 0
      && p[0] == 0x80 && (forall k :: 1 <= k < |p| - 8 ==> p[k] == 0)
      && WordAt(p[|p| - 8..], 0) + 0x1_0000_0000 * WordAt(p[|p| - 8..], 4) == (8 * n) % 0x1_0000_0000_0000_0000
  {
    hide LengthBytes, WordAt;
    LengthReads(n);
    var p := Padding(n);
    assert p[|p| - 8..] == LengthBytes(n);
  }

  lemma InitialWords()
    ensures WordBytes(0x67452301) == [0x01, 0x23, 0x45, 0x67]
    ensures WordBytes(0xefcdab89) == [0x89, 0xab, 0xcd, 0xef]
    ensures WordBytes(0x98badcfe) == [0xfe, 0xdc, 0xba, 0x98]
    ensures WordBytes(0x10325476) == [0x76, 0x54, 0x32, 0x10]
  {
  }

  /** Section 3.3: the initial registers are the bytes 01 23 45 67 89 ab cd ef fe dc ba 98 76 54 32 10. */
  lemma InitialBytes()
    ensures RegsBytes(INIT)
         == [0x01, 0x23, 0x45, 0x67, 0x89, 0xab, 0xcd, 0xef, 0xfe, 0xdc, 0xba, 0x98, 0x76, 0x54, 0x32, 0x10]
  {
    hide WordBytes;
    InitialWords();
  }

  // One step of each round out of the digest of the alphabet in lower case, from the test suite of section A.5.

  lemma StepIs(i: nat, p: Regs, x: seq<Word>, f: Word, w: Word, turned: Word, q: Regs)
    requires i < 64 && |x| == 16 && Mix(i / 16, p.b, p.c, p.d) == f && x[WordIndex(i)] == w
    requires RotateLeft(Wrap(p.a + f + w + Sine(i)), Shift(i)) == turned
    requires q == Regs(p.d, Wrap(p.b + turned), p.b, p.c)
    ensures Step(i, p, x) == q
  {
    hide Mix, RotateLeft, Sine, Shift, WordIndex;
  }

  lemma Leaves1()
    ensures F(0xefcdab89, 0x98badcfe, 0x10325476) == 0x98badcfe
    ensures RotateLeft(0x3bce06d8, 7) == 0xe7036c1d
  {
  }

  lemma StepOfRound1(x: seq<Word>)
    requires |x| == 16 && x[0] == 0x64636261
    ensures Step(0, Regs(0x67452301, 0xefcdab89, 0x98badcfe, 0x10325476), x)
         == Regs(0x10325476, 0xd6d117a6, 0xefcdab89, 0x98badcfe)
  {
    hide F, G, H, I, RotateLeft, Step;
    Leaves1();
    StepIs(0, Regs(0x67452301, 0xefcdab89, 0x98badcfe, 0x10325476), x,
           0x98badcfe, 0x64636261, 0xe7036c1d, Regs(0x10325476, 0xd6d117a6, 0xefcdab89, 0x98badcfe));
  }

  lemma Leaves2()
    ensures G(0x2d8071cc, 0x608d6b7e, 0x00df74d5) == 0x60807bee
    ensures RotateLeft(0xa6982737, 9) == 0x304e6f4d
  {
  }

  lemma StepOfRound2(x: seq<Word>)
    requires |x| == 16 && x[6] == 0x00807a79
    ensures Step(17, Regs(0x85567d90, 0x2d8071cc, 0x608d6b7e, 0x00df74d5), x)
         == Regs(0x00df74d5, 0x5dcee119, 0x2d8071cc, 0x608d6b7e)
  {
    hide F, G, H, I, RotateLeft, Step;
    Leaves2();
    StepIs(17, Regs(0x85567d90, 0x2d8071cc, 0x608d6b7e, 0x00df74d5), x,
           0x60807bee, 0x00807a79, 0x304e6f4d, Regs(0x00df74d5, 0x5dcee119, 0x2d8071cc, 0x608d6b7e));
  }

  lemma Leaves3()
    ensures H(0xaeb35766, 0x2e69afc7, 0x927b72e2) == 0x12a18a43
    ensures RotateLeft(0x8060c10a, 4) == 0x060c10a8
  {
  }

  lemma StepOfRound3(x: seq<Word>)
    requires |x| == 16 && x[5] == 0x78777675
    ensures Step(32, Regs(0xf54d8710, 0xaeb35766, 0x2e69afc7, 0x927b72e2), x)
         == Regs(0x927b72e2, 0xb4bf680e, 0xaeb35766, 0x2e69afc7)
  {
    hide F, G, H, I, RotateLeft, Step;
    Leaves3();
    StepIs(32, Regs(0xf54d8710, 0xaeb35766, 0x2e69afc7, 0x927b72e2), x,
           0x12a18a43, 0x78777675, 0x060c10a8, Regs(0x927b72e2, 0xb4bf680e, 0xaeb35766, 0x2e69afc7));
  }

  lemma Leaves4()
    ensures I(0xb35602cb, 0x65456b34, 0xfc32dd6e) == 0xd69a49ef
    ensures RotateLeft(0xbd766404, 21) == 0x8097aecc
  {
  }

  lemma StepOfRound4(x: seq<Word>)
    requires |x| == 16 && x[5] == 0x78777675
    ensures Step(51, Regs(0x71d10367, 0xb35602cb, 0x65456b34, 0xfc32dd6e), x)
         == Regs(0xfc32dd6e, 0x33edb197, 0xb35602cb, 0x65456b34)
  {
    hide F, G, H, I, RotateLeft, Step;
    Leaves4();
    StepIs(51, Regs(0x71d10367, 0xb35602cb, 0x65456b34, 0xfc32dd6e), x,
           0xd69a49ef, 0x78777675, 0x8097aecc, Regs(0xfc32dd6e, 0x33edb197, 0xb35602cb, 0x65456b34));
  }
}
