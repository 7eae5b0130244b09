/**
 The unrolled rounds of `MD5::transform`: sixteen macro uses a round, with the register names rotated in
 the argument lists. Each round is shown to be sixteen steps of the table in `Rfc1321`.
 */
module Md5Rounds {
  import opened Machine
  import opened Rfc1321

  const S11 := 7
  const S12 := 12
  const S13 := 17
  const S14 := 22
  const S21 := 5
  const S22 := 9
  const S23 := 14
  const S24 := 20
  const S31 := 4
  const S32 := 11
  const S33 := 16
  const S34 := 23
  const S41 := 6
  const S42 := 10
  const S43 := 15
  const S44 := 21

  function FF(a: Word, b: Word, c: Word, d: Word, x: Word, s: nat, ac: Word): Word
    requires 0 < s < 32
  {
    Wrap(RotateLeft(Wrap(a + F(b, c, d) + x + ac), s) + b)
  }

  function GG(a: Word, b: Word, c: Word, d: Word, x: Word, s: nat, ac: Word): Word
    requires 0 < s < 32
  {
    Wrap(RotateLeft(Wrap(a + G(b, c, d) + x + ac), s) + b)
  }

  function HH(a: Word, b: Word, c: Word, d: Word, x: Word, s: nat, ac: Word): Word
    requires 0 < s < 32
  {
    Wrap(RotateLeft(Wrap(a + H(b, c, d) + x + ac), s) + b)
  }

  function II(a: Word, b: Word, c: Word, d: Word, x: Word, s: nat, ac: Word): Word
    requires 0 < s < 32
  {
    Wrap(RotateLeft(Wrap(a + I(b, c, d) + x + ac), s) + b)
  }

  function Op(round: nat, a: Word, b: Word, c: Word, d: Word, x: Word, s: nat, ac: Word): Word
    requires 0 < s < 32
  {
    match round
    case 0 => FF(a, b, c, d, x, s, ac)
    case 1 => GG(a, b, c, d, x, s, ac)
    case 2 => HH(a, b, c, d, x, s, ac)
    case _ => II(a, b, c, d, x, s, ac)
  }

  lemma StepIsOp(i: nat, p: Regs, x: seq<Word>)
    requires i < 64 && |x| == 16
    ensures Step(i, p, x) == Regs(p.d, Op(i / 16, p.a, p.b, p.c, p.d, x[WordIndex(i)], Shift(i), Sine(i)), p.b, p.c)
  {
    hide F, G, H, I, RotateLeft, Wrap, Sine, Shift, WordIndex;
  }

  /** Four table steps bring every register back to its own name, with one new value each. */
  lemma FourSteps(n: nat, k0: nat, k1: nat, k2: nat, k3: nat, s0: nat, s1: nat, s2: nat, s3: nat,
                  t0: Word, t1: Word, t2: Word, t3: Word, r: Regs, x: seq<Word>)
    requires n % 4 == 0 && n < 64 && |x| == 16
    requires k0 == WordIndex(n) && k1 == WordIndex(n + 1) && k2 == WordIndex(n + 2) && k3 == WordIndex(n + 3)
    requires s0 == Shift(n) && s1 == Shift(n + 1) && s2 == Shift(n + 2) && s3 == Shift(n + 3)
    requires t0 == Sine(n) && t1 == Sine(n + 1) && t2 == Sine(n + 2) && t3 == Sine(n + 3)
    ensures
      var p, q := Steps(n, r, x), n / 16;
      var a := Op(q, p.a, p.b, p.c, p.d, x[k0], s0, t0);
      var d := Op(q, p.d, a, p.b, p.c, x[k1], s1, t1);
      var c := Op(q, p.c, d, a, p.b, x[k2], s2, t2);
      var b := Op(q, p.b, c, d, a, x[k3], s3, t3);
      Steps(n + 4, r, x) == Regs(a, b, c, d)
  {
    hide Op, Step, Sine, Shift, WordIndex;
    StepIsOp(n, Steps(n, r, x), x);
    StepIsOp(n + 1, Steps(n + 1, r, x), x);
    StepIsOp(n + 2, Steps(n + 2, r, x), x);
    StepIsOp(n + 3, Steps(n + 3, r, x), x);
  }

  lemma Order1()
    ensures WordIndex(0) == 0 && WordIndex(1) == 1 && WordIndex(2) == 2 && WordIndex(3) == 3
    ensures Shift(0) == S11 && Shift(1) == S12 && Shift(2) == S13 && Shift(3) == S14
    ensures WordIndex(4) == 4 && WordIndex(5) == 5 && WordIndex(6) == 6 && WordIndex(7) == 7
    ensures Shift(4) == S11 && Shift(5) == S12 && Shift(6) == S13 && Shift(7) == S14
    ensures WordIndex(8) == 8 && WordIndex(9) == 9 && WordIndex(10) == 10 && WordIndex(11) == 11
    ensures Shift(8) == S11 && Shift(9) == S12 && Shift(10) == S13 && Shift(11) == S14
    ensures WordIndex(12) == 12 && WordIndex(13) == 13 && WordIndex(14) == 14 && WordIndex(15) == 15
    ensures Shift(12) == S11 && Shift(13) == S12 && Shift(14) == S13 && Shift(15) == S14
  {
  }

  lemma Sines1()
    ensures Sine(0) == 0xd76aa478 && Sine(1) == 0xe8c7b756
    ensures Sine(2) == 0x242070db && Sine(3) == 0xc1bdceee
    ensures Sine(4) == 0xf57c0faf && Sine(5) == 0x4787c62a
    ensures Sine(6) == 0xa8304613 && Sine(7) == 0xfd469501
    ensures Sine(8) == 0x698098d8 && Sine(9) == 0x8b44f7af
    ensures Sine(10) == 0xffff5bb1 && Sine(11) == 0x895cd7be
    ensures Sine(12) == 0x6b901122 && Sine(13) == 0xfd987193
    ensures Sine(14) == 0xa679438e && Sine(15) == 0x49b40821
  {
  }

  method Round1(ghost r: Regs, x: seq<Word>, a0: Word, b0: Word, c0: Word, d0: Word)
    returns (a: Word, b: Word, c: Word, d: Word)
    requires |x| == 16 && Regs(a0, b0, c0, d0) == Steps(0, r, x)
    ensures Regs(a, b, c, d) == Steps(16, r, x)
  {
    hide FF, GG, HH, II, Steps, Sine, Shift, WordIndex;
    Order1();
    Sines1();
    a, b, c, d := a0, b0, c0, d0;
    a := FF(a, b, c, d, x[0], S11, 0xd76aa478);
    d := FF(d, a, b, c, x[1], S12, 0xe8c7b756);
    c := FF(c, d, a, b, x[2], S13, 0x242070db);
    b := FF(b, c, d, a, x[3], S14, 0xc1bdceee);
    assert Regs(a, b, c, d) == Steps(4, r, x) by {
      FourSteps(0, 0, 1, 2, 3, S11, S12, S13, S14, 0xd76aa478, 0xe8c7b756, 0x242070db, 0xc1bdceee, r, x);
    }
    a := FF(a, b, c, d, x[4], S11, 0xf57c0faf);
    d := FF(d, a, b, c, x[5], S12, 0x4787c62a);
    c := FF(c, d, a, b, x[6], S13, 0xa8304613);
    b := FF(b, c, d, a, x[7], S14, 0xfd469501);
    assert Regs(a, b, c, d) == Steps(8, r, x) by {
      FourSteps(4, 4, 5, 6, 7, S11, S12, S13, S14, 0xf57c0faf, 0x4787c62a, 0xa8304613, 0xfd469501, r, x);
    }
    a := FF(a, b, c, d, x[8], S11, 0x698098d8);
    d := FF(d, a, b, c, x[9], S12, 0x8b44f7af);
    c := FF(c, d, a, b, x[10], S13, 0xffff5bb1);
    b := FF(b, c, d, a, x[11], S14, 0x895cd7be);
    assert Regs(a, b, c, d) == Steps(12, r, x) by {
      FourSteps(8, 8, 9, 10, 11, S11, S12, S13, S14, 0x698098d8, 0x8b44f7af, 0xffff5bb1, 0x895cd7be, r, x);
    }
    a := FF(a, b, c, d, x[12], S11, 0x6b901122);
    d := FF(d, a, b, c, x[13], S12, 0xfd987193);
    c := FF(c, d, a, b, x[14], S13, 0xa679438e);
    b := FF(b, c, d, a, x[15], S14, 0x49b40821);
    assert Regs(a, b, c, d) == Steps(16, r, x) by {
      FourSteps(12, 12, 13, 14, 15, S11, S12, S13, S14, 0x6b901122, 0xfd987193, 0xa679438e, 0x49b40821, r, x);
    }
  }

  lemma Order2()
    ensures WordIndex(16) == 1 && WordIndex(17) == 6 && WordIndex(18) == 11 && WordIndex(19) == 0
    ensures Shift(16) == S21 && Shift(17) == S22 && Shift(18) == S23 && Shift(19) == S24
    ensures WordIndex(20) == 5 && WordIndex(21) == 10 && WordIndex(22) == 15 && WordIndex(23) == 4
    ensures Shift(20) == S21 && Shift(21) == S22 && Shift(22) == S23 && Shift(23) == S24
    ensures WordIndex(24) == 9 && WordIndex(25) == 14 && WordIndex(26) == 3 && WordIndex(27) == 8
    ensures Shift(24) == S21 && Shift(25) == S22 && Shift(26) == S23 && Shift(27) == S24
    ensures WordIndex(28) == 13 && WordIndex(29) == 2 && WordIndex(30) == 7 && WordIndex(31) == 12
    ensures Shift(28) == S21 && Shift(29) == S22 && Shift(30) == S23 && Shift(31) == S24
  {
  }

  lemma Sines2()
    ensures Sine(16) == 0xf61e2562 && Sine(17) == 0xc040b340
    ensures Sine(18) == 0x265e5a51 && Sine(19) == 0xe9b6c7aa
    ensures Sine(20) == 0xd62f105d && Sine(21) == 0x02441453
    ensures Sine(22) == 0xd8a1e681 && Sine(23) == 0xe7d3fbc8
    ensures Sine(24) == 0x21e1cde6 && Sine(25) == 0xc33707d6
    ensures Sine(26) == 0xf4d50d87 && Sine(27) == 0x455a14ed
    ensures Sine(28) == 0xa9e3e905 && Sine(29) == 0xfcefa3f8
    ensures Sine(30) == 0x676f02d9 && Sine(31) == 0x8d2a4c8a
  {
  }

  method Round2(ghost r: Regs, x: seq<Word>, a0: Word, b0: Word, c0: Word, d0: Word)
    returns (a: Word, b: Word, c: Word, d: Word)
    requires |x| == 16 && Regs(a0, b0, c0, d0) == Steps(16, r, x)
    ensures Regs(a, b, c, d) == Steps(32, r, x)
  {
    hide FF, GG, HH, II, Steps, Sine, Shift, WordIndex;
    Order2();
    Sines2();
    a, b, c, d := a0, b0, c0, d0;
    a := GG(a, b, c, d, x[1], S21, 0xf61e2562);
    d := GG(d, a, b, c, x[6], S22, 0xc040b340);
    c := GG(c, d, a, b, x[11], S23, 0x265e5a51);
    b := GG(b, c, d, a, x[0], S24, 0xe9b6c7aa);
    assert Regs(a, b, c, d) == Steps(20, r, x) by {
      FourSteps(16, 1, 6, 11, 0, S21, S22, S23, S24, 0xf61e2562, 0xc040b340, 0x265e5a51, 0xe9b6c7aa, r, x);
    }
    a := GG(a, b, c, d, x[5], S21, 0xd62f105d);
    d := GG(d, a, b, c, x[10], S22, 0x2441453);
    c := GG(c, d, a, b, x[15], S23, 0xd8a1e681);
    b := GG(b, c, d, a, x[4], S24, 0xe7d3fbc8);
    assert Regs(a, b, c, d) == Steps(24, r, x) by {
      FourSteps(20, 5, 10, 15, 4, S21, S22, S23, S24, 0xd62f105d, 0x02441453, 0xd8a1e681, 0xe7d3fbc8, r, x);
    }
    a := GG(a, b, c, d, x[9], S21, 0x21e1cde6);
    d := GG(d, a, b, c, x[14], S22, 0xc33707d6);
    c := GG(c, d, a, b, x[3], S23, 0xf4d50d87);
    b := GG(b, c, d, a, x[8], S24, 0x455a14ed);
    assert Regs(a, b, c, d) == Steps(28, r, x) by {
      FourSteps(24, 9, 14, 3, 8, S21, S22, S23, S24, 0x21e1cde6, 0xc33707d6, 0xf4d50d87, 0x455a14ed, r, x);
    }
    a := GG(a, b, c, d, x[13], S21, 0xa9e3e905);
    d := GG(d, a, b, c, x[2], S22, 0xfcefa3f8);
    c := GG(c, d, a, b, x[7], S23, 0x676f02d9);
    b := GG(b, c, d, a, x[12], S24, 0x8d2a4c8a);
    assert Regs(a, b, c, d) == Steps(32, r, x) by {
      FourSteps(28, 13, 2, 7, 12, S21, S22, S23, S24, 0xa9e3e905, 0xfcefa3f8, 0x676f02d9, 0x8d2a4c8a, r, x);
    }
  }

  lemma Order3()
    ensures WordIndex(32) == 5 && WordIndex(33) == 8 && WordIndex(34) == 11 && WordIndex(35) == 14
    ensures Shift(32) == S31 && Shift(33) == S32 && Shift(34) == S33 && Shift(35) == S34
    ensures WordIndex(36) == 1 && WordIndex(37) == 4 && WordIndex(38) == 7 && WordIndex(39) == 10
    ensures Shift(36) == S31 && Shift(37) == S32 && Shift(38) == S33 && Shift(39) == S34
    ensures WordIndex(40) == 13 && WordIndex(41) == 0 && WordIndex(42) == 3 && WordIndex(43) == 6
    ensures Shift(40) == S31 && Shift(41) == S32 && Shift(42) == S33 && Shift(43) == S34
    ensures WordIndex(44) == 9 && WordIndex(45) == 12 && WordIndex(46) == 15 && WordIndex(47) == 2
    ensures Shift(44) == S31 && Shift(45) == S32 && Shift(46) == S33 && Shift(47) == S34
  {
  }

  lemma Sines3()
    ensures Sine(32) == 0xfffa3942 && Sine(33) == 0x8771f681
    ensures Sine(34) == 0x6d9d6122 && Sine(35) == 0xfde5380c
    ensures Sine(36) == 0xa4beea44 && Sine(37) == 0x4bdecfa9
    ensures Sine(38) == 0xf6bb4b60 && Sine(39) == 0xbebfbc70
    ensures Sine(40) == 0x289b7ec6 && Sine(41) == 0xeaa127fa
    ensures Sine(42) == 0xd4ef3085 && Sine(43) == 0x04881d05
    ensures Sine(44) == 0xd9d4d039 && Sine(45) == 0xe6db99e5
    ensures Sine(46) == 0x1fa27cf8 && Sine(47) == 0xc4ac5665
  {
  }

  method Round3(ghost r: Regs, x: seq<Word>, a0: Word, b0: Word, c0: Word, d0: Word)
    returns (a: Word, b: Word, c: Word, d: Word)
    requires |x| == 16 && Regs(a0, b0, c0, d0) == Steps(32, r, x)
    ensures Regs(a, b, c, d) == Steps(48, r, x)
  {
    hide FF, GG, HH, II, Steps, Sine, Shift, WordIndex;
    Order3();
    Sines3();
    a, b, c, d := a0, b0, c0, d0;
    a := HH(a, b, c, d, x[5], S31, 0xfffa3942);
    d := HH(d, a, b, c, x[8], S32, 0x8771f681);
    c := HH(c, d, a, b, x[11], S33, 0x6d9d6122);
    b := HH(b, c, d, a, x[14], S34, 0xfde5380c);
    assert Regs(a, b, c, d) == Steps(36, r, x) by {
      FourSteps(32, 5, 8, 11, 14, S31, S32, S33, S34, 0xfffa3942, 0x8771f681, 0x6d9d6122, 0xfde5380c, r, x);
    }
    a := HH(a, b, c, d, x[1], S31, 0xa4beea44);
    d := HH(d, a, b, c, x[4], S32, 0x4bdecfa9);
    c := HH(c, d, a, b, x[7], S33, 0xf6bb4b60);
    b := HH(b, c, d, a, x[10], S34, 0xbebfbc70);
    assert Regs(a, b, c, d) == Steps(40, r, x) by {
      FourSteps(36, 1, 4, 7, 10, S31, S32, S33, S34, 0xa4beea44, 0x4bdecfa9, 0xf6bb4b60, 0xbebfbc70, r, x);
    }
    a := HH(a, b, c, d, x[13], S31, 0x289b7ec6);
    d := HH(d, a, b, c, x[0], S32, 0xeaa127fa);
    c := HH(c, d, a, b, x[3], S33, 0xd4ef3085);
    b := HH(b, c, d, a, x[6], S34, 0x4881d05);
    assert Regs(a, b, c, d) == Steps(44, r, x) by {
      FourSteps(40, 13, 0, 3, 6, S31, S32, S33, S34, 0x289b7ec6, 0xeaa127fa, 0xd4ef3085, 0x04881d05, r, x);
    }
    a := HH(a, b, c, d, x[9], S31, 0xd9d4d039);
    d := HH(d, a, b, c, x[12], S32, 0xe6db99e5);
    c := HH(c, d, a, b, x[15], S33, 0x1fa27cf8);
    b := HH(b, c, d, a, x[2], S34, 0xc4ac5665);
    assert Regs(a, b, c, d) == Steps(48, r, x) by {
      FourSteps(44, 9, 12, 15, 2, S31, S32, S33, S34, 0xd9d4d039, 0xe6db99e5, 0x1fa27cf8, 0xc4ac5665, r, x);
    }
  }

  lemma Order4()
    ensures WordIndex(48) == 0 && WordIndex(49) == 7 && WordIndex(50) == 14 && WordIndex(51) == 5
    ensures Shift(48) == S41 && Shift(49) == S42 && Shift(50) == S43 && Shift(51) == S44
    ensures WordIndex(52) == 12 && WordIndex(53) == 3 && WordIndex(54) == 10 && WordIndex(55) == 1
    ensures Shift(52) == S41 && Shift(53) == S42 && Shift(54) == S43 && Shift(55) == S44
    ensures WordIndex(56) == 8 && WordIndex(57) == 15 && WordIndex(58) == 6 && WordIndex(59) == 13
    ensures Shift(56) == S41 && Shift(57) == S42 && Shift(58) == S43 && Shift(59) == S44
    ensures WordIndex(60) == 4 && WordIndex(61) == 11 && WordIndex(62) == 2 && WordIndex(63) == 9
    ensures Shift(60) == S41 && Shift(61) == S42 && Shift(62) == S43 && Shift(63) == S44
  {
  }

  lemma Sines4()
    ensures Sine(48) == 0xf4292244 && Sine(49) == 0x432aff97
    ensures Sine(50) == 0xab9423a7 && Sine(51) == 0xfc93a039
    ensures Sine(52) == 0x655b59c3 && Sine(53) == 0x8f0ccc92
    ensures Sine(54) == 0xffeff47d && Sine(55) == 0x85845dd1
    ensures Sine(56) == 0x6fa87e4f && Sine(57) == 0xfe2ce6e0
    ensures Sine(58) == 0xa3014314 && Sine(59) == 0x4e0811a1
    ensures Sine(60) == 0xf7537e82 && Sine(61) == 0xbd3af235
    ensures Sine(62) == 0x2ad7d2bb && Sine(63) == 0xeb86d391
  {
  }

  method Round4(ghost r: Regs, x: seq<Word>, a0: Word, b0: Word, c0: Word, d0: Word)
    returns (a: Word, b: Word, c: Word, d: Word)
    requires |x| == 16 && Regs(a0, b0, c0, d0) == Steps(48, r, x)
    ensures Regs(a, b, c, d) == Steps(64, r, x)
  {
    hide FF, GG, HH, II, Steps, Sine, Shift, WordIndex;
    Order4();
    Sines4();
    a, b, c, d := a0, b0, c0, d0;
    a := II(a, b, c, d, x[0], S41, 0xf4292244);
    d := II(d, a, b, c, x[7], S42, 0x432aff97);
    c := II(c, d, a, b, x[14], S43, 0xab9423a7);
    b := II(b, c, d, a, x[5], S44, 0xfc93a039);
    assert Regs(a, b, c, d) == Steps(52, r, x) by {
      FourSteps(48, 0, 7, 14, 5, S41, S42, S43, S44, 0xf4292244, 0x432aff97, 0xab9423a7, 0xfc93a039, r, x);
    }
    a := II(a, b, c, d, x[12], S41, 0x655b59c3);
    d := II(d, a, b, c, x[3], S42, 0x8f0ccc92);
    c := II(c, d, a, b, x[10], S43, 0xffeff47d);
    b := II(b, c, d, a, x[1], S44, 0x85845dd1);
    assert Regs(a, b, c, d) == Steps(56, r, x) by {
      FourSteps(52, 12, 3, 10, 1, S41, S42, S43, S44, 0x655b59c3, 0x8f0ccc92, 0xffeff47d, 0x85845dd1, r, x);
    }
    a := II(a, b, c, d, x[8], S41, 0x6fa87e4f);
    d := II(d, a, b, c, x[15], S42, 0xfe2ce6e0);
    c := II(c, d, a, b, x[6], S43, 0xa3014314);
    b := II(b, c, d, a, x[13], S44, 0x4e0811a1);
    assert Regs(a, b, c, d) == Steps(60, r, x) by {
      FourSteps(56, 8, 15, 6, 13, S41, S42, S43, S44, 0x6fa87e4f, 0xfe2ce6e0, 0xa3014314, 0x4e0811a1, r, x);
    }
    a := II(a, b, c, d, x[4], S41, 0xf7537e82);
    d := II(d, a, b, c, x[11], S42, 0xbd3af235);
    c := II(c, d, a, b, x[2], S43, 0x2ad7d2bb);
    b := II(b, c, d, a, x[9], S44, 0xeb86d391);
    assert Regs(a, b, c, d) == Steps(64, r, x) by {
      FourSteps(60, 4, 11, 2, 9, S41, S42, S43, S44, 0xf7537e82, 0xbd3af235, 0x2ad7d2bb, 0xeb86d391, r, x);
    }
  }
}
