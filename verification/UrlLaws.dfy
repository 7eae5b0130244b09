/** What the digits, the escapes and the encoder's table mean, stated without the functions that compute them. */
module UrlLaws {
  import opened Basics
  import opened Machine
  import opened UrlCodec

  const DIGITS := "0123456789ABCDEF"

  /** The encoder prints upper-case digits, and their values count up from '0'. */
  lemma DigitsCountUp(v: nat)
    requires v < 16
    ensures HexChar(v) == DIGITS[v] as int && IsHex(HexChar(v)) && HexValue(HexChar(v)) == v
  {
  }

  function Upper(c: Byte): Byte {
    if 0x61 <= c <= 0x66 then c - 0x20 else c
  }

  /** A digit has the same value in either case: its place in the row of upper-case digits. */
  lemma CaseIsIgnored(c: Byte)
    requires IsHex(c)
    ensures IsHex(Upper(c)) && HexValue(c) == HexValue(Upper(c)) && Upper(c) == DIGITS[HexValue(c)] as int
    ensures Upper(Upper(c)) == Upper(c)
  {
    DigitsCountUp(HexValue(c));
  }

  lemma SpelledDigits(b: Byte, x: Byte, y: Byte)
    requires Upper(x) == DIGITS[b / 16] as int && Upper(y) == DIGITS[b % 16] as int
    ensures IsHex(x) && IsHex(y) && HexValue(x) == b / 16 && HexValue(y) == b % 16
    ensures OpensEscape(x, y) <==> b > 0x20
  {
    DigitsCountUp(b / 16);
    DigitsCountUp(b % 16);
  }

  /** "%XY" in any mixture of cases is the byte it spells, if that is above a blank; otherwise it stays as it is. */
  lemma EscapeSpellsItsByte(b: Byte, x: Byte, y: Byte, rest: seq<Byte>, inArguments: bool)
    requires Upper(x) == DIGITS[b / 16] as int && Upper(y) == DIGITS[b % 16] as int
    ensures
      Decode([PERCENT, x, y] + rest, inArguments)
      == (if b > 0x20 then [b] else [PERCENT, x, y]) + Decode(rest, inArguments)
  {
    var e := [PERCENT, x, y] + rest;
    SpelledDigits(b, x, y);
    if b > 0x20 {
      assert StartsEscape(e) && e[3..] == rest;
    } else {
      assert !StartsEscape(e);
      assert e[1..] == [x] + ([y] + rest);
      RawPercentStep(e, inArguments);
      hide Decode;
      HexIsPlain(x, [y] + rest, inArguments);
      HexIsPlain(y, rest, inArguments);
    }
  }

  lemma OpeningValue(x: Byte, y: Byte)
    requires IsHex(x) && IsHex(y) && OpensEscape(x, y)
    ensures 16 * HexValue(x) + HexValue(y) > 0x20
  {
  }

  /** An escape opens with two digits, in either case, that spell a byte above a blank. */
  lemma ReadDigits(x: Byte, y: Byte)
    requires IsHex(x) && IsHex(y) && OpensEscape(x, y)
    ensures
      var b := 16 * HexValue(x) + HexValue(y);
      0x20 < b < 0x100 && b / 16 == HexValue(x) && b % 16 == HexValue(y)
  {
    OpeningValue(x, y);
    hide HexValue, IsHex, OpensEscape;
    QuotientIs(HexValue(x), 16, HexValue(y));
  }

  /** So the case of an escape's digits makes no difference. */
  lemma DecodeIgnoresCase(x: Byte, y: Byte, rest: seq<Byte>, inArguments: bool)
    requires StartsEscape([PERCENT, x, y] + rest)
    ensures Decode([PERCENT, x, y] + rest, inArguments)
         == Decode([PERCENT, Upper(x), Upper(y)] + rest, inArguments)
  {
    hide Decode, HexValue, IsHex, Upper;
    assert ([PERCENT, x, y] + rest)[1] == x && ([PERCENT, x, y] + rest)[2] == y;
    var b := 16 * HexValue(x) + HexValue(y);
    ReadDigits(x, y);
    CaseIsIgnored(x);
    CaseIsIgnored(y);
    EscapeSpellsItsByte(b, x, y, rest, inArguments);
    EscapeSpellsItsByte(b, Upper(x), Upper(y), rest, inArguments);
  }

  lemma PlainByteIs(b: Byte, inArguments: bool)
    ensures PlainByte(b, inArguments) ==
      if b <= 0x20 then [0x25, DIGITS[b / 16] as int, DIGITS[b % 16] as int]
      else if b == 0x5c && !inArguments then [0x2f]
      else [b]
  {
    DigitsCountUp(b / 16);
    DigitsCountUp(b % 16);
  }

  /**
   Outside an escape: tabs and line ends go, other bytes up to the blank are spelled out, a backslash becomes a
   slash in front of the first ';' or '?', and everything else stays.
   */
  lemma OneByteDecodes(b: Byte, rest: seq<Byte>, inArguments: bool)
    requires b != 0x25
    ensures
      Decode([b] + rest, inArguments)
      == (if b == 0x09 || b == 0x0a || b == 0x0d then []
          else if b <= 0x20 then [0x25, DIGITS[b / 16] as int, DIGITS[b % 16] as int]
          else if b == 0x5c && !inArguments then [0x2f]
          else [b])
         + Decode(rest, inArguments || b == 0x3b || b == 0x3f)
  {
    hide PlainByte, DIGITS;
    assert ([b] + rest)[1..] == rest;
    PlainByteIs(b, inArguments);
  }

  // ---- the encoder's table ----

  /** Printable ASCII stays, but for the back quote; a blank becomes '+'; anything else is spelled out. */
  lemma EncodedByteIs(b: Byte)
    ensures 0x20 < b < 0x80 && b != 0x60 ==> EncodedByte(b) == [b]
    ensures b == 0x20 ==> EncodedByte(b) == [0x2b]
    ensures b < 0x20 || b == 0x60 || b >= 0x80 ==>
      EncodedByte(b) == [0x25, DIGITS[b / 16] as int, DIGITS[b % 16] as int]
  {
  }

  /** What the encoder puts out is ASCII without blanks and control characters below it. */
  lemma {:induction false} EncodeIsAscii(s: seq<Byte>)
    ensures forall k :: 0 <= k < |Encode(s)| ==> 0x20 < Encode(s)[k] < 0x80
  {
    if s == [] {
    } else {
      EncodeIsAscii(s[1..]);
      EncodedByteIs(s[0]);
    }
  }
}
