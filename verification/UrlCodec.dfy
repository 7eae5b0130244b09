/**
 `URLEncoder`: the reference meaning of encoding and decoding, and what the two do to each other.
 The buffer-writing methods are in `UrlBuffers`.
 */
module UrlCodec {
  import opened Machine

  const TAB: Byte := 0x09
  const NEWLINE: Byte := 0x0a
  const RETURN: Byte := 0x0d
  const SPACE: Byte := 0x20
  const PERCENT: Byte := 0x25
  const PLUS: Byte := 0x2b
  const SLASH: Byte := 0x2f
  const SEMICOLON: Byte := 0x3b
  const QUESTION: Byte := 0x3f
  const BACKSLASH: Byte := 0x5c

  predicate IsHex(c: Byte) {
    0x30 <= c <= 0x39 || 0x41 <= c <= 0x46 || 0x61 <= c <= 0x66
  }

  function HexValue(c: Byte): (v: nat)
    requires IsHex(c)
    ensures v < 16
  {
    if c <= 0x39 then c - 0x30 else if c <= 0x46 then c - 0x41 + 10 else c - 0x61 + 10
  }

  function HexChar(v: nat): (c: Byte)
    requires v < 16
    ensures IsHex(c) && HexValue(c) == v
  {
    if v < 10 then 0x30 + v else 0x41 + v - 10
  }

  function PercentForm(b: Byte): (out: seq<Byte>)
    ensures |out| == 3
  {
    [PERCENT, HexChar(b / 16), HexChar(b % 16)]
  }

  /** The table of the encoder: zero stands for "percent form". */
  function ByteMap(b: Byte): Byte {
    if b < 0x20 || b == 0x60 || b >= 0x80 then 0 else if b == SPACE then PLUS else b
  }

  function EncodedByte(b: Byte): seq<Byte> {
    if ByteMap(b) != 0 then [ByteMap(b)] else PercentForm(b)
  }

  function Encode(s: seq<Byte>): seq<Byte> {
    if s == [] then [] else EncodedByte(s[0]) + Encode(s[1..])
  }

  /** May this digit open an escape? Values from 0x21 up are unescaped, so "%20" is not. */
  predicate OpensEscape(c: Byte, next: Byte) {
    IsHex(c) && 0x32 <= c && (c == 0x32 ==> next != 0x30)
  }

  predicate StartsEscape(s: seq<Byte>) {
    |s| >= 3 && s[0] == PERCENT && OpensEscape(s[1], s[2]) && IsHex(s[2])
  }

  predicate StartsArguments(c: Byte) {
    c == SEMICOLON || c == QUESTION
  }

  predicate IsDropped(c: Byte) {
    c == TAB || c == RETURN || c == NEWLINE
  }

  /** One byte that is neither part of an escape nor dropped, inside or outside the argument part. */
  function PlainByte(c: Byte, inArguments: bool): seq<Byte> {
    if c <= SPACE then PercentForm(c)
    else if c == BACKSLASH && !inArguments then [SLASH]
    else [c]
  }

  /** Decoding, left to right, without ever looking back. */
  function Decode(s: seq<Byte>, inArguments: bool): seq<Byte> {
    if s == [] then []
    else if StartsEscape(s) then
      [16 * HexValue(s[1]) + HexValue(s[2])] + Decode(s[3..], inArguments)
    else if IsDropped(s[0]) then
      Decode(s[1..], inArguments)
    else
      PlainByte(s[0], inArguments) + Decode(s[1..], inArguments || StartsArguments(s[0]))
  }

  /** No decoder puts out a blank or a control byte. */
  lemma {:induction false} DecodeIsPrintable(s: seq<Byte>, inArguments: bool)
    ensures forall k :: 0 <= k < |Decode(s, inArguments)| ==> Decode(s, inArguments)[k] > 0x20
  {
    if s == [] {
    } else {
      if StartsEscape(s) {
        DecodeIsPrintable(s[3..], inArguments);
      } else if IsDropped(s[0]) {
        DecodeIsPrintable(s[1..], inArguments);
      } else {
        DecodeIsPrintable(s[1..], inArguments || StartsArguments(s[0]));
      }
    }
  }

  /** What encoding followed by decoding is for: blanks become '+', control bytes stay escaped, '\' becomes '/'. */
  function Normal(s: seq<Byte>, inArguments: bool): seq<Byte> {
    if s == [] then []
    else (if s[0] == SPACE then [PLUS] else PlainByte(s[0], inArguments))
         + Normal(s[1..], inArguments || StartsArguments(s[0]))
  }

  /** Somewhere in `s` a raw '%' is followed by two digits the decoder would take for an escape. */
  predicate HasEscape(s: seq<Byte>) {
    exists i :: 0 <= i < |s| && StartsEscape(s[i..])
  }

  lemma HasEscapeLater(s: seq<Byte>, n: nat)
    requires n <= |s| && HasEscape(s[n..])
    ensures HasEscape(s)
  {
    var i :| 0 <= i < |s[n..]| && StartsEscape(s[n..][i..]);
    assert s[n + i..] == s[n..][i..];
  }

  lemma HasEscapeNext(s: seq<Byte>)
    requires s != [] && HasEscape(s) && !StartsEscape(s)
    ensures HasEscape(s[1..])
  {
    var i :| 0 <= i < |s| && StartsEscape(s[i..]);
    assert s[0..] == s;
    assert s[i..] == s[1..][i - 1..];
  }

  lemma EncodeSplit(s: seq<Byte>)
    requires s != []
    ensures Encode(s)[..|EncodedByte(s[0])|] == EncodedByte(s[0])
    ensures Encode(s)[|EncodedByte(s[0])|..] == Encode(s[1..])
  {
  }

  /** A byte that encodes to something starting with a hex digit is that digit. */
  lemma HexIsItself(b: Byte)
    ensures EncodedByte(b) != [] && (IsHex(EncodedByte(b)[0]) ==> EncodedByte(b) == [b])
    ensures IsHex(b) ==> EncodedByte(b) == [b]
  {
  }

  lemma PercentIsItself()
    ensures EncodedByte(PERCENT) == [PERCENT]
  {
  }

  /** Behind a raw '%', encoding neither makes an escape nor breaks one. */
  lemma EscapeSurvives(s: seq<Byte>)
    requires s != [] && s[0] == PERCENT
    ensures StartsEscape(Encode(s)) <==> StartsEscape(s)
    ensures Encode(s)[0] == PERCENT && Encode(s)[1..] == Encode(s[1..])
    ensures StartsEscape(s) ==> Encode(s)[..3] == s[..3] && Encode(s)[3..] == Encode(s[3..])
  {
    hide EncodedByte, IsHex;
    var e := Encode(s);
    assert EncodedByte(PERCENT) == [PERCENT] by { PercentIsItself(); }
    EncodeSplit(s);
    if |s| > 1 {
      HexIsItself(s[1]);
      EncodeSplit(s[1..]);
      assert e[1] == EncodedByte(s[1])[0];
      if |s| > 2 && EncodedByte(s[1]) == [s[1]] {
        HexIsItself(s[2]);
        EncodeSplit(s[2..]);
        assert s[1..][1..] == s[2..] && s[2..][1..] == s[3..];
        assert e[2] == EncodedByte(s[2])[0];
      }
    }
  }

  lemma HexIsPlain(c: Byte, rest: seq<Byte>, inArguments: bool)
    requires IsHex(c)
    ensures Decode([c] + rest, inArguments) == [c] + Decode(rest, inArguments)
  {
    assert ([c] + rest)[1..] == rest;
  }

  lemma RawPercentStep(e: seq<Byte>, inArguments: bool)
    requires e != [] && e[0] == PERCENT && !StartsEscape(e)
    ensures Decode(e, inArguments) == PlainByte(PERCENT, inArguments) + Decode(e[1..], inArguments)
  {
    assert !StartsArguments(PERCENT) && !IsDropped(PERCENT);
  }

  /** "%0X" and "%1X" stay as they are: the first digit does not open an escape. */
  lemma ClosedPercentForm(x: Byte, y: Byte, rest: seq<Byte>, inArguments: bool)
    requires IsHex(x) && IsHex(y) && x < 0x32
    ensures Decode([PERCENT, x, y] + rest, inArguments) == [PERCENT, x, y] + Decode(rest, inArguments)
  {
    hide HexValue, Decode;
    var e := [PERCENT, x, y] + rest;
    assert e[1..] == [x] + ([y] + rest);
    assert e[1] == x;
    RawPercentStep(e, inArguments);
    HexIsPlain(x, [y] + rest, inArguments);
    HexIsPlain(y, rest, inArguments);
  }

  lemma PercentFormDecodes(b: Byte, rest: seq<Byte>, inArguments: bool)
    requires b < 0x20 || b == 0x60 || b >= 0x80
    ensures
      Decode(PercentForm(b) + rest, inArguments)
      == (if b < 0x20 then PercentForm(b) else [b]) + Decode(rest, inArguments)
  {
    var x, y := HexChar(b / 16), HexChar(b % 16);
    var e := PercentForm(b) + rest;
    assert e == [PERCENT, x, y] + rest;
    if b < 0x20 {
      ClosedPercentForm(x, y, rest, inArguments);
    } else {
      assert StartsEscape(e) && e[3..] == rest;
    }
  }

  /** A byte other than '%' decodes to its normal form, whatever follows. */
  lemma EncodedByteDecodes(b: Byte, rest: seq<Byte>, inArguments: bool)
    requires b != PERCENT
    ensures
      Decode(EncodedByte(b) + rest, inArguments)
      == (if b == SPACE then [PLUS] else PlainByte(b, inArguments))
         + Decode(rest, inArguments || StartsArguments(b))
  {
    if ByteMap(b) != 0 {
      assert (EncodedByte(b) + rest)[1..] == rest;
    } else {
      PercentFormDecodes(b, rest, inArguments);
    }
  }

  lemma RawPercent(s: seq<Byte>, inArguments: bool)
    requires s != [] && s[0] == PERCENT && !StartsEscape(s)
    ensures Decode(Encode(s), inArguments) == PlainByte(PERCENT, inArguments) + Decode(Encode(s[1..]), inArguments)
  {
    EscapeSurvives(s);
    RawPercentStep(Encode(s), inArguments);
  }

  lemma EscapeIsPlain(s: seq<Byte>, inArguments: bool)
    requires StartsEscape(s)
    ensures HasEscape(s) && |Normal(s, inArguments)| == 3 + |Normal(s[3..], inArguments)|
  {
    assert s[0..] == s;
    assert s[1..][1..] == s[2..] && s[2..][1..] == s[3..];
    assert Normal(s, inArguments) == [PERCENT] + Normal(s[1..], inArguments);
    assert Normal(s[1..], inArguments) == [s[1]] + Normal(s[2..], inArguments);
    assert Normal(s[2..], inArguments) == [s[2]] + Normal(s[3..], inArguments);
  }

  /** Decoding what was encoded gives the normal form, unless a raw escape was in the source: then it is shorter. */
  lemma {:induction false} DecodeEncode(s: seq<Byte>, inArguments: bool)
    ensures !HasEscape(s) ==> Decode(Encode(s), inArguments) == Normal(s, inArguments)
    ensures HasEscape(s) ==> |Decode(Encode(s), inArguments)| < |Normal(s, inArguments)|
  {
    hide EncodedByte, PlainByte;
    if s == [] {
    } else if StartsEscape(s) {
      EscapeSurvives(s);
      DecodeEncode(s[3..], inArguments);
      EscapeIsPlain(s, inArguments);
    } else {
      var later := inArguments || StartsArguments(s[0]);
      DecodeEncode(s[1..], later);
      if HasEscape(s) {
        HasEscapeNext(s);
      } else if HasEscape(s[1..]) {
        HasEscapeLater(s, 1);
      }
      if s[0] == PERCENT {
        RawPercent(s, inArguments);
      } else {
        EncodedByteDecodes(s[0], Encode(s[1..]), inArguments);
      }
    }
  }

  /** The round trip is the normal form exactly on sources without a raw escape (in particular without '%'). */
  lemma RoundTripIsNormalIff(s: seq<Byte>)
    ensures Decode(Encode(s), false) == Normal(s, false) <==> !HasEscape(s)
  {
    DecodeEncode(s, false);
  }

  /** "%41" does not return: the encoder keeps it and the decoder makes it "A". */
  lemma RawEscapeIsLost(s: seq<Byte>)
    requires s == [PERCENT, 0x34, 0x31]
    ensures Decode(Encode(s), false) != Normal(s, false)
  {
    assert s[0..] == s && StartsEscape(s[0..]);
    RoundTripIsNormalIff(s);
  }

  /** No blank or control byte, and no '\\' before the argument part. */
  predicate IsClean(s: seq<Byte>, inArguments: bool) {
    forall i :: 0 <= i < |s| ==>
      && s[i] > SPACE
      && (s[i] == BACKSLASH && !inArguments ==> exists j :: 0 <= j < i && StartsArguments(s[j]))
  }

  lemma CleanNext(s: seq<Byte>, inArguments: bool)
    requires s != []
    ensures
      IsClean(s, inArguments)
      <==> s[0] > SPACE && (s[0] == BACKSLASH ==> inArguments) && IsClean(s[1..], inArguments || StartsArguments(s[0]))
  {
    var later := inArguments || StartsArguments(s[0]);
    if IsClean(s, inArguments) {
      forall i | 0 <= i < |s[1..]|
        ensures s[1..][i] > SPACE
        ensures s[1..][i] == BACKSLASH && !later ==> exists j :: 0 <= j < i && StartsArguments(s[1..][j])
      {
        assert s[1..][i] == s[i + 1];
        if s[i + 1] == BACKSLASH && !later {
          var j :| 0 <= j < i + 1 && StartsArguments(s[j]);
          assert s[1..][j - 1] == s[j];
        }
      }
    }
    if s[0] > SPACE && (s[0] == BACKSLASH ==> inArguments) && IsClean(s[1..], later) {
      forall i | 0 <= i < |s|
        ensures s[i] > SPACE
        ensures s[i] == BACKSLASH && !inArguments ==> exists j :: 0 <= j < i && StartsArguments(s[j])
      {
        if i > 0 {
          assert s[1..][i - 1] == s[i];
          if s[i] == BACKSLASH && !later {
            var j :| 0 <= j < i - 1 && StartsArguments(s[1..][j]);
            assert s[j + 1] == s[1..][j];
          }
        }
      }
    }
  }

  lemma NothingIsClean(inArguments: bool)
    ensures Normal([], inArguments) == [] && IsClean([], inArguments)
  {
  }

  /** The first byte above a blank stays or is turned into a slash; any other becomes a '+' or a '%'. */
  lemma NormalHead(s: seq<Byte>, inArguments: bool)
    requires s != []
    ensures
      var rest := Normal(s[1..], inArguments || StartsArguments(s[0]));
      if s[0] > SPACE then
        Normal(s, inArguments) == [if s[0] == BACKSLASH && !inArguments then SLASH else s[0]] + rest
      else
        Normal(s, inArguments) != [] && Normal(s, inArguments)[0] > SPACE
  {
  }

  lemma {:induction false} NormalIsIdentityIff(s: seq<Byte>, inArguments: bool)
    ensures Normal(s, inArguments) == s <==> IsClean(s, inArguments)
    ensures (forall i :: 0 <= i < |s| ==> s[i] > SPACE) ==> |Normal(s, inArguments)| == |s|
  {
    hide IsClean, Normal;
    if s == [] {
      NothingIsClean(inArguments);
    } else {
      var later := inArguments || StartsArguments(s[0]);
      NormalIsIdentityIff(s[1..], later);
      CleanNext(s, inArguments);
      NormalHead(s, inArguments);
      assert s == [s[0]] + s[1..];
    }
  }

  /** Encoding then decoding changes nothing exactly on clean sources without a raw escape. */
  lemma RoundTripIsIdentityIff(s: seq<Byte>)
    ensures Decode(Encode(s), false) == s <==> !HasEscape(s) && IsClean(s, false)
  {
    hide Decode, Encode, Normal;
    DecodeEncode(s, false);
    DecodeIsPrintable(Encode(s), false);
    NormalIsIdentityIff(s, false);
  }
}
