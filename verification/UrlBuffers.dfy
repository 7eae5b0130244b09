/**
 `URLEncoder` on its buffers. A call gets a source and a destination of `destsize` bytes; four bytes of the
 destination stay in reserve for the last character. The decoder keeps a state, steps back over the input
 when a '%' turns out not to open an escape, and is proved to compute `UrlCodec.Decode`, which never does.
 */
module UrlBuffers {
  import opened Machine
  import opened UrlCodec

  datatype DecoderState = Common | Escape1 | Escape2

  /** The source a call with an explicit length reads. */
  function Given(src: seq<Byte>, srclen: int): seq<Byte>
    requires srclen <= |src|
  {
    if srclen > 0 then src[..srclen] else []
  }

  /** The source a call with a NUL-terminated string reads. */
  function CString(src: seq<Byte>): (s: seq<Byte>)
    requires 0 in src
    ensures |s| < |src| && s == src[..|s|] && 0 !in s && src[|s|] == 0
  {
    if src[0] == 0 then [] else [src[0]] + CString(src[1..])
  }

  /** Result and destination of a decoding call whose source is `s`. */
  predicate DecodedInto(s: seq<Byte>, dest: seq<Byte>, destsize: int, result: int) {
    var out := Decode(s, false);
    if |out| < destsize - 4 then
      result == |out| < |dest| && dest[..result] == out && dest[result] == 0
    else
      result == -1
  }

  ghost predicate Pending(s: seq<Byte>, start: nat, inArguments: bool, out: seq<Byte>) {
    start <= |s| && out + Decode(s[start..], inArguments) == Decode(s, false)
  }

  lemma TakeEscape(s: seq<Byte>, start: nat, inArguments: bool, out: seq<Byte>)
    requires Pending(s, start, inArguments, out) && StartsEscape(s[start..])
    ensures Pending(s, start + 3, inArguments, out + [16 * HexValue(s[start + 1]) + HexValue(s[start + 2])])
  {
    assert s[start..][3..] == s[start + 3..];
  }

  lemma TakeDropped(s: seq<Byte>, start: nat, inArguments: bool, out: seq<Byte>)
    requires Pending(s, start, inArguments, out) && start < |s| && IsDropped(s[start])
    ensures Pending(s, start + 1, inArguments, out)
  {
    assert s[start..][1..] == s[start + 1..];
  }

  lemma TakePlain(s: seq<Byte>, start: nat, inArguments: bool, out: seq<Byte>)
    requires Pending(s, start, inArguments, out) && start < |s|
    requires !IsDropped(s[start]) && !StartsEscape(s[start..])
    ensures Pending(s, start + 1, inArguments || StartsArguments(s[start]), out + PlainByte(s[start], inArguments))
  {
    assert s[start..][1..] == s[start + 1..];
  }

  /** Where the read pointer stands relative to the token that began at `start`. */
  ghost predicate Reading(s: seq<Byte>, start: nat, state: DecoderState, scan: int, nonescback: bool, deescape: int) {
    match state
    case Common =>
      scan == start && (nonescback ==> start < |s| && s[start] == PERCENT && !StartsEscape(s[start..]))
    case Escape1 =>
      scan == start + 1 && start + 2 < |s| && s[start] == PERCENT && !nonescback
    case Escape2 =>
      && scan == start + 2 && start + 2 < |s| && s[start] == PERCENT && !nonescback
      && OpensEscape(s[start + 1], s[start + 2]) && deescape == 16 * HexValue(s[start + 1])
  }

  lemma ReadingAt(s: seq<Byte>, start: nat, state: DecoderState, scan: int, nonescback: bool, deescape: int)
    requires Reading(s, start, state, scan, nonescback, deescape)
    ensures scan == match state case Common => start case Escape1 => start + 1 case Escape2 => start + 2
    ensures state != Common ==> start + 2 < |s| && !nonescback
  {
  }

  /** The half-read byte matters in the last state only. */
  lemma ReadingOther(s: seq<Byte>, start: nat, state: DecoderState, scan: int, nonescback: bool, deescape: int,
                     other: int)
    requires Reading(s, start, state, scan, nonescback, deescape) && state != Escape2
    ensures Reading(s, start, state, scan, nonescback, other)
  {
  }

  lemma FirstOpens(s: seq<Byte>, start: nat, scan: int, deescape: int, high: int)
    requires Reading(s, start, Escape1, scan, false, deescape) && OpensEscape(s[start + 1], s[start + 2])
    requires high == 16 * HexValue(s[start + 1])
    ensures Reading(s, start, Escape2, scan + 1, false, high)
  {
    hide HexValue;
  }

  lemma FirstFails(s: seq<Byte>, start: nat, scan: int, deescape: int)
    requires Reading(s, start, Escape1, scan, false, deescape) && !OpensEscape(s[start + 1], s[start + 2])
    ensures Reading(s, start, Common, scan - 1, true, deescape)
  {
  }

  function Progress(state: DecoderState, nonescback: bool): nat {
    match state
    case Common => if nonescback then 0 else 3
    case Escape1 => 2
    case Escape2 => 1
  }

  /** The write position may pass the reserve by two cells, no further. */
  predicate Fits(d: int, destsize: int) {
    0 <= d && (if destsize >= 4 then d <= destsize - 2 else d == 0)
  }

  function Reach(destsize: int): nat {
    if destsize > 0 then destsize else 0
  }

  method Put1(dest: array<Byte>, at: nat, b: Byte)
    requires at < dest.Length
    modifies dest
    ensures dest[..] == old(dest[..at]) + [b] + old(dest[at + 1..])
  {
    dest[at] := b;
  }

  method Put3(dest: array<Byte>, at: nat, b: Byte)
    requires at + 3 <= dest.Length
    modifies dest
    ensures dest[..] == old(dest[..at]) + PercentForm(b) + old(dest[at + 3..])
  {
    dest[at] := PERCENT;
    dest[at + 1] := HexChar(b / 16);
    dest[at + 2] := HexChar(b % 16);
  }

  /** One byte in the common state. `lookahead` says whether two more bytes follow. */
  method CommonByte(dest: array<Byte>, d: nat, c: Byte, lookahead: bool, nonescback: bool, ifargu: bool,
                    ghost s: seq<Byte>, ghost start: nat, ghost destsize: int)
    returns (state: DecoderState, d': nat, nonescback': bool, ifargu': bool)
    requires d < destsize - 4 && destsize <= dest.Length
    requires start < |s| && c == s[start] && (lookahead <==> start + 2 < |s|)
    requires Pending(s, start, ifargu, dest[..d])
    requires Reading(s, start, Common, start, nonescback, 0)
    modifies dest
    ensures state != Escape2 && (state == Escape1 ==> !nonescback)
    ensures Fits(d', destsize) && dest[destsize..] == old(dest[destsize..])
    ensures
      var start' := if state == Escape1 then start else start + 1;
      && Pending(s, start', ifargu', dest[..d'])
      && Reading(s, start', state, start + 1, nonescback', 0)
  {
    hide Decode, HexChar, Pending, PercentForm;
    ghost var out := dest[..d];
    state, d', nonescback', ifargu' := Common, d, nonescback, ifargu;
    if c <= 0x20 {
      if c == TAB || c == RETURN || c == NEWLINE {
        TakeDropped(s, start, ifargu, out);
      } else {
        TakePlain(s, start, ifargu, out);
        Put3(dest, d, c);
        d' := d + 3;
        assert dest[..d'] == out + PercentForm(c);
      }
    } else {
      if c == SEMICOLON || c == QUESTION {
        ifargu' := true;
      }
      if c == PERCENT && !nonescback && lookahead {
        state := Escape1;
      } else {
        TakePlain(s, start, ifargu, out);
        var put := if c == BACKSLASH then (if ifargu' then BACKSLASH else SLASH) else c;
        Put1(dest, d, put);
        if c == PERCENT {
          nonescback' := false;
        }
        d' := d + 1;
        assert dest[..d'] == out + PlainByte(c, ifargu);
      }
    }
  }

  /** The digit behind the '%': 3 to 9, A to F, or a 2 that is not the start of "20". */
  method FirstDigit(c: Byte, twoOpens: bool) returns (open: bool, high: int)
    ensures open <==> IsHex(c) && c >= 0x32 && (c == 0x32 ==> twoOpens)
    ensures open ==> high == 16 * HexValue(c)
  {
    open, high := true, 0;
    if 0x41 <= c <= 0x46 {
      high := (c - 0x41 + 10) * 16;
    } else if 0x61 <= c <= 0x66 {
      high := (c - 0x61 + 10) * 16;
    } else if 0x33 <= c <= 0x39 || (c == 0x32 && twoOpens) {
      high := (c - 0x30) * 16;
    } else {
      open := false;
    }
  }

  /** The digit that closes an escape and puts its byte out; anything else makes the '%' an ordinary byte. */
  method LastDigit(dest: array<Byte>, d: nat, c: Byte, deescape: int, ifargu: bool,
                   ghost s: seq<Byte>, ghost start: nat, ghost destsize: int)
    returns (d': nat, nonescback: bool)
    requires d < destsize - 4 && destsize <= dest.Length
    requires Pending(s, start, ifargu, dest[..d])
    requires Reading(s, start, Escape2, start + 2, false, deescape) && c == s[start + 2]
    modifies dest
    ensures Fits(d', destsize) && dest[destsize..] == old(dest[destsize..])
    ensures
      var start' := if nonescback then start else start + 3;
      && Pending(s, start', ifargu, dest[..d'])
      && Reading(s, start', Common, start', nonescback, 0)
  {
    hide Decode, Pending;
    d', nonescback := d, false;
    var low := 0;
    if 0x41 <= c <= 0x46 {
      low := c - 0x41 + 10;
    } else if 0x61 <= c <= 0x66 {
      low := c - 0x61 + 10;
    } else if 0x30 <= c <= 0x39 {
      low := c - 0x30;
    } else {
      nonescback := true;
      return;
    }
    TakeEscape(s, start, ifargu, dest[..d]);
    ghost var out := dest[..d];
    Put1(dest, d, deescape + low);
    d' := d + 1;
    assert dest[..d'] == out + [deescape + low];
  }

  lemma ReadingBegins(s: seq<Byte>)
    ensures Reading(s, 0, Common, 0, false, 0)
  {
  }

  lemma NothingTaken(s: seq<Byte>, out: seq<Byte>)
    requires out == []
    ensures Pending(s, 0, false, out)
  {
    assert s[0..] == s;
  }

  lemma AllTaken(s: seq<Byte>, inArguments: bool, out: seq<Byte>)
    requires Pending(s, |s|, inArguments, out)
    ensures out == Decode(s, false)
  {
  }

  lemma TooLong(s: seq<Byte>, start: nat, inArguments: bool, out: seq<Byte>)
    requires Pending(s, start, inArguments, out)
    ensures |out| <= |Decode(s, false)|
  {
  }

  /** Decodes `srclen` bytes. */
  method Decoding(src: array?<Byte>, srclen: int, dest: array<Byte>, destsize: int) returns (result: int)
    requires src != null ==> srclen <= src.Length && src != dest
    requires destsize <= dest.Length
    modifies dest
    ensures src == null || srclen == 0 ==> result == 0 && dest[..] == old(dest[..])
    ensures src != null && srclen != 0 ==> DecodedInto(Given(src[..], srclen), dest[..], destsize, result)
    ensures dest[Reach(destsize)..] == old(dest[Reach(destsize)..])
  {
    hide Decode, Pending, HexValue, IsHex, Reading;
    if src == null || srclen == 0 {
      return 0;
    }
    ghost var s := Given(src[..], srclen);
    var state := Common;
    var scan, pend, d, pdestend := 0, srclen, 0, destsize - 4;
    var deescape: int := 0;
    var nonescback, ifargu := false, false;
    ghost var start := 0;
    NothingTaken(s, dest[..0]);
    ReadingBegins(s);
    while scan < pend && d < pdestend
      invariant Fits(d, destsize)
      invariant start <= |s| && Pending(s, start, ifargu, dest[..d])
      invariant 0 <= scan <= |s| && Reading(s, start, state, scan, nonescback, deescape)
      invariant s == Given(src[..], srclen)
      invariant dest[Reach(destsize)..] == old(dest[Reach(destsize)..])
      decreases |s| - start, Progress(state, nonescback)
    {
      ReadingAt(s, start, state, scan, nonescback, deescape);
      var c := src[scan];
      assert c == s[scan];
      match state
      case Common =>
        var lookahead := scan + 2 < pend;
        assert lookahead <==> start + 2 < |s|;
        ReadingOther(s, start, state, scan, nonescback, deescape, 0);
        state, d, nonescback, ifargu := CommonByte(dest, d, c, lookahead, nonescback, ifargu, s, start, destsize);
        start := if state == Escape1 then start else start + 1;
        scan := scan + 1;
        ReadingOther(s, start, state, scan, nonescback, 0, deescape);
      case Escape1 =>
        var open, high := FirstDigit(c, scan + 1 < pend && src[scan + 1] != 0x30);
        assert open <==> OpensEscape(s[start + 1], s[start + 2]);
        if open {
          FirstOpens(s, start, scan, deescape, high);
          deescape := high;
          state, scan := Escape2, scan + 1;
        } else {
          FirstFails(s, start, scan, deescape);
          nonescback := true;
          state, scan := Common, scan - 1;
        }
      case Escape2 =>
        d, nonescback := LastDigit(dest, d, c, deescape, ifargu, s, start, destsize);
        start := if nonescback then start else start + 3;
        scan := if nonescback then scan - 2 else scan + 1;
        state := Common;
        ReadingOther(s, start, state, scan, nonescback, 0, deescape);
    }
    if d < destsize - 4 {
      ReadingAt(s, start, state, scan, nonescback, deescape);
      AllTaken(s, ifargu, dest[..d]);
      Put1(dest, d, 0);
      result := d;
    } else {
      TooLong(s, start, ifargu, dest[..d]);
      result := -1;
    }
  }

  /** Decodes up to the terminating NUL. */
  method DecodingString(src: array?<Byte>, dest: array<Byte>, destsize: int) returns (result: int)
    requires src != null ==> 0 in src[..] && src != dest
    requires destsize <= dest.Length
    modifies dest
    ensures src == null ==> result == 0 && dest[..] == old(dest[..])
    ensures src != null ==> DecodedInto(CString(src[..]), dest[..], destsize, result)
    ensures dest[Reach(destsize)..] == old(dest[Reach(destsize)..])
  {
    hide Decode, Pending, HexValue, IsHex, CString, Reading;
    if src == null {
      return 0;
    }
    ghost var s := CString(src[..]);
    var state := Common;
    var scan, d, pdestend := 0, 0, destsize - 4;
    var deescape: int := 0;
    var nonescback, ifargu := false, false;
    ghost var start := 0;
    NothingTaken(s, dest[..0]);
    ReadingBegins(s);
    while src[scan] != 0 && d < pdestend
      invariant Fits(d, destsize)
      invariant start <= |s| && Pending(s, start, ifargu, dest[..d])
      invariant 0 <= scan <= |s| && Reading(s, start, state, scan, nonescback, deescape)
      invariant |s| < src.Length && s == src[..|s|] && src[|s|] == 0 && 0 !in s
      invariant dest[Reach(destsize)..] == old(dest[Reach(destsize)..])
      decreases |s| - start, Progress(state, nonescback)
    {
      ReadingAt(s, start, state, scan, nonescback, deescape);
      var c := src[scan];
      assert c == s[scan];
      match state
      case Common =>
        var lookahead := src[scan + 1] != 0 && src[scan + 2] != 0;
        assert lookahead <==> start + 2 < |s|;
        ReadingOther(s, start, state, scan, nonescback, deescape, 0);
        state, d, nonescback, ifargu := CommonByte(dest, d, c, lookahead, nonescback, ifargu, s, start, destsize);
        start := if state == Escape1 then start else start + 1;
        scan := scan + 1;
        ReadingOther(s, start, state, scan, nonescback, 0, deescape);
      case Escape1 =>
        var open, high := FirstDigit(c, src[scan + 1] != 0 && src[scan + 1] != 0x30);
        assert open <==> OpensEscape(s[start + 1], s[start + 2]);
        if open {
          FirstOpens(s, start, scan, deescape, high);
          deescape := high;
          state, scan := Escape2, scan + 1;
        } else {
          FirstFails(s, start, scan, deescape);
          nonescback := true;
          state, scan := Common, scan - 1;
        }
      case Escape2 =>
        d, nonescback := LastDigit(dest, d, c, deescape, ifargu, s, start, destsize);
        start := if nonescback then start else start + 3;
        scan := if nonescback then scan - 2 else scan + 1;
        state := Common;
        ReadingOther(s, start, state, scan, nonescback, 0, deescape);
    }
    if d < destsize - 4 {
      ReadingAt(s, start, state, scan, nonescback, deescape);
      AllTaken(s, ifargu, dest[..d]);
      Put1(dest, d, 0);
      result := d;
    } else {
      TooLong(s, start, ifargu, dest[..d]);
      result := -1;
    }
  }

  /** Result and destination of an encoding call that took the first `taken` bytes of `s`. */
  ghost predicate EncodedInto(s: seq<Byte>, taken: nat, dest: seq<Byte>, destsize: int, destlen: int) {
    && taken <= |s| && 0 <= destlen < |dest|
    && dest[..destlen] == Encode(s[..taken]) && dest[destlen] == 0
    && (taken < |s| ==> destlen >= destsize - 4)
    && (taken > 0 ==> |Encode(s[..taken - 1])| < destsize - 4)
    && (|Encode(s)| < destsize - 4 ==> taken == |s|)
  }

  /** The last cell an encoder may write. */
  function Room(destsize: int): nat {
    if destsize > 4 then destsize - 2 else 0
  }

  lemma NothingEncoded(s: seq<Byte>)
    ensures Encode(s[..0]) == []
  {
  }

  lemma {:induction false} EncodeConcat(a: seq<Byte>, b: seq<Byte>)
    ensures Encode(a + b) == Encode(a) + Encode(b)
  {
    hide EncodedByte;
    if a == [] {
      assert a + b == b;
    } else {
      assert (a + b)[1..] == a[1..] + b;
      EncodeConcat(a[1..], b);
    }
  }

  lemma EncodeNext(s: seq<Byte>, taken: nat)
    requires taken < |s|
    ensures Encode(s[..taken + 1]) == Encode(s[..taken]) + EncodedByte(s[taken])
  {
    assert s[..taken + 1] == s[..taken] + [s[taken]];
    EncodeConcat(s[..taken], [s[taken]]);
  }

  lemma EncodeGrows(s: seq<Byte>, taken: nat)
    requires taken <= |s|
    ensures |Encode(s[..taken])| <= |Encode(s)|
  {
    assert s == s[..taken] + s[taken..];
    EncodeConcat(s[..taken], s[taken..]);
  }

  method PutEncoded(dest: array<Byte>, d: nat, b: Byte) returns (d': nat)
    requires d + 3 <= dest.Length
    modifies dest
    ensures d < d' <= d + 3 && dest[..d'] == old(dest[..d]) + EncodedByte(b)
    ensures dest[d + 3..] == old(dest[d + 3..])
  {
    if ByteMap(b) != 0 {
      Put1(dest, d, ByteMap(b));
      d' := d + 1;
    } else {
      Put3(dest, d, b);
      d' := d + 3;
    }
  }

  /** Encodes `srclen` bytes, or as many as fit. */
  method Encoding(src: array?<Byte>, srclen: int, dest: array<Byte>, destsize: int)
    returns (destlen: int, ghost taken: nat)
    requires src != null ==> srclen <= src.Length && src != dest
    requires destsize <= dest.Length && 1 <= dest.Length
    modifies dest
    ensures src == null || srclen <= 0 ==> destlen == 0 && dest[..] == old(dest[..])
    ensures src != null && srclen > 0 ==> EncodedInto(src[..srclen], taken, dest[..], destsize, destlen)
    ensures dest[Room(destsize) + 1..] == old(dest[Room(destsize) + 1..])
  {
    hide Encode, EncodedByte;
    if src == null || srclen <= 0 {
      return 0, 0;
    }
    ghost var s := src[..srclen];
    var scan := 0;
    var d, pdestend := 0, destsize - 4;
    taken := 0;
    NothingEncoded(s);
    while scan < srclen && d < pdestend
      invariant taken <= |s| && scan == taken && s == src[..srclen]
      invariant d <= Room(destsize) && dest[..d] == Encode(s[..taken])
      invariant taken > 0 ==> |Encode(s[..taken - 1])| < destsize - 4
      invariant dest[Room(destsize) + 1..] == old(dest[Room(destsize) + 1..])
    {
      ghost var out := dest[..d];
      EncodeNext(s, taken);
      d := PutEncoded(dest, d, src[scan]);
      scan, taken := scan + 1, taken + 1;
    }
    if d < destsize - 4 {
      assert s[..taken] == s;
    } else {
      EncodeGrows(s, taken);
    }
    dest[d] := 0;
    destlen := d;
    assert dest[..d] == Encode(s[..taken]);
  }

  /** Encodes up to the terminating NUL, or as many bytes as fit. */
  method EncodingString(src: array?<Byte>, dest: array<Byte>, destsize: int)
    returns (destlen: int, ghost taken: nat)
    requires src != null ==> 0 in src[..] && src != dest
    requires destsize <= dest.Length && 1 <= dest.Length
    modifies dest
    ensures src == null ==> destlen == 0 && dest[..] == old(dest[..])
    ensures src != null ==> EncodedInto(CString(src[..]), taken, dest[..], destsize, destlen)
    ensures dest[Room(destsize) + 1..] == old(dest[Room(destsize) + 1..])
  {
    hide CString, Encode, EncodedByte;
    if src == null {
      return 0, 0;
    }
    ghost var s := CString(src[..]);
    var scan := 0;
    var d, pdestend := 0, destsize - 4;
    taken := 0;
    NothingEncoded(s);
    while src[scan] != 0 && d < pdestend
      invariant taken <= |s| && scan == taken && |s| < src.Length && s == src[..|s|] && src[|s|] == 0 && 0 !in s
      invariant d <= Room(destsize) && dest[..d] == Encode(s[..taken])
      invariant taken > 0 ==> |Encode(s[..taken - 1])| < destsize - 4
      invariant dest[Room(destsize) + 1..] == old(dest[Room(destsize) + 1..])
      decreases |s| - taken
    {
      ghost var out := dest[..d];
      EncodeNext(s, taken);
      d := PutEncoded(dest, d, src[scan]);
      scan, taken := scan + 1, taken + 1;
    }
    if d < destsize - 4 {
      assert s[..taken] == s;
    } else {
      EncodeGrows(s, taken);
    }
    dest[d] := 0;
    destlen := d;
    assert dest[..d] == Encode(s[..taken]);
  }

  /**
   The explicit-length and the NUL-terminated call agree on the same non-empty text (only the empty one sets
   them apart: with an explicit length of zero nothing is written).
   */
  lemma DecodersAgree(src: seq<Byte>, srclen: nat, text: seq<Byte>, dest1: seq<Byte>, dest2: seq<Byte>,
                      destsize: int, result1: int, result2: int)
    requires 0 < srclen <= |src| && 0 in text && src[..srclen] == CString(text)
    requires DecodedInto(Given(src, srclen), dest1, destsize, result1)
    requires DecodedInto(CString(text), dest2, destsize, result2)
    ensures result1 == result2
    ensures result1 >= 0 ==> dest1[..result1 + 1] == dest2[..result2 + 1]
  {
    if result1 >= 0 {
      assert dest1[..result1 + 1] == dest1[..result1] + [0];
      assert dest2[..result1 + 1] == dest2[..result1] + [0];
    }
  }

  /** Encode, then decode, both with room enough: the destination holds the normal form of the source. */
  lemma RoundTripThroughBuffers(s: seq<Byte>, taken: nat, middle: seq<Byte>, size1: int, length1: int,
                                dest: seq<Byte>, size2: int, length2: int)
    requires EncodedInto(s, taken, middle, size1, length1) && |Encode(s)| < size1 - 4
    requires DecodedInto(Given(middle, length1), dest, size2, length2) && |Normal(s, false)| < size2 - 4
    requires !HasEscape(s)
    ensures length2 == |Normal(s, false)| && dest[..length2] == Normal(s, false) && dest[length2] == 0
  {
    hide Encode, Decode, Normal;
    assert s[..taken] == s && Given(middle, length1) == Encode(s);
    RoundTripIsNormalIff(s);
  }

  /** Both overloads called on the same text: they return the same and leave the same text behind. */
  method DecodeBothWays(src: array<Byte>, srclen: nat, text: array<Byte>, dest1: array<Byte>, dest2: array<Byte>,
                        destsize: int)
    returns (result1: int, result2: int)
    requires src != dest1 && src != dest2 && text != dest1 && text != dest2 && dest1 != dest2
    requires 0 < srclen <= src.Length && 0 in text[..] && src[..srclen] == CString(text[..])
    requires destsize <= dest1.Length && destsize <= dest2.Length
    modifies dest1, dest2
    ensures result1 == result2
    ensures 0 <= result1 ==>
      result1 < dest1.Length && result1 < dest2.Length && dest1[..result1 + 1] == dest2[..result1 + 1]
  {
    hide CString, Decode;
    result1 := Decoding(src, srclen, dest1, destsize);
    result2 := DecodingString(text, dest2, destsize);
    DecodersAgree(src[..], srclen, text[..], dest1[..], dest2[..], destsize, result1, result2);
  }

  lemma EncodeIsNotEmpty(s: seq<Byte>)
    requires s != []
    ensures Encode(s) != []
  {
  }

  /** An encoding call and a decoding call on what it wrote: exactly without a raw escape the normal form returns. */
  method EncodeThenDecode(src: array<Byte>, srclen: nat, middle: array<Byte>, size1: int, dest: array<Byte>, size2: int)
    returns (length1: int, length2: int)
    requires src != middle && src != dest && middle != dest && 0 < srclen <= src.Length
    requires |Encode(src[..srclen])| < size1 - 4 && size1 <= middle.Length
    requires |Decode(Encode(src[..srclen]), false)| < size2 - 4 && size2 <= dest.Length
    modifies middle, dest
    ensures 0 <= length1 < middle.Length && middle[..length1] == old(Encode(src[..srclen]))
    ensures 0 <= length2 < dest.Length && dest[length2] == 0
    ensures dest[..length2] == old(Normal(src[..srclen], false)) <==> !HasEscape(old(src[..srclen]))
  {
    hide Encode, Decode, Normal, HasEscape;
    ghost var s := src[..srclen];
    ghost var taken;
    length1, taken := Encoding(src, srclen, middle, size1);
    assert s[..taken] == s;
    EncodeIsNotEmpty(s);
    length2 := Decoding(middle, length1, dest, size2);
    assert Given(middle[..], length1) == Encode(s);
    RoundTripIsNormalIff(s);
  }
}
