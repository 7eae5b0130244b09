/**
 What the streaming hasher promises: cutting the input into pieces never matters, the digest is the one RFC
 1321 defines, and asking for a digest leaves the hasher able to go on exactly when fewer than 56 bytes wait
 in the buffer (or the bytes that wait happen to be the ones padding would put there).
 */
module Md5Streaming {
  import opened Basics
  import opened Machine
  import opened Rfc1321
  import opened Md5

  /** The hasher has absorbed exactly `m` since its last reset. */
  ghost predicate Holds(h: Hasher, m: seq<Byte>) {
    && h.WellFormed()
    && !h.finished
    && h.bits == (8 * |m|) % COUNT_SPAN
    && h.regs == Fold(INIT, m[..Whole(|m|)])
    && h.buffer[..|m| % 64] == m[Whole(|m|)..]
  }

  function Fed(h: Hasher, chunks: seq<seq<Byte>>): (r: Hasher)
    requires h.WellFormed()
    ensures r.WellFormed()
  {
    if chunks == [] then h else Updated(Fed(h, chunks[..|chunks| - 1]), chunks[|chunks| - 1])
  }

  lemma ResetHolds(h: Hasher)
    requires h.WellFormed()
    ensures Holds(Reset(h), [])
  {
  }

  lemma BlocksTogether(a: nat, b: nat)
    requires a % 64 == 0 && b % 64 == 0
    ensures (a + b) % 64 == 0
  {
  }

  lemma OneBlockLess(b: nat)
    requires b % 64 == 0 && b > 0
    ensures b >= 64 && (b - 64) % 64 == 0
  {
  }

  lemma FoldBlock(r: Regs, data: seq<Byte>, front: seq<Byte>, block: seq<Byte>)
    requires data == front + block && |block| == 64 && |front| % 64 == 0 && |data| % 64 == 0
    ensures Fold(r, data) == Compress(Fold(r, front), block)
  {
    hide Compress;
    assert data[..|data| - 64] == front && data[|data| - 64..] == block;
  }

  lemma {:induction false} FoldConcat(r: Regs, a: seq<Byte>, b: seq<Byte>)
    requires |a| % 64 == 0 && |b| % 64 == 0
    ensures (|a| + |b|) % 64 == 0 && Fold(r, a + b) == Fold(Fold(r, a), b)
    decreases |b|
  {
    hide Fold;
    BlocksTogether(|a|, |b|);
    if b == [] {
      assert a + b == a && b[..0] == b;
      FoldNone(Fold(r, a), b);
    } else {
      OneBlockLess(|b|);
      var cut := |b| - 64;
      var front, last, ab := b[..cut], b[cut..], a + b;
      FoldConcat(r, a, front);
      FoldBlock(r, ab, a + front, last);
      FoldBlock(Fold(r, a), b, front, last);
    }
  }

  lemma PendingOfMessage(h: Hasher, n: nat)
    requires h.bits == (8 * n) % COUNT_SPAN
    ensures h.Pending() == n % 64
  {
    var k := 8 * n / COUNT_SPAN;
    assert 8 * n == h.bits + k * COUNT_SPAN;
    assert h.bits / 8 == n - k * 0x2000_0000_0000_0000;
    assert n == h.bits / 8 + 64 * (k * 0x80_0000_0000_0000);
  }

  lemma BitsAdd(a: nat, b: nat)
    ensures ((8 * a) % COUNT_SPAN + 8 * b) % COUNT_SPAN == (8 * (a + b)) % COUNT_SPAN
  {
  }

  lemma WholeAdd(a: nat, b: nat)
    ensures Whole(a + b) == Whole(a) + Whole(a % 64 + b)
    ensures a - Whole(a) == a % 64
    ensures (a + b) % 64 == (a % 64 + b) - Whole(a % 64 + b)
  {
  }

  lemma UpdatedFields(h: Hasher, input: seq<Byte>, all: seq<Byte>)
    requires h.WellFormed() && all == h.buffer[..h.Pending()] + input
    ensures
      var r, full := Updated(h, input), Whole(|all|);
      && r.regs == Fold(h.regs, all[..full]) && r.bits == (h.bits + 8 * |input|) % COUNT_SPAN && !r.finished
      && r.buffer[..|all| - full] == all[full..]
  {
    hide Fold, Whole, Hasher.Pending;
  }

  /** Behind the whole blocks of `m`, what is pending and the input continue the message. */
  lemma CutMessage(m: seq<Byte>, input: seq<Byte>, whole: nat, all: seq<Byte>, full: nat)
    requires whole <= |m| && all == m[whole..] + input && full <= |all|
    ensures (m + input)[..whole + full] == m[..whole] + all[..full]
    ensures (m + input)[whole + full..] == all[full..]
  {
    assert m + input == m[..whole] + all;
  }

  /** One call of `update` appends its input to what the hasher holds. */
  lemma UpdateHolds(h: Hasher, m: seq<Byte>, input: seq<Byte>)
    requires Holds(h, m)
    ensures Holds(Updated(h, input), m + input)
  {
    hide Updated, Fold, Whole, Hasher.Pending;
    var whole := Whole(|m|);
    PendingOfMessage(h, |m|);
    WholeAdd(|m|, |input|);
    BitsAdd(|m|, |input|);
    var all := h.buffer[..|m| % 64] + input;
    var full := Whole(|all|);
    UpdatedFields(h, input, all);
    CutMessage(m, input, whole, all, full);
    FoldConcat(INIT, m[..whole], all[..full]);
  }

  /** However the message is cut, the hasher ends up holding the whole message. */
  lemma {:induction false} ChunksHold(h: Hasher, chunks: seq<seq<Byte>>)
    requires h.WellFormed()
    ensures Holds(Fed(Reset(h), chunks), Flatten(chunks))
  {
    if chunks == [] {
      ResetHolds(h);
    } else {
      var last := |chunks| - 1;
      ChunksHold(h, chunks[..last]);
      UpdateHolds(Fed(Reset(h), chunks[..last]), Flatten(chunks[..last]), chunks[last]);
    }
  }

  lemma PaddingTail(n: nat)
    ensures CountBytes((8 * n) % COUNT_SPAN) == LengthBytes(n)
  {
    var bits := (8 * n) % COUNT_SPAN;
    hide WordBytes;
    EncodedPair(bits % WORD_SPAN, bits / WORD_SPAN);
  }

  lemma PadLengths(n: nat)
    ensures FinalPadLength(n % 64) == PadLength(n)
  {
  }

  lemma PaddingFront(k: nat)
    requires 1 <= k <= 64
    ensures |PADDING| == 64 && PADDING[..k] == [0x80] + Zeros(k - 1)
  {
  }

  lemma PaddingBytes(n: nat)
    ensures PADDING[..FinalPadLength(n % 64)] + CountBytes((8 * n) % COUNT_SPAN) == Padding(n)
  {
    hide PADDING, FinalPadLength, PadLength, CountBytes, LengthBytes, Zeros;
    PadLengths(n);
    PaddingFront(PadLength(n));
    PaddingTail(n);
  }

  lemma PendingOfHeld(h: Hasher, m: seq<Byte>)
    requires Holds(h, m)
    ensures h.WellFormed() && h.Pending() == |m| % 64 && h.bits == (8 * |m|) % COUNT_SPAN
  {
    PendingOfMessage(h, |m|);
  }

  lemma PaddedHolds(h: Hasher, m: seq<Byte>)
    requires Holds(h, m)
    ensures Holds(Padded(h), m + Padding(|m|))
  {
    hide Updated, Holds, CountBytes;
    PendingOfHeld(h, m);
    var pad, tail := PADDING[..FinalPadLength(|m| % 64)], CountBytes(h.bits);
    UpdateHolds(h, m, pad);
    UpdateHolds(Updated(h, pad), m + pad, tail);
    PaddingBytes(|m|);
    assert m + pad + tail == m + (pad + tail);
  }

  /** `digest` raises the finished flag, but padding goes through `update`, which drops it again. */
  lemma PaddedIgnoresFlag(h: Hasher)
    requires h.WellFormed()
    ensures Padded(h.(finished := true)) == Padded(h) && !Padded(h).finished
  {
  }

  /** The digest of a hasher that holds `m` is the RFC 1321 digest of `m`, for every message length. */
  lemma DigestIsRfc1321(h: Hasher, m: seq<Byte>)
    requires Holds(h, m)
    ensures Digested(h).digest == Digest(m)
  {
    hide Fold, Updated;
    PaddedIgnoresFlag(h);
    PaddedHolds(h, m);
    var whole := m + Padding(|m|);
    assert Whole(|whole|) == |whole| && whole[..|whole|] == whole;
  }

  /** Two ways of cutting the same message give the same digest, whatever the hashers did before. */
  lemma ChunkingNeverMatters(h1: Hasher, chunks1: seq<seq<Byte>>, h2: Hasher, chunks2: seq<seq<Byte>>)
    requires h1.WellFormed() && h2.WellFormed()
    requires Flatten(chunks1) == Flatten(chunks2)
    ensures
      var a, b := Fed(Reset(h1), chunks1), Fed(Reset(h2), chunks2);
      && a.regs == b.regs && a.bits == b.bits
      && a.buffer[..a.Pending()] == b.buffer[..b.Pending()]
      && Digested(a).digest == Digested(b).digest == Digest(Flatten(chunks1))
  {
    hide Fed, Fold, Digest, Updated;
    var a, b, m := Fed(Reset(h1), chunks1), Fed(Reset(h2), chunks2), Flatten(chunks1);
    ChunksHold(h1, chunks1);
    ChunksHold(h2, chunks2);
    PendingOfHeld(a, m);
    PendingOfHeld(b, m);
    DigestIsRfc1321(a, m);
    DigestIsRfc1321(b, m);
  }

  /** What padding leaves in the buffer when it needed a second block. */
  function Leftover(n: nat): (out: seq<Byte>)
    ensures |out| == 64
  {
    Zeros(56) + LengthBytes(n)
  }

  /** The message a hasher that held `m` holds after a digest: from 56 pending bytes on, they are overwritten. */
  function Resumed(m: seq<Byte>): seq<Byte> {
    if |m| % 64 < 56 then m else m[..Whole(|m|)] + Leftover(|m|)[..|m| % 64]
  }

  lemma WholeBelowTwo(n: nat)
    requires n < 128
    ensures Whole(n) == if n < 64 then 0 else 64
  {
  }

  lemma PendingAfter(h: Hasher, more: nat)
    requires h.WellFormed()
    ensures ((h.bits + 8 * more) % COUNT_SPAN / 8) % 64 == (h.Pending() + more) % 64
  {
    var k := (h.bits + 8 * more) / COUNT_SPAN;
    assert (h.bits + 8 * more) % COUNT_SPAN / 8 == h.bits / 8 + more - 64 * (k * 0x80_0000_0000_0000);
  }

  /** Where `update` leaves the buffer, and how much of it is pending, when at most one block completes. */
  lemma UpdatedBuffer(h: Hasher, input: seq<Byte>)
    requires h.WellFormed() && h.Pending() + |input| < 128
    ensures
      var k, r := h.Pending(), Updated(h, input);
      var n := k + |input|;
      && r.Pending() == n % 64
      && (n < 64 ==> r.buffer == h.buffer[..k] + input + h.buffer[n..])
      && (n >= 64 ==> r.buffer == input[64 - k..] + (h.buffer[..k] + input)[n - 64..64])
  {
    hide Fold, Whole;
    PendingAfter(h, |input|);
    WholeBelowTwo(h.Pending() + |input|);
  }

  lemma PaddingZeros(k: nat)
    requires 56 <= k < 64
    ensures |PADDING| == 64 && PADDING[..120 - k][64 - k..] == Zeros(56)
  {
  }

  lemma ShortPadBuffer(h: Hasher, n: nat)
    requires h.WellFormed() && h.Pending() == n % 64 < 56
    ensures Padded(h).buffer[..n % 64] == h.buffer[..n % 64]
  {
    hide Updated, Hasher.Pending, CountBytes;
    var k := n % 64;
    var pad := PADDING[..56 - k];
    var once := Updated(h, pad);
    UpdatedBuffer(h, pad);
    UpdatedBuffer(once, CountBytes(h.bits));
  }

  lemma LongPadBuffer(h: Hasher, n: nat)
    requires h.WellFormed() && h.Pending() == n % 64 >= 56 && h.bits == (8 * n) % COUNT_SPAN
    ensures Padded(h).buffer == Leftover(n)
  {
    hide Updated, Hasher.Pending, CountBytes, LengthBytes, PADDING;
    var k, tail := n % 64, CountBytes(h.bits);
    PaddingZeros(k);
    var pad := PADDING[..120 - k];
    var once := Updated(h, pad);
    UpdatedBuffer(h, pad);
    assert once.buffer[..56] == Zeros(56);
    UpdatedBuffer(once, tail);
    assert Updated(once, tail).buffer == Zeros(56) + tail;
    PaddingTail(n);
  }

  /** After a digest the hasher holds `Resumed(m)`: that is what every later update continues. */
  lemma DigestResumes(h: Hasher, m: seq<Byte>)
    requires Holds(h, m)
    ensures Holds(Digested(h), Resumed(m))
  {
    hide Fold, Padded, LengthBytes;
    var k, w := |m| % 64, Whole(|m|);
    PaddedIgnoresFlag(h);
    PendingOfHeld(h, m);
    assert m == m[..w] + m[w..];
    if k < 56 {
      ShortPadBuffer(h, |m|);
    } else {
      LongPadBuffer(h, |m|);
      assert Resumed(m)[..w] == m[..w];
      assert Resumed(m)[w..] == Leftover(|m|)[..k];
    }
  }

  /** A digest can be followed by more input exactly when fewer than 56 bytes wait, or they survive by luck. */
  lemma DigestKeepsMessageIff(h: Hasher, m: seq<Byte>)
    requires Holds(h, m)
    ensures
      Holds(Digested(h), m)
      <==> |m| % 64 < 56 || h.buffer[..h.Pending()] == Leftover(|m|)[..h.Pending()]
  {
    hide Fold, Digested, Leftover;
    DigestResumes(h, m);
    PendingOfHeld(h, m);
    assert m == m[..Whole(|m|)] + m[Whole(|m|)..];
    assert |m| % 64 >= 56 ==> Resumed(m)[Whole(|m|)..] == Leftover(|m|)[..|m| % 64];
  }

  /** A second digest, and any digest after more input, in terms of RFC 1321. */
  lemma DigestAfterDigest(h: Hasher, m: seq<Byte>, more: seq<Byte>)
    requires Holds(h, m)
    ensures Digested(Updated(Digested(h), more)).digest == Digest(Resumed(m) + more)
    ensures Digested(Digested(h)).digest == Digest(Resumed(m))
    ensures |m| % 64 < 56 ==>
      Digested(Updated(Digested(h), more)).digest == Digested(Updated(h, more)).digest
  {
    hide Fold, Digested, Updated, Digest, Holds, Leftover;
    PendingOfHeld(h, m);
    DigestResumes(h, m);
    DigestIsRfc1321(Digested(h), Resumed(m));
    UpdateHolds(Digested(h), Resumed(m), more);
    DigestIsRfc1321(Updated(Digested(h), more), Resumed(m) + more);
    UpdateHolds(h, m, more);
    DigestIsRfc1321(Updated(h, more), m + more);
  }

  /** The bound is sharp: 56 bytes of 1 are lost to the first digest. */
  lemma DigestLosesPending(h: Hasher)
    requires h.WellFormed()
    ensures
      var m := seq(56, i => 1);
      !Holds(Digested(Updated(Reset(h), m)), m)
  {
    hide Fold, Digested, Updated;
    var m := seq(56, i => 1);
    ResetHolds(h);
    UpdateHolds(Reset(h), [], m);
    assert [] + m == m;
    var full := Updated(Reset(h), m);
    DigestKeepsMessageIff(full, m);
    PendingOfHeld(full, m);
    assert full.buffer[..56][0] == 1 && Leftover(56)[..56][0] == 0;
  }

  /** The index of the block loop after `k` rounds, as the 32-bit variable holds it. */
  function LoopIndexAt(pending: nat, k: nat): Word
    requires pending < 64
  {
    Wrap(64 - pending + 64 * k)
  }

  lemma LastIsBoundary(pending: nat, length: nat) returns (k: nat)
    requires pending < 64 <= pending + length && IndexFits(pending, length)
    ensures var last := LastIndex(pending, length);
            last == 64 - pending + 64 * k && last <= length <= last + 63 < WORD_SPAN
  {
    k := (pending + length) / 64 - 1;
  }

  lemma GuardFails(pending: nat, length: nat) returns (k: nat)
    requires pending < 64 <= pending + length && IndexFits(pending, length)
    ensures Wrap(LoopIndexAt(pending, k) + 63) >= length
  {
    hide LastIndex, IndexFits;
    k := LastIsBoundary(pending, length);
  }

  lemma LoopIndexAligned(pending: nat, k: nat)
    requires pending < 64
    ensures (pending + LoopIndexAt(pending, k)) % 64 == 0
  {
    var q := (64 - pending + 64 * k) / WORD_SPAN;
    assert pending + LoopIndexAt(pending, k) == 64 * (1 + k - q * 0x400_0000);
  }

  lemma GuardNeverFails(pending: nat, length: nat, k: nat)
    requires pending < 64 <= pending + length && !IndexFits(pending, length)
    ensures Wrap(LoopIndexAt(pending, k) + 63) < length
  {
    var i, last := LoopIndexAt(pending, k), LastIndex(pending, length);
    LoopIndexAligned(pending, k);
    assert (pending + last) % 64 == 0;
    if i + 63 < WORD_SPAN {
      assert i < last;
    }
  }

  /** The block loop of `update` ends exactly when its index fits 32 bits; otherwise its guard never fails. */
  lemma BlockLoopEndsIff(pending: nat, length: nat)
    requires pending < 64 <= pending + length
    ensures
      (exists k: nat :: Wrap(LoopIndexAt(pending, k) + 63) >= length)
      <==> IndexFits(pending, length)
  {
    hide Wrap, LoopIndexAt, LastIndex, IndexFits;
    if IndexFits(pending, length) {
      var k := GuardFails(pending, length);
    } else {
      forall k: nat
        ensures Wrap(LoopIndexAt(pending, k) + 63) < length
      {
        GuardNeverFails(pending, length, k);
      }
    }
  }

  /** One byte pending and 2^32 - 1 bytes of input: the guard holds in every round. */
  lemma BlockLoopRunsOn(k: nat)
    ensures !IndexFits(1, 0xffff_ffff)
    ensures Wrap(LoopIndexAt(1, k) + 63) < 0xffff_ffff
  {
    hide Wrap, LoopIndexAt;
    GuardNeverFails(1, 0xffff_ffff, k);
  }

  lemma {:induction false} HexIsLowerCase(bytes: seq<Byte>)
    ensures |Hex(bytes)| == 2 * |bytes|
    ensures forall k :: 0 <= k < |Hex(bytes)| ==> Hex(bytes)[k] in "0123456789abcdef"
  {
    if bytes == [] {
    } else {
      HexIsLowerCase(bytes[..|bytes| - 1]);
    }
  }

  const HEX_DIGITS := "0123456789abcdef"

  lemma DigitSpells(n: nat)
    requires n < 16
    ensures HexDigit(n) == HEX_DIGITS[n]
  {
  }

  lemma {:induction false} HexLength(bytes: seq<Byte>)
    ensures |Hex(bytes)| == 2 * |bytes|
  {
    if bytes == [] {
    } else {
      HexLength(bytes[..|bytes| - 1]);
    }
  }

  /** Two digits a byte, the high one first, each the character at its value in the row of digits. */
  lemma {:induction false} HexSpells(bytes: seq<Byte>, k: nat)
    requires k < |bytes|
    ensures |Hex(bytes)| == 2 * |bytes|
    ensures Hex(bytes)[2 * k] == HEX_DIGITS[bytes[k] / 16] && Hex(bytes)[2 * k + 1] == HEX_DIGITS[bytes[k] % 16]
  {
    hide HexDigit;
    var n := |bytes| - 1;
    HexLength(bytes[..n]);
    if k == n {
      DigitSpells(bytes[n] / 16);
      DigitSpells(bytes[n] % 16);
    } else {
      HexSpells(bytes[..n], k);
    }
  }

  lemma HexDigitsDiffer(a: nat, b: nat)
    requires a < 16 && b < 16 && HexDigit(a) == HexDigit(b)
    ensures a == b
  {
  }

  lemma HexOfLast(bytes: seq<Byte>, x: Byte)
    ensures Hex(bytes + [x]) == Hex(bytes) + [HexDigit(x / 16), HexDigit(x % 16)]
  {
    assert (bytes + [x])[..|bytes|] == bytes;
  }

  lemma SameEnds(s: string, t: string, a: char, b: char, x: char, y: char)
    requires s + [a, b] == t + [x, y]
    ensures s == t && a == x && b == y
  {
    var u := s + [a, b];
    assert |u| == |s| + 2 == |t| + 2;
    assert s == u[..|s|] && t == u[..|t|];
    assert u[|s|] == a && u[|s| + 1] == b && u[|t|] == x && u[|t| + 1] == y;
  }

  lemma HexPairsDiffer(x: Byte, y: Byte)
    requires HexDigit(x / 16) == HexDigit(y / 16) && HexDigit(x % 16) == HexDigit(y % 16)
    ensures x == y
  {
    hide HexDigit;
    HexDigitsDiffer(x / 16, y / 16);
    HexDigitsDiffer(x % 16, y % 16);
  }

  lemma {:induction false} HexIsInjective(a: seq<Byte>, b: seq<Byte>)
    requires Hex(a) == Hex(b)
    ensures a == b
    decreases |a|
  {
    hide Hex, HexDigit;
    HexLength(a);
    HexLength(b);
    if a == [] {
    } else {
      var n := |a| - 1;
      var x, y := a[n], b[n];
      assert a == a[..n] + [x] && b == b[..n] + [y];
      HexOfLast(a[..n], x);
      HexOfLast(b[..n], y);
      SameEnds(Hex(a[..n]), Hex(b[..n]), HexDigit(x / 16), HexDigit(x % 16), HexDigit(y / 16), HexDigit(y % 16));
      HexPairsDiffer(x, y);
      HexIsInjective(a[..n], b[..n]);
    }
  }

  const BUFFER_SIZE := 1024

  /** Whatever is pending, every length up to 2^32 - 64 is safe. */
  lemma LengthFits(pending: nat, length: nat)
    requires pending < 64 && length <= WORD_SPAN - 64
    ensures IndexFits(pending, length)
  {
  }

  /** Feeds a file read in pieces of at most `BUFFER_SIZE` bytes; the last read is the short one. */
  method UpdateFromFile(md5: MD5, content: seq<Byte>, ghost m: seq<Byte>)
    requires md5.Valid() && Holds(md5.View(), m)
    modifies md5, md5.state, md5.count, md5.buffer
    ensures Holds(md5.View(), m + content)
  {
    hide Holds, Updated, Fold;
    var at, eof := 0, false;
    assert content[..0] == [] && m + [] == m;
    while !eof
      invariant at <= |content| && (eof ==> at == |content|)
      invariant Holds(md5.View(), m + content[..at])
      decreases |content| - at, !eof
    {
      var length := if |content| - at < BUFFER_SIZE then |content| - at else BUFFER_SIZE;
      eof := length < BUFFER_SIZE;
      if length > 0 {
        var piece := content[at..at + length];
        LengthFits(md5.View().Pending(), length);
        UpdateHolds(md5.View(), m + content[..at], piece);
        assert m + content[..at] + piece == m + content[..at + length];
        md5.Update(piece);
      }
      at := at + length;
    }
    assert content[..at] == content;
  }

  lemma QueryFits(length: nat)
    requires length <= WORD_SPAN - 64
    ensures Reset(Hasher(INIT, 0, [], [], false)).Pending() == 0
    ensures IndexFits(0, length)
  {
  }

  /** One hasher used again and again, as the seed-file writer does for each query. */
  method HexDigestOf(md5: MD5, query: seq<Byte>) returns (str: string)
    requires md5.Valid() && |query| <= WORD_SPAN - 64
    modifies md5, md5.state, md5.count, md5.buffer, md5.digest
    ensures str == Hex(Digest(query))
  {
    hide Holds, Updated, Fold, Digested, Digest;
    ghost var before := md5.View();
    md5.ResetState();
    ResetHolds(before);
    QueryFits(|query|);
    UpdateHolds(md5.View(), [], query);
    assert [] + query == query;
    md5.Update(query);
    DigestIsRfc1321(md5.View(), query);
    str := md5.ToString();
  }
}
