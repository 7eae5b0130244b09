/**
 The streaming hasher `MD5`: the class with its fields, and the value semantics of every method.

 `Hasher` is the whole object as a value. Each method of the class is proved to take `View()` to exactly the
 hasher its function names; what those functions promise is proved in `Md5Streaming`.
 */
module Md5 {
  import opened Machine
  import opened Rfc1321
  import Md5Rounds

  const COUNT_SPAN := WORD_SPAN * WORD_SPAN
  const PADDING: seq<Byte> := [0x80] + Zeros(63)

  /** `bits` is the pair of count words read as one 64-bit number. */
  datatype Hasher = Hasher(regs: Regs, bits: nat, buffer: seq<Byte>, digest: seq<Byte>, finished: bool) {

    predicate WellFormed() {
      bits < COUNT_SPAN && |buffer| == 64 && |digest| == 16
    }

    /** How many bytes of the buffer wait for their block to fill. */
    function Pending(): (n: nat)
      ensures n < 64
    {
      (bits / 8) % 64
    }
  }

  /** Length of the longest prefix of `n` bytes that is whole blocks. */
  function Whole(n: nat): (k: nat)
    ensures k <= n < k + 64 && k % 64 == 0
    ensures k == 0 <==> n < 64
  {
    n - n % 64
  }

  function Reset(h: Hasher): Hasher {
    h.(regs := INIT, bits := 0, finished := false)
  }

  /**
   The hasher after `input`: the pending bytes and the input together are cut into blocks; the rest is
   pending. Buffer cells behind the pending bytes keep what the first completed block left there.
   */
  function Updated(h: Hasher, input: seq<Byte>): (r: Hasher)
    requires h.WellFormed()
    ensures r.WellFormed()
  {
    var all := h.buffer[..h.Pending()] + input;
    var full := Whole(|all|);
    var stale := if |all| < 64 then h.buffer else all[..64];
    h.(regs := Fold(h.regs, all[..full]), bits := (h.bits + 8 * |input|) % COUNT_SPAN,
       buffer := all[full..] + stale[|all| - full..], finished := false)
  }

  function WordsBytes(words: seq<Word>): (out: seq<Byte>)
    ensures |out| == 4 * |words|
  {
    if words == [] then [] else WordsBytes(words[..|words| - 1]) + WordBytes(words[|words| - 1])
  }

  /** The low count word, then the high one. */
  function CountBytes(bits: nat): (out: seq<Byte>)
    requires bits < COUNT_SPAN
    ensures |out| == 8
  {
    WordsBytes([bits % WORD_SPAN, bits / WORD_SPAN])
  }

  function FinalPadLength(pending: nat): nat
    requires pending < 64
  {
    if pending < 56 then 56 - pending else 120 - pending
  }

  /** The hasher once padding and length have been fed to it, before the saved words are put back. */
  function Padded(h: Hasher): (r: Hasher)
    requires h.WellFormed()
    ensures r.WellFormed()
  {
    Updated(Updated(h, PADDING[..FinalPadLength(h.Pending())]), CountBytes(h.bits))
  }

  /** `final` keeps the padded digest, and puts back registers and count but not the buffer. */
  function Finalized(h: Hasher): (r: Hasher)
    requires h.WellFormed()
    ensures r.WellFormed()
  {
    var p := Padded(h);
    p.(regs := h.regs, bits := h.bits, digest := RegsBytes(p.regs))
  }

  function Digested(h: Hasher): (r: Hasher)
    requires h.WellFormed()
    ensures r.WellFormed()
  {
    if h.finished then h else Finalized(h.(finished := true))
  }

  /** The last value the block loop of `update` reaches for its 32-bit index. */
  function LastIndex(pending: nat, length: nat): nat
    requires pending < 64 <= pending + length
  {
    length - (pending + length) % 64
  }

  lemma FittingIndex(pending: nat, i: nat)
    requires (pending + i) % 64 == 0
    ensures (pending + (i + 64)) % 64 == 0
  {
  }

  /** What the guard and the step of the block loop come to while no sum wraps. */
  ghost predicate LoopIndexFacts(pending: nat, length: nat, i: Word)
    requires pending < 64 <= pending + length
  {
    && Wrap(i + 63) == i + 63
    && (i + 63 < length ==> Wrap(i + 64) == i + 64 <= LastIndex(pending, length))
    && (i + 63 >= length ==> Whole(pending + length) == pending + i)
  }

  /** No sum `i + 63` formed by the block loop of `update` exceeds 32 bits. */
  predicate IndexFits(pending: nat, length: nat)
    requires pending < 64
  {
    pending + length < 64 || LastIndex(pending, length) + 63 < WORD_SPAN
  }

  lemma LoopIndex(pending: nat, length: nat, i: Word)
    requires pending < 64 <= pending + length && IndexFits(pending, length)
    requires 64 - pending <= i <= LastIndex(pending, length) && (pending + i) % 64 == 0
    ensures LoopIndexFacts(pending, length, i)
  {
    var rest := (pending + length) % 64;
    assert (pending + LastIndex(pending, length)) % 64 == 0;
  }

  lemma FittingLength(pending: nat, length: nat)
    requires pending < 64 && IndexFits(pending, length)
    ensures length < WORD_SPAN
    ensures pending + length >= 64 ==> 64 - pending <= LastIndex(pending, length)
  {
  }

  lemma ShortFits(pending: nat, length: nat)
    requires pending < 64 && length <= 128
    ensures IndexFits(pending, length)
  {
  }

  function HexDigit(n: nat): char
    requires n < 16
  {
    "0123456789abcdef"[n]
  }

  function Hex(bytes: seq<Byte>): string {
    if bytes == [] then ""
    else Hex(bytes[..|bytes| - 1]) + [HexDigit(bytes[|bytes| - 1] / 16), HexDigit(bytes[|bytes| - 1] % 16)]
  }

  lemma WrapTwice(a: int, b: int)
    ensures Wrap(Wrap(a) + b) == Wrap(a + b)
  {
  }

  lemma SplitBits(length: nat)
    ensures 8 * length == length / 0x2000_0000 * WORD_SPAN + Wrap(8 * length)
  {
  }

  lemma Remainder(v: int, r: int, k: int)
    requires 0 <= r < COUNT_SPAN && v == r + k * COUNT_SPAN
    ensures v % COUNT_SPAN == r
  {
  }

  /** The wrapped sum is below a summand exactly when it wrapped. */
  lemma CarryOut(low: Word, b: Word, newLow: Word) returns (c: nat)
    requires newLow == Wrap(low as int + b)
    ensures c == if newLow < b then 1 else 0
    ensures low + b == newLow + c * WORD_SPAN
  {
    c := if newLow < b then 1 else 0;
  }

  lemma WrapOnce(w: Word)
    ensures Wrap(w) == w
  {
  }

  lemma WrappedBy(n: nat) returns (k: nat)
    ensures n == Wrap(n) + k * WORD_SPAN
  {
    k := n / WORD_SPAN;
  }

  /** The carry out of the low count word and the three bits shifted out make a 64-bit addition. */
  lemma CarriedCount(low: Word, high: Word, length: nat, newLow: Word, newHigh: Word)
    requires newLow == Wrap(low + Wrap(8 * length))
    requires
      var carried := if newLow < Wrap(8 * length) then Wrap(high + 1) else high;
      newHigh == Wrap(carried + length / 0x2000_0000)
    ensures newLow + newHigh * WORD_SPAN == (low + high * WORD_SPAN + 8 * length) % COUNT_SPAN
  {
    hide Wrap;
    var q, b := length / 0x2000_0000, Wrap(8 * length);
    var c := CarryOut(low, b, newLow);
    SplitBits(length);
    WrapTwice(high + c, q);
    WrapOnce(high);
    var k := WrappedBy(high + c + q);
    Remainder(low + high * WORD_SPAN + 8 * length, newLow + newHigh * WORD_SPAN, k);
  }

  lemma NoSteps(r: Regs, x: seq<Word>)
    requires |x| == 16
    ensures Steps(0, r, x) == r
  {
  }

  lemma FoldNone(r: Regs, data: seq<Byte>)
    ensures Fold(r, data[..0]) == r
  {
  }

  lemma FoldNext(r: Regs, data: seq<Byte>, done: nat)
    requires done % 64 == 0 && done + 64 <= |data|
    ensures Fold(r, data[..done + 64]) == Compress(Fold(r, data[..done]), data[done..done + 64])
  {
    hide Compress;
    assert data[..done + 64][..done] == data[..done];
    assert data[..done + 64][done..] == data[done..done + 64];
  }

  lemma PendingOfLow(low: Word, high: Word)
    ensures ((low + high * WORD_SPAN) / 8) % 64 == (low / 8) % 64
  {
    assert (low + high * WORD_SPAN) / 8 == low / 8 + 64 * (high * 0x80_0000);
  }

  lemma PendingOfBits(h: Hasher, g: Hasher)
    requires h.bits == g.bits
    ensures h.Pending() == g.Pending()
  {
  }

  lemma CountWords(low: Word, high: Word)
    ensures (low + high * WORD_SPAN) % WORD_SPAN == low
    ensures (low + high * WORD_SPAN) / WORD_SPAN == high
  {
  }

  lemma UpdatedIs(h: Hasher, input: seq<Byte>, r: Hasher, index: nat, i: nat, stale: seq<Byte>)
    requires h.WellFormed() && i <= |input| && index + |input| - i <= 64 == |stale|
    requires r.bits == (h.bits + 8 * |input|) % COUNT_SPAN
    requires r.digest == h.digest && !r.finished
    requires r.buffer == stale[..index] + input[i..] + stale[index + |input| - i..]
    requires
      var all := h.buffer[..h.Pending()] + input;
      if |all| < 64 then
        r.regs == h.regs && index == h.Pending() && i == 0 && stale == h.buffer
      else
        && r.regs == Fold(h.regs, all[..Whole(|all|)])
        && index == 0 && h.Pending() + i == Whole(|all|) && stale == all[..64]
    ensures r == Updated(h, input)
  {
    hide Fold, Hasher.Pending, Whole;
    var all := h.buffer[..h.Pending()] + input;
    var full := Whole(|all|);
    FoldNone(h.regs, all);
    assert stale[..index] + input[i..] == all[full..];
  }

  lemma NoWords()
    ensures WordsBytes([]) == []
  {
  }

  lemma EncodedWord(words: seq<Word>, w: Word)
    ensures WordsBytes(words + [w]) == WordsBytes(words) + WordBytes(w)
  {
    assert (words + [w])[..|words|] == words;
  }

  lemma EncodedPair(a: Word, b: Word)
    ensures WordsBytes([a, b]) == WordBytes(a) + WordBytes(b)
  {
    EncodedWord([], a);
    EncodedWord([a], b);
    assert [] + [a] == [a] && [a] + [b] == [a, b];
  }

  lemma EncodedRegs(r: Regs)
    ensures WordsBytes([r.a, r.b, r.c, r.d]) == RegsBytes(r)
  {
    hide WordBytes;
    EncodedPair(r.a, r.b);
    EncodedWord([r.a, r.b], r.c);
    EncodedWord([r.a, r.b, r.c], r.d);
    assert [r.a, r.b] + [r.c] == [r.a, r.b, r.c] && [r.a, r.b, r.c] + [r.d] == [r.a, r.b, r.c, r.d];
  }

  class MD5 {
    const state: array<Word>
    const count: array<Word>
    const buffer: array<Byte>
    const digest: array<Byte>
    var finished: bool

    ghost predicate Valid() {
      state.Length == 4 && count.Length == 2 && buffer.Length == 64 && digest.Length == 16
    }

    ghost function Registers(): Regs
      requires Valid()
      reads state
    {
      Regs(state[0], state[1], state[2], state[3])
    }

    ghost function View(): (h: Hasher)
      requires Valid()
      reads this, state, count, buffer, digest
      ensures h.WellFormed()
    {
      Hasher(Registers(), count[0] + count[1] * WORD_SPAN, buffer[..], digest[..], finished)
    }

    constructor ()
      ensures Valid() && fresh(state) && fresh(count) && fresh(buffer) && fresh(digest)
      ensures View() == Reset(View())
    {
      state := new Word[4];
      count := new Word[2];
      buffer := new Byte[64];
      digest := new Byte[16];
      new;
      ResetState();
    }

    method ResetState()
      requires Valid()
      modifies this, state, count
      ensures View() == Reset(old(View()))
    {
      finished := false;
      count[0], count[1] := 0, 0;
      state[0] := 0x67452301;
      state[1] := 0xefcdab89;
      state[2] := 0x98badcfe;
      state[3] := 0x10325476;
    }

    /** The number of pending bytes, from the low count word alone. */
    method PendingIndex() returns (index: nat)
      requires Valid()
      ensures index == View().Pending()
    {
      index := (count[0] / 8) % 64;
      PendingOfLow(count[0], count[1]);
    }

    method Update(input: seq<Byte>)
      requires Valid()
      requires IndexFits(View().Pending(), |input|)
      modifies this, state, count, buffer
      ensures View() == Updated(old(View()), input)
    {
      hide Fold, Compress, Updated, Wrap, Whole, LastIndex, Hasher.Pending, IndexFits;
      ghost var was := View();
      ghost var all := was.buffer[..was.Pending()] + input;
      var length := |input|;
      finished := false;
      var index := PendingIndex();
      PendingOfBits(was, View());
      FittingLength(index, length);
      CountBits(length);
      var i: Word := 0;
      if length >= 64 - index {
        i := Absorb(input, index, all);
        index := 0;
      }
      ghost var stale := buffer[..];
      Keep(index, input[i..]);
      UpdatedIs(was, input, View(), index, i, stale);
    }

    /** Copies what is left of the input behind the pending bytes. */
    method Keep(index: nat, rest: seq<Byte>)
      requires Valid() && index + |rest| <= 64
      modifies buffer
      ensures buffer[..] == old(buffer[..index]) + rest + old(buffer[index + |rest|..])
    {
      forall k | 0 <= k < |rest| {
        buffer[index + k] := rest[k];
      }
    }

    /** Fills the buffer up to its first block and transforms every whole block there is. */
    method Absorb(input: seq<Byte>, index: nat, ghost all: seq<Byte>) returns (i: Word)
      requires Valid() && index < 64 <= index + |input| && IndexFits(index, |input|)
      requires all == buffer[..index] + input
      modifies state, buffer
      ensures i <= |input| && index + i == Whole(|all|)
      ensures Registers() == Fold(old(Registers()), all[..Whole(|all|)])
      ensures buffer[..] == all[..64]
    {
      hide Fold, Compress, Wrap, Whole, LastIndex;
      ghost var regs := Registers();
      var length := |input|;
      var partLen := 64 - index;
      forall k | 0 <= k < partLen {
        buffer[index + k] := input[k];
      }
      assert buffer[..] == all[..64];
      Transform(buffer[..]);
      FoldNone(regs, all);
      FoldNext(regs, all, 0);
      i := partLen;
      FittingLength(index, length);
      LoopIndex(index, length, i);
      while Wrap(i + 63) < length
        invariant partLen <= i <= LastIndex(index, length) && (index + i) % 64 == 0
        invariant LoopIndexFacts(index, length, i)
        invariant Registers() == Fold(regs, all[..index + i])
        invariant buffer[..] == all[..64]
      {
        assert all[index + i..index + i + 64] == input[i..i + 64];
        Transform(input[i..i + 64]);
        FoldNext(regs, all, index + i);
        FittingIndex(index, i);
        i := Wrap(i + 64);
        LoopIndex(index, length, i);
      }
    }

    /** The bit count of `update`: the low word, its carry, and the bits the shift pushed out. */
    method CountBits(length: nat)
      requires Valid() && length < WORD_SPAN
      modifies count
      ensures View().bits == (old(View()).bits + 8 * length) % COUNT_SPAN
    {
      hide Wrap, Hasher.Pending;
      ghost var low, high := count[0], count[1];
      count[0] := Wrap(count[0] + Wrap(8 * length));
      if count[0] < Wrap(8 * length) {
        count[1] := Wrap(count[1] as int + 1);
      }
      count[1] := Wrap(count[1] + length / 0x2000_0000);
      CarriedCount(low, high, length, count[0], count[1]);
    }

    method Transform(block: seq<Byte>)
      requires Valid() && |block| == 64
      modifies state
      ensures Registers() == Compress(old(Registers()), block)
    {
      hide Steps, WordAt;
      var x := new Word[16];
      Decode(block, x, 64);
      assert x[..] == Words(block);
      ghost var r := Registers();
      NoSteps(r, x[..]);
      var a, b, c, d := state[0], state[1], state[2], state[3];
      a, b, c, d := Md5Rounds.Round1(r, x[..], a, b, c, d);
      a, b, c, d := Md5Rounds.Round2(r, x[..], a, b, c, d);
      a, b, c, d := Md5Rounds.Round3(r, x[..], a, b, c, d);
      a, b, c, d := Md5Rounds.Round4(r, x[..], a, b, c, d);
      state[0] := Wrap(state[0] as int + a);
      state[1] := Wrap(state[1] as int + b);
      state[2] := Wrap(state[2] as int + c);
      state[3] := Wrap(state[3] as int + d);
    }

    /** Little-endian words to bytes. */
    method Encode(input: array<Word>, output: array<Byte>, length: nat)
      requires length % 4 == 0 && length <= 4 * input.Length && length <= output.Length
      modifies output
      ensures output[..length] == WordsBytes(input[..length / 4])
      ensures output[length..] == old(output[length..])
    {
      hide WordsBytes;
      var i, j := 0, 0;
      NoWords();
      while j < length
        invariant j == 4 * i && j <= length
        invariant output[..j] == WordsBytes(input[..i])
        invariant output[length..] == old(output[length..])
      {
        output[j] := input[i] % 0x100;
        output[j + 1] := (input[i] / 0x100) % 0x100;
        output[j + 2] := (input[i] / 0x1_0000) % 0x100;
        output[j + 3] := (input[i] / 0x100_0000) % 0x100;
        assert output[..j + 4] == output[..j] + WordBytes(input[i]);
        EncodedWord(input[..i], input[i]);
        assert input[..i + 1] == input[..i] + [input[i]];
        i, j := i + 1, j + 4;
      }
    }

    /** Bytes to little-endian words. */
    method Decode(input: seq<Byte>, output: array<Word>, length: nat)
      requires length % 4 == 0 && length <= |input| && length <= 4 * output.Length
      modifies output
      ensures forall k :: 0 <= k < length / 4 ==> output[k] == WordAt(input, 4 * k)
    {
      var i, j := 0, 0;
      while j < length
        invariant j == 4 * i && j <= length
        invariant forall k :: 0 <= k < i ==> output[k] == WordAt(input, 4 * k)
      {
        output[i] := WordAt(input, j);
        i, j := i + 1, j + 4;
      }
    }

    method Final()
      requires Valid()
      modifies this, state, count, buffer, digest
      ensures View() == Finalized(old(View()))
    {
      hide Updated, WordsBytes, WordBytes, IndexFits, Zeros, Hasher.Pending;
      ghost var was := View();
      var oldState, oldCount := state[..], count[..];
      var bits := CountOut();
      var index := PendingIndex();
      var padLen := if index < 56 then 56 - index else 120 - index;
      ShortFits(index, padLen);
      Update(PADDING[..padLen]);
      ShortFits(View().Pending(), 8);
      Update(bits);
      ghost var padded := View();
      assert padded == Padded(was);
      Encode(state, digest, 16);
      assert digest[..] == RegsBytes(padded.regs) by {
        EncodedRegs(padded.regs);
        assert state[..16 / 4] == [padded.regs.a, padded.regs.b, padded.regs.c, padded.regs.d];
      }
      Restore(oldState, oldCount);
    }

    /** The count words as they were before padding, for the end of the last block. */
    method CountOut() returns (bits: seq<Byte>)
      requires Valid()
      ensures bits == CountBytes(View().bits)
    {
      var out := new Byte[8];
      Encode(count, out, 8);
      CountWords(count[0], count[1]);
      assert count[..8 / 4] == [count[0], count[1]];
      bits := out[..];
    }

    /** Puts saved registers and count words back. */
    method Restore(oldState: seq<Word>, oldCount: seq<Word>)
      requires Valid() && |oldState| == 4 && |oldCount| == 2
      modifies state, count
      ensures state[..] == oldState && count[..] == oldCount
    {
      forall k | 0 <= k < 4 {
        state[k] := oldState[k];
      }
      forall k | 0 <= k < 2 {
        count[k] := oldCount[k];
      }
    }

    method Digest() returns (out: seq<Byte>)
      requires Valid()
      modifies this, state, count, buffer, digest
      ensures View() == Digested(old(View())) && out == View().digest
    {
      hide Finalized;
      if !finished {
        finished := true;
        Final();
      }
      out := digest[..];
    }

    method BytesToHexString(input: seq<Byte>) returns (str: string)
      ensures str == Hex(input)
    {
      str := "";
      for i := 0 to |input|
        invariant str == Hex(input[..i])
      {
        var a, b := input[i] / 16, input[i] % 16;
        str := str + [HexDigit(a)];
        str := str + [HexDigit(b)];
        assert input[..i + 1][..i] == input[..i];
      }
      assert input[..|input|] == input;
    }

    method ToString() returns (str: string)
      requires Valid()
      modifies this, state, count, buffer, digest
      ensures View() == Digested(old(View())) && str == Hex(View().digest)
    {
      var bytes := Digest();
      str := BytesToHexString(bytes);
    }
  }
}
