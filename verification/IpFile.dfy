/**
 The format of the address database, as a writer of it would lay it out, and what a lookup in a written file gives:
 the text written for the range that holds the address.
 */
module IpFile {
  import opened Basics
  import opened Machine
  import opened IpIndex

  /** The last address of a range, and where its text stands among the texts. */
  datatype Range = Range(last: Octets, pos: nat, length: Byte)

  /** The low bytes of a number, lowest first. */
  function Little(n: nat, k: nat): (b: seq<Byte>)
    ensures |b| == k
  {
    if k == 0 then [] else [n % 0x100] + Little(n / 0x100, k - 1)
  }

  function Big(n: nat): Octets
    requires n < 0x1_0000_0000
  {
    [n / 0x100_0000, n / 0x1_0000 % 0x100, n / 0x100 % 0x100, n % 0x100]
  }

  predicate FitsIn(n: nat, k: nat) {
    if k == 0 then n == 0 else FitsIn(n / 0x100, k - 1)
  }

  /** Eight bytes: the address, three bytes for where the text is, one for how long it is. */
  function RangeBytes(r: Range): (b: seq<Byte>)
    ensures |b| == 8
  {
    r.last + (Little(1024 + r.pos, 3) + [r.length])
  }

  function StartCells(starts: seq<nat>): (cells: seq<seq<Byte>>)
    ensures |cells| == |starts|
  {
    seq(|starts|, k requires 0 <= k < |starts| => Little(starts[k], 4))
  }

  function RangeCells(ranges: seq<Range>): (cells: seq<seq<Byte>>)
    ensures |cells| == |ranges|
  {
    seq(|ranges|, k requires 0 <= k < |ranges| => RangeBytes(ranges[k]))
  }

  /** Behind the header: a start for each first octet, the ranges, and 1024 bytes a lookup does not read. */
  function IndexBytes(starts: seq<nat>, ranges: seq<Range>, gap: seq<Byte>): seq<Byte> {
    Flatten(StartCells(starts)) + Flatten(RangeCells(ranges)) + gap
  }

  function HeaderValue(ranges: seq<Range>): nat {
    4 + 4 * 256 + 8 * |ranges| + 1024
  }

  function File(starts: seq<nat>, ranges: seq<Range>, gap: seq<Byte>, texts: seq<Byte>): seq<Byte>
    requires HeaderValue(ranges) < 0x1_0000_0000
  {
    Big(HeaderValue(ranges)) + IndexBytes(starts, ranges, gap) + texts
  }

  /** Starts and ranges that fit their cells, and texts that are there. */
  predicate Writable(starts: seq<nat>, ranges: seq<Range>, gap: seq<Byte>, texts: seq<Byte>) {
    && |starts| == 256 && |gap| == 1024
    && HeaderValue(ranges) < 0x1_0000_0000
    && (forall k :: 0 <= k < |starts| ==> starts[k] < 0x1_0000_0000)
    && forall r <- ranges :: 1024 + r.pos < 0x100_0000 && r.pos + r.length <= |texts|
  }

  // ---- cells ----

  lemma {:induction false} FlatLength(cells: seq<seq<Byte>>, size: nat)
    requires forall k :: 0 <= k < |cells| ==> |cells[k]| == size
    ensures |Flatten(cells)| == |cells| * size
  {
    if cells == [] {
    } else {
      FlatLength(cells[..|cells| - 1], size);
      TimesNext(|cells| - 1, size);
    }
  }

  /** A cell stands behind all those in front of it. */
  lemma {:induction false} CellBehind(cells: seq<seq<Byte>>, i: nat)
    requires i < |cells|
    ensures
      var all, from := Flatten(cells), |Flatten(cells[..i])|;
      from + |cells[i]| <= |all| && all[from..from + |cells[i]|] == cells[i]
  {
    var n := |cells| - 1;
    if i == n {
    } else {
      CellBehind(cells[..n], i);
      assert cells[..n][..i] == cells[..i];
    }
  }

  lemma {:induction false} LittleReads(n: nat, k: nat)
    requires FitsIn(n, k)
    ensures LittleEndian(Little(n, k)) == n
  {
    if k == 0 {
    } else {
      LittleReads(n / 0x100, k - 1);
      assert Little(n, k)[1..] == Little(n / 0x100, k - 1);
    }
  }

  lemma FourBytesFit(n: nat)
    ensures n < 0x1_0000_0000 ==> FitsIn(n, 4)
    ensures n < 0x100_0000 ==> FitsIn(n, 3)
  {
    var a := n / 0x100;
    var b := a / 0x100;
    var c := b / 0x100;
    assert FitsIn(n, 4) == FitsIn(a, 3) == FitsIn(b, 2) == FitsIn(c, 1) == FitsIn(c / 0x100, 0);
    assert FitsIn(n, 3) == FitsIn(a, 2) == FitsIn(b, 1) == FitsIn(c, 0);
  }

  lemma BigReads(n: nat)
    requires n < 0x1_0000_0000
    ensures Number(Big(n)) == n
  {
    var a := n / 0x100;
    var b := a / 0x100;
    assert n / 0x1_0000 == b && n / 0x100_0000 == b / 0x100;
    assert n == 0x100 * a + n % 0x100 && a == 0x100 * b + a % 0x100 && b == 0x100 * (b / 0x100) + b % 0x100;
  }

  lemma StartCell(starts: seq<nat>, octet: nat)
    requires |starts| == 256 && octet < 256
    ensures
      var all := Flatten(StartCells(starts));
      |all| == 1024 && all[4 * octet..4 * octet + 4] == Little(starts[octet], 4)
  {
    hide Flatten, Little;
    var cells := StartCells(starts);
    FlatLength(cells, 4);
    FlatLength(cells[..octet], 4);
    CellBehind(cells, octet);
  }

  lemma RangeCell(ranges: seq<Range>, row: nat)
    requires row < |ranges|
    ensures
      var all := Flatten(RangeCells(ranges));
      |all| == 8 * |ranges| && all[8 * row..8 * row + 8] == RangeBytes(ranges[row])
  {
    hide Flatten, RangeBytes;
    var cells := RangeCells(ranges);
    FlatLength(cells, 8);
    FlatLength(cells[..row], 8);
    CellBehind(cells, row);
  }

  lemma RangeLength(ranges: seq<Range>)
    ensures |Flatten(RangeCells(ranges))| == 8 * |ranges|
  {
    hide Flatten, RangeBytes;
    FlatLength(RangeCells(ranges), 8);
  }

  lemma IndexLength(starts: seq<nat>, ranges: seq<Range>, gap: seq<Byte>)
    requires |starts| == 256 && |gap| == 1024
    ensures |IndexBytes(starts, ranges, gap)| == HeaderValue(ranges) - 4
  {
    hide Flatten;
    StartCell(starts, 0);
    RangeLength(ranges);
  }

  // ---- what a lookup reads ----

  lemma HeaderReads(starts: seq<nat>, ranges: seq<Range>, gap: seq<Byte>, texts: seq<Byte>)
    requires Writable(starts, ranges, gap, texts)
    ensures
      var f := File(starts, ranges, gap, texts);
      && IsDatabase(f) && Offset(f) == HeaderValue(ranges)
      && Index(f) == IndexBytes(starts, ranges, gap) && f[Offset(f)..] == texts
  {
    hide IndexBytes, Number, Big;
    var f, n := File(starts, ranges, gap, texts), HeaderValue(ranges);
    IndexLength(starts, ranges, gap);
    assert f[..4] == Big(n);
    BigReads(n);
    assert f[4..n] == IndexBytes(starts, ranges, gap);
  }

  /** As many rows as ranges are looked at. */
  lemma RowsAreRanges(starts: seq<nat>, ranges: seq<Range>, gap: seq<Byte>, texts: seq<Byte>, row: nat)
    requires Writable(starts, ranges, gap, texts)
    ensures IsDatabase(File(starts, ranges, gap, texts))
    ensures IsRow(File(starts, ranges, gap, texts), row) <==> row < |ranges|
  {
    hide File, IsDatabase, Index;
    HeaderReads(starts, ranges, gap, texts);
  }

  lemma StartReads(starts: seq<nat>, ranges: seq<Range>, gap: seq<Byte>, texts: seq<Byte>, octet: Byte)
    requires Writable(starts, ranges, gap, texts)
    ensures IsDatabase(File(starts, ranges, gap, texts))
    ensures StartOf(File(starts, ranges, gap, texts), octet) == starts[octet]
  {
    hide File, IsDatabase, Index, Flatten, Little, LittleEndian, FitsIn;
    HeaderReads(starts, ranges, gap, texts);
    IndexLength(starts, ranges, gap);
    StartCell(starts, octet as int);
    var index := IndexBytes(starts, ranges, gap);
    assert index[octet as int * 4..octet as int * 4 + 4] == Little(starts[octet], 4);
    FourBytesFit(starts[octet]);
    LittleReads(starts[octet], 4);
  }

  lemma RowBytes(starts: seq<nat>, ranges: seq<Range>, gap: seq<Byte>, row: nat)
    requires |starts| == 256 && row < |ranges|
    ensures
      var index, at := IndexBytes(starts, ranges, gap), 1024 + 8 * row;
      at + 8 <= |index| && index[at..at + 8] == RangeBytes(ranges[row])
  {
    hide Flatten, RangeBytes;
    StartCell(starts, 0);
    RangeCell(ranges, row);
    var a, b := Flatten(StartCells(starts)), Flatten(RangeCells(ranges));
    assert (a + b + gap)[1024 + 8 * row..1024 + 8 * row + 8] == b[8 * row..8 * row + 8];
  }

  lemma SliceOfSlice(s: seq<Byte>, a: nat, b: nat, from: nat, to: nat)
    requires a <= b <= |s| && from <= to <= b - a
    ensures s[a..b][from..to] == s[a + from..a + to]
  {
    var part := s[a..b];
    forall k | 0 <= k < to - from
      ensures part[from..to][k] == s[a + from..a + to][k]
    {
      assert part[from + k] == s[a + (from + k)];
    }
  }

  /** The parts of a row: its address, the three bytes of its place, and its length. */
  lemma RowParts(index: seq<Byte>, at: nat, r: Range)
    requires at + 8 <= |index| && index[at..at + 8] == RangeBytes(r)
    ensures index[at..at + 4] == r.last && index[at + 4..at + 7] == Little(1024 + r.pos, 3)
    ensures index[at + 7] == r.length
  {
    hide Little;
    var cell := index[at..at + 8];
    var rest := Little(1024 + r.pos, 3) + [r.length];
    assert cell == r.last + rest && rest[3] == r.length && cell[7] == rest[3];
    assert cell[..4] == r.last && cell[4..7] == Little(1024 + r.pos, 3) && cell[7] == r.length;
    SliceOfSlice(index, at, at + 8, 0, 4);
    SliceOfSlice(index, at, at + 8, 4, 7);
  }

  lemma AddressReads(starts: seq<nat>, ranges: seq<Range>, gap: seq<Byte>, texts: seq<Byte>, row: nat)
    requires Writable(starts, ranges, gap, texts) && row < |ranges|
    ensures IsDatabase(File(starts, ranges, gap, texts)) && IsRow(File(starts, ranges, gap, texts), row)
    ensures AddressOf(File(starts, ranges, gap, texts), row) == ranges[row].last
  {
    hide File, IsDatabase, Index, Flatten, RangeBytes, IndexBytes;
    HeaderReads(starts, ranges, gap, texts);
    RowsAreRanges(starts, ranges, gap, texts, row);
    RowBytes(starts, ranges, gap, row);
    RowParts(IndexBytes(starts, ranges, gap), 1024 + 8 * row, ranges[row]);
  }

  lemma TextAt(f: seq<Byte>, n: nat, from: nat, to: nat)
    requires n <= |f| && from <= to <= |f| - n
    ensures Slice(f, n + from, n + to) == f[n..][from..to]
  {
  }

  lemma TextReads(starts: seq<nat>, ranges: seq<Range>, gap: seq<Byte>, texts: seq<Byte>, row: nat)
    requires Writable(starts, ranges, gap, texts) && row < |ranges|
    ensures IsDatabase(File(starts, ranges, gap, texts)) && IsRow(File(starts, ranges, gap, texts), row)
    ensures
      var r := ranges[row];
      r in ranges && r.pos + r.length <= |texts|
      && RowText(File(starts, ranges, gap, texts), row) == Found(texts[r.pos..r.pos + r.length])
  {
    hide File, Index, Flatten, RangeBytes, IndexBytes, Little, LittleEndian, FitsIn, Number;
    var f, r := File(starts, ranges, gap, texts), ranges[row];
    HeaderReads(starts, ranges, gap, texts);
    RowsAreRanges(starts, ranges, gap, texts, row);
    RowBytes(starts, ranges, gap, row);
    RowParts(IndexBytes(starts, ranges, gap), 1024 + 8 * row, r);
    FourBytesFit(1024 + r.pos);
    LittleReads(1024 + r.pos, 3);
    var n := Offset(f);
    TextAt(f, n, r.pos, r.pos + r.length);
  }

  // ---- lookups ----

  /** The addresses go up, and a start stands behind rows of smaller octets only. */
  predicate WellOrdered(starts: seq<nat>, ranges: seq<Range>)
    requires |starts| == 256
  {
    && (forall r, q :: 0 <= r < q < |ranges| ==> Number(ranges[r].last) <= Number(ranges[q].last))
    && forall octet, r :: 0 <= octet < 256 && 0 <= r < |ranges| && r < starts[octet] ==> ranges[r].last[0] < octet
  }

  lemma WrittenIsWell(starts: seq<nat>, ranges: seq<Range>, gap: seq<Byte>, texts: seq<Byte>, octet: Byte)
    requires Writable(starts, ranges, gap, texts) && WellOrdered(starts, ranges)
    ensures
      var f := File(starts, ranges, gap, texts);
      IsDatabase(f) && Sorted(f) && StartsWell(f, octet)
  {
    hide File, Offset, IsRow, AddressOf, StartOf, Number;
    var f := File(starts, ranges, gap, texts);
    StartReads(starts, ranges, gap, texts, octet);
    forall row: nat
      ensures IsRow(f, row) <==> row < |ranges|
      ensures row < |ranges| ==> AddressOf(f, row) == ranges[row].last
    {
      RowsAreRanges(starts, ranges, gap, texts, row);
      if row < |ranges| {
        AddressReads(starts, ranges, gap, texts, row);
      }
    }
  }

  /** In a written file a lookup gives the text written for the range that holds the address. */
  lemma WrittenIsFound(starts: seq<nat>, ranges: seq<Range>, gap: seq<Byte>, texts: seq<Byte>, nip: Octets, row: nat)
    requires Writable(starts, ranges, gap, texts) && WellOrdered(starts, ranges) && row < |ranges|
    requires row > 0 ==> Number(ranges[row - 1].last) < Number(nip)
    requires Number(nip) <= Number(ranges[row].last)
    ensures
      var r := ranges[row];
      r in ranges && Lookup(File(starts, ranges, gap, texts), nip) == Found(texts[r.pos..r.pos + r.length])
  {
    hide File, Offset, IsRow, AddressOf, StartOf, Number, Lookup, LookupRow, RowText, Sorted, StartsWell;
    var f := File(starts, ranges, gap, texts);
    WrittenIsWell(starts, ranges, gap, texts, nip[0]);
    TextReads(starts, ranges, gap, texts, row);
    AddressReads(starts, ranges, gap, texts, row);
    if row > 0 {
      AddressReads(starts, ranges, gap, texts, row - 1);
    }
    LookupFindsTheRange(f, nip, row);
    DatabaseNeverRaises(f, nip);
  }

  /** Above all ranges there is none. */
  lemma WrittenHasNone(starts: seq<nat>, ranges: seq<Range>, gap: seq<Byte>, texts: seq<Byte>, nip: Octets)
    requires Writable(starts, ranges, gap, texts) && WellOrdered(starts, ranges)
    requires forall r <- ranges :: Number(r.last) < Number(nip)
    ensures Lookup(File(starts, ranges, gap, texts), nip) == NotFound
  {
    hide File, Offset, IsRow, AddressOf, StartOf, Number, Lookup, LookupRow, RowText, Sorted, StartsWell;
    var f := File(starts, ranges, gap, texts);
    WrittenIsWell(starts, ranges, gap, texts, nip[0]);
    forall row: nat
      ensures IsRow(f, row) <==> row < |ranges|
      ensures row < |ranges| ==> AddressOf(f, row) == ranges[row].last && ranges[row] in ranges
    {
      RowsAreRanges(starts, ranges, gap, texts, row);
      if row < |ranges| {
        AddressReads(starts, ranges, gap, texts, row);
      }
    }
    LookupFindsTheRange(f, nip, 0);
    DatabaseNeverRaises(f, nip);
  }
}
