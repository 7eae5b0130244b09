/**
 The address database: a table of rows ordered by address, an index of where each first octet begins, and a
 cache in front of the lookup.
 */
module IpIndex {
  import opened Basics
  import opened Machine
  import opened Text

  /** A packed IPv4 address. */
  type Octets = a: seq<Byte> | |a| == 4 witness [0, 0, 0, 0]

  const STARTS := 1024
  const ROW := 8

  // ---- byte strings as numbers ----

  /** Python's `>=` on byte strings. */
  predicate AtLeast(a: seq<Byte>, b: seq<Byte>) {
    b == [] || (a != [] && (a[0] > b[0] || (a[0] == b[0] && AtLeast(a[1..], b[1..]))))
  }

  function Number(a: Octets): nat {
    a[0] as int * 0x1000000 + a[1] as int * 0x10000 + a[2] as int * 0x100 + a[3]
  }

  /** Comparing packed addresses byte by byte is comparing the numbers they stand for. */
  lemma AtLeastIsNumeric(a: Octets, b: Octets)
    ensures AtLeast(a, b) <==> Number(a) >= Number(b)
  {
    assert AtLeast(a[3..], b[3..]) <==> a[3] >= b[3] by {
      assert a[3..][1..] == [] && b[3..][1..] == [];
    }
    assert a[2..][1..] == a[3..] && b[2..][1..] == b[3..];
    assert a[1..][1..] == a[2..] && b[1..][1..] == b[2..];
    assert AtLeast(a[2..], b[2..]) <==> a[2] as int * 0x100 + a[3] >= b[2] as int * 0x100 + b[3];
    assert AtLeast(a[1..], b[1..])
      <==> a[1] as int * 0x10000 + a[2] as int * 0x100 + a[3] >= b[1] as int * 0x10000 + b[2] as int * 0x100 + b[3];
  }

  function LittleEndian(b: seq<Byte>): nat {
    if b == [] then 0 else b[0] + 0x100 * LittleEndian(b[1..])
  }

  // ---- the file ----

  /** A slice as Python takes it: cut short at the end of the text. */
  function Slice(s: seq<Byte>, from: nat, to: nat): seq<Byte> {
    if from >= |s| || to <= from then [] else if to > |s| then s[from..] else s[from..to]
  }

  /** At most as long as asked for, and what stands there. */
  lemma SliceIs(s: seq<Byte>, from: nat, to: nat)
    requires from <= to
    ensures
      var part := Slice(s, from, to);
      && (to <= |s| ==> |part| == to - from)
      && (from <= |s| < to ==> |part| == |s| - from)
      && (|s| < from ==> part == [])
      && forall k :: 0 <= k < |part| ==> part[k] == s[from + k]
  {
  }

  /** Loading the module fails on a file of less than four bytes. */
  predicate IsLoaded(dat: seq<Byte>) {
    |dat| >= 4
  }

  function Offset(dat: seq<Byte>): nat
    requires IsLoaded(dat)
  {
    Number(dat[..4])
  }

  /** The file is as long as its header says and holds a start for every first octet. */
  predicate IsDatabase(dat: seq<Byte>) {
    IsLoaded(dat) && STARTS + 4 <= Offset(dat) <= |dat|
  }

  function Index(dat: seq<Byte>): seq<Byte>
    requires IsLoaded(dat)
  {
    Slice(dat, 4, Offset(dat))
  }

  /** A row is looked at only while it begins before this limit. */
  function Limit(dat: seq<Byte>): int
    requires IsLoaded(dat)
  {
    Offset(dat) - 1028
  }

  predicate IsRow(dat: seq<Byte>, row: nat)
    requires IsLoaded(dat)
  {
    row * ROW + STARTS < Limit(dat)
  }

  function Address(dat: seq<Byte>, row: nat): seq<Byte>
    requires IsLoaded(dat)
  {
    Slice(Index(dat), row * ROW + STARTS, row * ROW + STARTS + 4)
  }

  lemma AddressIsOctets(dat: seq<Byte>, row: nat)
    requires IsDatabase(dat) && IsRow(dat, row)
    ensures |Address(dat, row)| == 4 && row * ROW + STARTS + 8 <= |Index(dat)|
  {
  }

  function AddressOf(dat: seq<Byte>, row: nat): Octets
    requires IsDatabase(dat) && IsRow(dat, row)
  {
    AddressIsOctets(dat, row);
    Address(dat, row)
  }

  /** A lookup finds a text, finds none, or ends in an exception because a slice is too short to unpack. */
  datatype Outcome = Found(text: seq<Byte>) | NotFound | Raises

  /** What a row points at: nothing for a text offset of 0. */
  function RowText(dat: seq<Byte>, row: nat): Outcome
    requires IsLoaded(dat) && IsRow(dat, row)
  {
    var at := row * ROW + STARTS;
    var entry := Slice(Index(dat), at + 4, at + 7);
    if |entry| < 3 || at + 7 >= |Index(dat)| then Raises
    else
      var textOffset, length := LittleEndian(entry), Index(dat)[at + 7];
      if textOffset == 0 then NotFound
      else
        var from := Offset(dat) + textOffset - STARTS;
        Found(Slice(dat, from, from + length))
  }

  /** The row where an octet begins, if the index reaches that far. */
  function StartAt(dat: seq<Byte>, octet: Byte): Option<nat>
    requires IsLoaded(dat)
  {
    var entry := Slice(Index(dat), octet as int * 4, octet as int * 4 + 4);
    if |entry| < 4 then None else Some(LittleEndian(entry))
  }

  function StartOf(dat: seq<Byte>, octet: Byte): nat
    requires IsDatabase(dat)
  {
    StartAt(dat, octet).value
  }

  /** The first row at or behind `row` whose address is not below `nip`. */
  function FirstFrom(dat: seq<Byte>, row: nat, nip: Octets): Option<nat>
    requires IsLoaded(dat)
    decreases Limit(dat) - row * ROW
  {
    if !IsRow(dat, row) then None
    else if AtLeast(Address(dat, row), nip) then Some(row)
    else FirstFrom(dat, row + 1, nip)
  }

  function LookupRow(dat: seq<Byte>, nip: Octets): Option<nat>
    requires IsDatabase(dat)
  {
    FirstFrom(dat, StartOf(dat, nip[0]), nip)
  }

  /** What the row found points at. */
  function AtRow(dat: seq<Byte>, row: Option<nat>): Outcome
    requires IsLoaded(dat)
  {
    if row == None || !IsRow(dat, row.value) then NotFound else RowText(dat, row.value)
  }

  function Lookup(dat: seq<Byte>, nip: Octets): Outcome
    requires IsLoaded(dat)
  {
    var start := StartAt(dat, nip[0]);
    if start == None then Raises else AtRow(dat, FirstFrom(dat, start.value, nip))
  }

  method FindIp(dat: seq<Byte>, nip: Octets) returns (text: Outcome)
    requires IsLoaded(dat)
    ensures text == Lookup(dat, nip)
  {
    hide AtLeast, LittleEndian, Number, Slice;
    var index, offset := Index(dat), Offset(dat);
    var tmpOffset := nip[0] as int * 4;
    var entry := Slice(index, tmpOffset, tmpOffset + 4);
    if |entry| < 4 {
      return Raises;
    }
    var start := LittleEndian(entry);
    ghost var row := start;
    var maxCompLen: int := offset as int - 1028;
    start := start * 8 + 1024;
    while start < maxCompLen
      invariant start == row * ROW + STARTS
      invariant AtRow(dat, FirstFrom(dat, row, nip)) == Lookup(dat, nip)
      decreases maxCompLen - start
    {
      if AtLeast(Slice(index, start, start + 4), nip) {
        assert FirstFrom(dat, row, nip) == Some(row);
        entry := Slice(index, start + 4, start + 7);
        if |entry| < 3 || start + 7 >= |index| {
          return Raises;
        }
        var indexOffset, indexLength := LittleEndian(entry), index[start + 7];
        if indexOffset == 0 {
          return NotFound;
        }
        var resOffset := offset + indexOffset - 1024;
        return Found(Slice(dat, resOffset, resOffset + indexLength));
      }
      start := start + 8;
      row := row + 1;
    }
    text := NotFound;
  }

  /** A file of the right shape never makes a lookup raise. */
  lemma DatabaseNeverRaises(dat: seq<Byte>, nip: Octets)
    requires IsDatabase(dat)
    ensures Lookup(dat, nip) == AtRow(dat, LookupRow(dat, nip)) != Raises
  {
    hide AtLeast, LittleEndian, Number, FirstFrom;
    var row := LookupRow(dat, nip);
    if row != None && IsRow(dat, row.value) {
      AddressIsOctets(dat, row.value);
    }
  }

  // ---- the index ----

  /** The rows in front of an octet's start are all of smaller first octets. */
  ghost predicate StartsWell(dat: seq<Byte>, octet: Byte)
    requires IsDatabase(dat)
  {
    forall row: nat :: row < StartOf(dat, octet) && IsRow(dat, row) ==> AddressOf(dat, row)[0] < octet
  }

  lemma {:induction false} SkipSmaller(dat: seq<Byte>, from: nat, until: nat, nip: Octets)
    requires IsDatabase(dat) && from <= until
    requires forall row: nat :: from <= row < until && IsRow(dat, row) ==> AddressOf(dat, row)[0] < nip[0]
    ensures FirstFrom(dat, from, nip) == FirstFrom(dat, until, nip)
    decreases until - from
  {
    hide StartOf, Address, Number;
    if from == until {
    } else {
      if IsRow(dat, from) {
        SkipSmaller(dat, from + 1, until, nip);
      } else {
        assert !IsRow(dat, until);
      }
    }
  }

  lemma {:induction false} FirstIsNotBefore(dat: seq<Byte>, row: nat, nip: Octets)
    requires IsDatabase(dat)
    ensures
      var first := FirstFrom(dat, row, nip);
      && (first != None ==>
            && row <= first.value && IsRow(dat, first.value) && AtLeast(Address(dat, first.value), nip))
      && (forall r: nat :: row <= r && IsRow(dat, r) && (first == None || r < first.value) ==>
            !AtLeast(Address(dat, r), nip))
    decreases Limit(dat) - row * ROW
  {
    hide AtLeast, Address, Number;
    if !IsRow(dat, row) || AtLeast(Address(dat, row), nip) {
    } else {
      FirstIsNotBefore(dat, row + 1, nip);
    }
  }

  lemma LowestOfOctet(a: Octets, octet: Byte)
    requires a[0] >= octet
    ensures AtLeast(a, [octet, 0, 0, 0])
  {
    AtLeastIsNumeric(a, [octet, 0, 0, 0]);
  }

  /**
   Starting at an octet's entry finds for all its addresses what a scan of the whole table finds, exactly when
   the rows that are passed over are of smaller octets.
   */
  lemma IndexIsExactIff(dat: seq<Byte>, octet: Byte)
    requires IsDatabase(dat)
    ensures (forall nip: Octets :: nip[0] == octet ==> LookupRow(dat, nip) == FirstFrom(dat, 0, nip))
            <==> StartsWell(dat, octet)
  {
    hide StartOf, Address, Number, AtLeast, FirstFrom;
    if StartsWell(dat, octet) {
      forall nip: Octets | nip[0] == octet
        ensures LookupRow(dat, nip) == FirstFrom(dat, 0, nip)
      {
        SkipSmaller(dat, 0, StartOf(dat, octet), nip);
      }
    } else {
      var row: nat :| row < StartOf(dat, octet) && IsRow(dat, row) && AddressOf(dat, row)[0] >= octet;
      var nip: Octets := [octet, 0, 0, 0];
      LowestOfOctet(AddressOf(dat, row), octet);
      FirstIsNotBefore(dat, 0, nip);
      FirstIsNotBefore(dat, StartOf(dat, octet), nip);
      assert LookupRow(dat, nip) != FirstFrom(dat, 0, nip);
    }
  }

  // ---- the table ----

  ghost predicate Sorted(dat: seq<Byte>)
    requires IsDatabase(dat)
  {
    forall r: nat, q: nat :: r < q && IsRow(dat, r) && IsRow(dat, q) ==>
      Number(AddressOf(dat, r)) <= Number(AddressOf(dat, q))
  }

  /** The row ends the range that holds the address: above the row before, and up to this one. */
  ghost predicate HoldsAddress(dat: seq<Byte>, row: nat, nip: Octets)
    requires IsDatabase(dat) && IsRow(dat, row)
  {
    && (row > 0 ==> Number(AddressOf(dat, row - 1)) < Number(nip))
    && Number(nip) <= Number(AddressOf(dat, row))
  }

  /** In a sorted and well indexed file, a lookup gives the one row whose range holds the address. */
  lemma LookupFindsTheRange(dat: seq<Byte>, nip: Octets, row: nat)
    requires IsDatabase(dat) && Sorted(dat) && StartsWell(dat, nip[0])
    ensures LookupRow(dat, nip) == Some(row) <==> IsRow(dat, row) && HoldsAddress(dat, row, nip)
    ensures LookupRow(dat, nip) == None
        <==> forall r: nat :: IsRow(dat, r) ==> Number(AddressOf(dat, r)) < Number(nip)
  {
    hide StartOf, Address, Number, AtLeast, FirstFrom;
    SkipSmaller(dat, 0, StartOf(dat, nip[0]), nip);
    FirstIsNotBefore(dat, 0, nip);
    forall r: nat | IsRow(dat, r)
      ensures AtLeast(Address(dat, r), nip) <==> Number(AddressOf(dat, r)) >= Number(nip)
    {
      AtLeastIsNumeric(AddressOf(dat, r), nip);
    }
    var first := LookupRow(dat, nip);
    if first != None && first.value > 0 {
      assert IsRow(dat, first.value - 1);
    }
  }

  // ---- the cache ----

  /** The memoized lookup. A key is the one argument the lookup is called with; an exception leaves no entry. */
  class Memo {
    const dat: seq<Byte>
    var cache: map<Octets, Outcome>

    ghost predicate Valid()
      reads this
    {
      IsLoaded(dat) && forall k <- cache :: cache[k] == Lookup(dat, k) != Raises
    }

    constructor (dat: seq<Byte>)
      requires IsLoaded(dat)
      ensures Valid() && this.dat == dat && cache == map[]
    {
      this.dat := dat;
      cache := map[];
    }

    method Call(ip: Octets) returns (text: Outcome)
      requires Valid()
      modifies this
      ensures Valid()
      ensures text == Lookup(dat, ip)
      ensures cache == if text == Raises then old(cache) else old(cache)[ip := text]
    {
      hide Lookup;
      if ip !in cache {
        var found := FindIp(dat, ip);
        if found == Raises {
          return Raises;
        }
        cache := cache[ip := found];
      }
      text := cache[ip];
      assert cache == old(cache)[ip := text];
    }

    /** Over any sequence of calls the cached function gives what the plain one gives. */
    method CallAll(ips: seq<Octets>) returns (texts: seq<Outcome>)
      requires Valid()
      modifies this
      ensures Valid()
      ensures |texts| == |ips|
      ensures forall k :: 0 <= k < |ips| ==> texts[k] == Lookup(dat, ips[k])
      ensures cache.Keys == old(cache).Keys + (set ip | ip in ips && Lookup(dat, ip) != Raises)
    {
      hide Lookup;
      texts := [];
      for i := 0 to |ips|
        invariant Valid() && |texts| == i
        invariant forall k :: 0 <= k < i ==> texts[k] == Lookup(dat, ips[k])
        invariant cache.Keys == old(cache).Keys + (set ip | ip in ips[..i] && Lookup(dat, ip) != Raises)
      {
        var text := Call(ips[i]);
        texts := texts + [text];
        assert ips[..i + 1] == ips[..i] + [ips[i]];
      }
      assert ips[..|ips|] == ips;
    }
  }
}
