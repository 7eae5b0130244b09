/**
 Splitting a file by bytes: a loop that reads at most a buffer at a time and opens the next output whenever
 the current one is full. The directory is a map from names to contents.
 */
module ByteSplit {
  import opened Basics
  import opened Machine

  type Disk = map<string, seq<Byte>>

  const BUFFER := 10240
  const MAX_COUNTER := 0x8000_0000

  // ---- names ----

  function Digits(n: nat): (d: string)
    ensures d != ""
  {
    if n < 10 then [('0' as int + n) as char] else Digits(n / 10) + [('0' as int + n % 10) as char]
  }

  function Zeroes(count: nat): (z: string)
    ensures |z| == count
  {
    seq(count, k => '0')
  }

  /** `%06d` of a number that is not negative. */
  function Padded(n: nat): string {
    var d := Digits(n);
    if |d| >= 6 then d else Zeroes(6 - |d|) + d
  }

  function SubName(filename: string, suffix: string, counter: nat): string {
    filename + "_" + suffix + "_" + Padded(counter)
  }

  function ValueOf(d: string): int {
    if d == "" then 0 else 10 * ValueOf(d[..|d| - 1]) + (d[|d| - 1] as int - '0' as int)
  }

  lemma {:induction false} DigitsValue(n: nat)
    ensures ValueOf(Digits(n)) == n
  {
    if n >= 10 {
      DigitsValue(n / 10);
      assert Digits(n)[..|Digits(n)| - 1] == Digits(n / 10);
    } else {
      assert Digits(n)[..0] == "";
    }
  }

  lemma {:induction false} ZeroesCountNothing(z: nat, d: string)
    ensures ValueOf(Zeroes(z) + d) == ValueOf(d)
    decreases |d| + z
  {
    var s := Zeroes(z) + d;
    if d != "" {
      assert s[..|s| - 1] == Zeroes(z) + d[..|d| - 1];
      ZeroesCountNothing(z, d[..|d| - 1]);
    } else if z > 0 {
      assert s[..|s| - 1] == Zeroes(z - 1) + d;
      ZeroesCountNothing(z - 1, d);
    }
  }

  lemma PaddedValue(n: nat)
    ensures ValueOf(Padded(n)) == n
  {
    hide Digits, ValueOf;
    DigitsValue(n);
    ZeroesCountNothing(if |Digits(n)| >= 6 then 0 else 6 - |Digits(n)|, Digits(n));
  }

  /** Different counters never print the same name. */
  lemma SubNameIsInjective(filename: string, suffix: string, a: nat, b: nat)
    requires SubName(filename, suffix, a) == SubName(filename, suffix, b)
    ensures a == b
  {
    hide Digits, ValueOf;
    var front := filename + "_" + suffix + "_";
    assert Padded(a) == SubName(filename, suffix, a)[|front|..] == Padded(b);
    PaddedValue(a);
    PaddedValue(b);
  }

  predicate AllDigits(d: string) {
    forall k :: 0 <= k < |d| ==> '0' <= d[k] <= '9'
  }

  lemma {:induction false} DigitsAre(n: nat)
    ensures AllDigits(Digits(n))
    ensures (|Digits(n)| <= 1 <==> n < 10)
  {
    if n < 10 {
    } else {
      DigitsAre(n / 10);
    }
  }

  function Power10(k: nat): (p: nat)
    ensures p > 0
  {
    if k == 0 then 1 else 10 * Power10(k - 1)
  }

  lemma PowerGrows(k: nat)
    ensures Power10(k + 1) >= 10
  {
  }

  lemma {:induction false} DigitsLength(n: nat, k: nat)
    requires k > 0
    ensures |Digits(n)| <= k <==> n < Power10(k)
  {
    DigitsAre(n);
    if k == 1 {
      assert Power10(0) == 1;
    } else if n < 10 {
      PowerGrows(k - 1);
    } else {
      DigitsLength(n / 10, k - 1);
    }
  }

  /** A name is the file's, the suffix, and the counter in six digits, or in more when it has more. */
  lemma SubNameIs(filename: string, suffix: string, counter: nat)
    ensures exists d: string ::
      && SubName(filename, suffix, counter) == filename + "_" + suffix + "_" + d
      && AllDigits(d) && ValueOf(d) == counter
      && (if counter < 1000000 then |d| == 6 else |d| > 6 && d == Digits(counter))
  {
    hide Digits, ValueOf;
    var d := Padded(counter);
    PaddedValue(counter);
    DigitsAre(counter);
    DigitsLength(counter, 6);
    assert Power10(6) == 1000000;
    assert SubName(filename, suffix, counter) == filename + "_" + suffix + "_" + d;
  }

  predicate DiffersAt(a: string, b: string, k: nat)
    requires k < |a| && k < |b|
  {
    a[..k] == b[..k] && a[k] < b[k]
  }

  /** The order of a dictionary, for names of which none begins with the other. */
  ghost predicate SortsBefore(a: string, b: string) {
    exists k :: 0 <= k < |a| && k < |b| && DiffersAt(a, b, k)
  }

  lemma ValueStep(d: string)
    requires d != "" && AllDigits(d)
    ensures
      var n := |d| - 1;
      var low := ValueOf(d) - 10 * ValueOf(d[..n]);
      0 <= low < 10 && d[n] == ('0' as int + low) as char
  {
  }

  lemma LastDiffers(a: string, b: string)
    requires |a| == |b| > 0 && a[..|a| - 1] == b[..|b| - 1] && a[|a| - 1] < b[|b| - 1]
    ensures DiffersAt(a, b, |a| - 1)
  {
  }

  lemma DiffersLater(a: string, b: string, n: nat, k: nat)
    requires k < n <= |a| && n <= |b| && DiffersAt(a[..n], b[..n], k)
    ensures DiffersAt(a, b, k)
  {
    assert a[..n][..k] == a[..k] && b[..n][..k] == b[..k];
  }

  /** Digits in equal number sort as their values, and are equal for equal ones. */
  lemma {:induction false} DigitsSort(a: string, b: string)
    requires |a| == |b| && AllDigits(a) && AllDigits(b)
    ensures ValueOf(a) < ValueOf(b) ==> SortsBefore(a, b)
    ensures ValueOf(a) == ValueOf(b) ==> a == b
    decreases |a|
  {
    hide ValueOf, DiffersAt;
    if a == "" {
      assert ValueOf(a) == ValueOf(b);
    } else {
      var n := |a| - 1;
      var x, y := a[..n], b[..n];
      DigitsSort(x, y);
      ValueStep(a);
      ValueStep(b);
      if ValueOf(x) < ValueOf(y) {
        var k :| 0 <= k < |x| && k < |y| && DiffersAt(x, y, k);
        DiffersLater(a, b, n, k);
      } else if ValueOf(x) == ValueOf(y) {
        assert a == x + [a[n]] && b == y + [b[n]];
        if a[n] < b[n] {
          LastDiffers(a, b);
        }
      }
    }
  }

  lemma FrontSorts(front: string, x: string, y: string, k: nat)
    requires k < |x| && k < |y| && DiffersAt(x, y, k)
    ensures SortsBefore(front + x, front + y)
  {
    assert (front + x)[..|front| + k] == front + x[..k] && (front + y)[..|front| + k] == front + y[..k];
    assert DiffersAt(front + x, front + y, |front| + k);
  }

  /** As long as the counters have six digits, the names sort as the outputs follow each other. */
  lemma NamesSort(filename: string, suffix: string, a: nat, b: nat)
    requires a < b < 1000000
    ensures SortsBefore(SubName(filename, suffix, a), SubName(filename, suffix, b))
  {
    hide Digits, ValueOf;
    var x, y, front := Padded(a), Padded(b), filename + "_" + suffix + "_";
    PaddedValue(a);
    PaddedValue(b);
    DigitsAre(a);
    DigitsAre(b);
    DigitsLength(a, 6);
    DigitsLength(b, 6);
    assert Power10(6) == 1000000;
    DigitsSort(x, y);
    var k :| 0 <= k < |x| && k < |y| && DiffersAt(x, y, k);
    FrontSorts(front, x, y, k);
  }

  /** The names from one counter up to another that are taken. */
  ghost predicate Taken(disk: Disk, filename: string, suffix: string, a: nat, b: nat) {
    forall k :: a <= k < b ==> SubName(filename, suffix, k) in disk
  }

  /** So many names cannot all be taken: they are different members of the directory. */
  lemma {:induction false} TakenFit(disk: Disk, filename: string, suffix: string, a: nat, b: nat, left: set<string>)
    requires a <= b && Taken(disk, filename, suffix, a, b) && left <= disk.Keys
    requires forall k :: a <= k < b ==> SubName(filename, suffix, k) in left
    ensures b - a <= |left|
    decreases b - a
  {
    hide SubName;
    if a == b {
    } else {
      var name := SubName(filename, suffix, a);
      forall k | a + 1 <= k < b
        ensures SubName(filename, suffix, k) in left - {name}
      {
        if SubName(filename, suffix, k) == name {
          SubNameIsInjective(filename, suffix, a, k);
        }
      }
      TakenFit(disk, filename, suffix, a + 1, b, left - {name});
    }
  }

  /** The first free name at or after the counter. The search ends because the directory is finite. */
  method FreeName(disk: Disk, filename: string, suffix: string, counter: nat)
    returns (subName: string, counter': nat)
    ensures counter < counter' && subName == SubName(filename, suffix, counter' - 1)
    ensures subName !in disk && Taken(disk, filename, suffix, counter, counter' - 1)
  {
    hide SubName;
    subName := SubName(filename, suffix, counter);
    counter' := counter + 1;
    while subName in disk
      invariant counter < counter' && subName == SubName(filename, suffix, counter' - 1)
      invariant Taken(disk, filename, suffix, counter, counter' - 1)
      decreases |disk.Keys| - (counter' - counter)
    {
      TakenFit(disk, filename, suffix, counter, counter', disk.Keys);
      subName := SubName(filename, suffix, counter');
      counter' := counter' + 1;
    }
  }

  // ---- the chunks ----

  function Min(a: nat, b: nat): nat {
    if a <= b then a else b
  }

  /** The i-th output: bytes i * split up to (i + 1) * split, or to the end. */
  function Chunk(content: seq<Byte>, split: nat, i: nat): seq<Byte>
    requires i * split <= |content|
  {
    content[i * split..Min(i * split + split, |content|)]
  }

  /** The outputs so far: their names are new and different, and each full one holds its chunk. */
  ghost predicate Written(before: Disk, disk: Disk, names: seq<string>, full: nat, content: seq<Byte>, split: nat)
    requires full <= |names|
  {
    && disk.Keys == before.Keys + (set n | n in names)
    && (forall n <- before :: disk[n] == before[n])
    && (forall n <- names :: n !in before)
    && (forall i, j :: 0 <= i < j < |names| ==> names[i] != names[j])
    && (forall i :: 0 <= i < full ==> i * split <= |content| && disk[names[i]] == Chunk(content, split, i))
  }

  lemma Opened(before: Disk, disk: Disk, names: seq<string>, name: string, content: seq<Byte>, split: nat)
    requires Written(before, disk, names, |names|, content, split)
    requires name !in disk
    ensures Written(before, disk[name := []], names + [name], |names|, content, split)
  {
    hide Chunk;
    var disk', names' := disk[name := []], names + [name];
    assert disk'.Keys == before.Keys + (set n | n in names');
    forall i, j | 0 <= i < j < |names'|
      ensures names'[i] != names'[j]
    {
      assert names'[i] == names[i] && names[i] in names;
    }
    forall i | 0 <= i < |names|
      ensures i * split <= |content| && disk'[names'[i]] == Chunk(content, split, i)
    {
      assert names[i] in names;
    }
  }

  lemma Appended(before: Disk, disk: Disk, names: seq<string>, bytes: seq<Byte>, content: seq<Byte>, split: nat)
    requires names != [] && Written(before, disk, names, |names| - 1, content, split)
    ensures
      var name := names[|names| - 1];
      name in disk && Written(before, disk[name := bytes], names, |names| - 1, content, split)
  {
    hide Chunk;
    var name := names[|names| - 1];
    assert name in names;
    var disk' := disk[name := bytes];
    assert disk'.Keys == disk.Keys;
    forall i | 0 <= i < |names| - 1
      ensures i * split <= |content| && disk'[names[i]] == Chunk(content, split, i)
    {
      assert names[i] != name;
    }
  }

  lemma Filled(before: Disk, disk: Disk, names: seq<string>, content: seq<Byte>, split: nat, base: nat)
    requires names != [] && Written(before, disk, names, |names| - 1, content, split)
    requires base == (|names| - 1) * split && base <= |content|
    requires names[|names| - 1] in disk
    requires disk[names[|names| - 1]] == content[base..Min(base + split, |content|)]
    ensures Written(before, disk, names, |names|, content, split)
  {
    hide Min;
    forall i | 0 <= i < |names|
      ensures i * split <= |content| && disk[names[i]] == Chunk(content, split, i)
    {
      if i == |names| - 1 {
        assert i * split == base;
      }
    }
  }

  /** The outputs have the names of the first free counters, in ascending order. */
  ghost predicate Counted(before: Disk, names: seq<string>, counters: seq<nat>, filename: string, suffix: string,
                          counter: nat) {
    && |counters| == |names|
    && (forall i :: 0 <= i < |names| ==> counters[i] < counter && names[i] == SubName(filename, suffix, counters[i]))
    && (forall i, j :: 0 <= i < j < |names| ==> counters[i] < counters[j])
    && (forall k :: 0 <= k < counter ==> SubName(filename, suffix, k) in before || k in counters)
  }

  lemma CountedNext(before: Disk, disk: Disk, names: seq<string>, counters: seq<nat>, filename: string,
                    suffix: string, counter: nat, counter': nat, name: string)
    requires Counted(before, names, counters, filename, suffix, counter)
    requires disk.Keys == before.Keys + (set n | n in names)
    requires counter < counter' && name == SubName(filename, suffix, counter' - 1)
    requires Taken(disk, filename, suffix, counter, counter' - 1)
    ensures Counted(before, names + [name], counters + [counter' - 1], filename, suffix, counter')
  {
    hide SubName;
    forall k | 0 <= k < counter'
      ensures SubName(filename, suffix, k) in before || k in counters + [counter' - 1]
    {
      if counter <= k < counter' - 1 {
        assert SubName(filename, suffix, k) in disk;
        if SubName(filename, suffix, k) in names {
          var i :| 0 <= i < |names| && names[i] == SubName(filename, suffix, k);
          SubNameIsInjective(filename, suffix, counters[i], k);
        }
      }
    }
  }

  lemma {:induction false} NamesSize(names: seq<string>)
    ensures |set n | n in names| <= |names|
  {
    if names == [] {
    } else {
      var last := |names| - 1;
      NamesSize(names[..last]);
      assert names == names[..last] + [names[last]];
      assert (set n | n in names) == (set n | n in names[..last]) + {names[last]};
    }
  }

  lemma UnionSize(a: set<string>, b: set<string>)
    ensures |a + b| <= |a| + |b|
  {
    assert a + b == a + (b - a);
    assert b == (b - a) + (a * b);
  }

  /** The counter never passes the number of old files and outputs together. */
  lemma CounterFits(before: Disk, disk: Disk, names: seq<string>, counters: seq<nat>, filename: string,
                    suffix: string, counter: nat)
    requires Counted(before, names, counters, filename, suffix, counter)
    requires disk.Keys == before.Keys + (set n | n in names)
    ensures counter <= |before| + |names|
  {
    hide SubName;
    forall k | 0 <= k < counter
      ensures SubName(filename, suffix, k) in disk
    {
      if k in counters {
        var i :| 0 <= i < |counters| && counters[i] == k;
        assert names[i] in names;
      }
    }
    TakenFit(disk, filename, suffix, 0, counter, disk.Keys);
    NamesSize(names);
    UnionSize(before.Keys, set n | n in names);
  }

  /** Where the loop is: the current output holds the bytes from `base` up to `pos`. */
  ghost predicate Current(disk: Disk, names: seq<string>, content: seq<Byte>, split: nat, base: nat, pos: nat) {
    && base <= pos <= |content|
    && (names == [] ==> base == pos == 0)
    && (names != [] ==>
          && base == (|names| - 1) * split
          && names[|names| - 1] in disk && disk[names[|names| - 1]] == content[base..pos])
  }

  ghost function Done(names: seq<string>): nat {
    if names == [] then 0 else |names| - 1
  }

  lemma FullIsDone(before: Disk, disk: Disk, names: seq<string>, content: seq<Byte>, split: nat, base: nat, pos: nat)
    requires Written(before, disk, names, Done(names), content, split)
    requires Current(disk, names, content, split, base, pos)
    requires names != [] ==> pos == base + split
    ensures Written(before, disk, names, |names|, content, split)
    ensures |names| * split == pos <= |content|
  {
    hide Written;
    if names != [] {
      Filled(before, disk, names, content, split, base);
      TimesNext(|names| - 1, split);
    }
  }

  lemma OpenedIsCurrent(disk: Disk, names: seq<string>, name: string, content: seq<Byte>, split: nat, pos: nat)
    requires names != [] && names[|names| - 1] == name && name in disk && disk[name] == []
    requires (|names| - 1) * split == pos <= |content|
    ensures Current(disk, names, content, split, pos, pos)
  {
  }

  lemma KeysOf(before: Disk, disk: Disk, names: seq<string>, full: nat, content: seq<Byte>, split: nat)
    requires full <= |names| && Written(before, disk, names, full, content, split)
    ensures disk.Keys == before.Keys + (set n | n in names)
  {
  }

  /** Opens the first output, or the next one behind a full one. */
  method OpenNext(ghost before: Disk, disk: Disk, names: seq<string>, content: seq<Byte>, filename: string,
                  suffix: string, split: nat, counter: nat, ghost counters: seq<nat>, ghost base: nat, ghost pos: nat)
    returns (disk': Disk, names': seq<string>, counter': nat, ghost counters': seq<nat>)
    requires Written(before, disk, names, Done(names), content, split)
    requires Current(disk, names, content, split, base, pos)
    requires names != [] ==> pos == base + split
    requires Counted(before, names, counters, filename, suffix, counter)
    requires 0 < split && |content| / split + 1 + |before| <= MAX_COUNTER
    ensures |names'| == |names| + 1
    ensures Written(before, disk', names', Done(names'), content, split)
    ensures Current(disk', names', content, split, pos, pos)
    ensures Counted(before, names', counters', filename, suffix, counter')
    ensures counter' <= MAX_COUNTER
  {
    hide Written, Counted, Taken, SubName, Chunk, Current;
    FullIsDone(before, disk, names, content, split, base, pos);
    KeysOf(before, disk, names, |names|, content, split);
    var subName;
    subName, counter' := FreeName(disk, filename, suffix, counter);
    CountedNext(before, disk, names, counters, filename, suffix, counter, counter', subName);
    counters' := counters + [counter' - 1];
    Opened(before, disk, names, subName, content, split);
    disk', names' := disk[subName := []], names + [subName];
    KeysOf(before, disk', names', |names|, content, split);
    CounterFits(before, disk', names', counters', filename, suffix, counter');
    QuotientAtLeast(|names|, split, |content|);
    OpenedIsCurrent(disk', names', subName, content, split, pos);
  }

  /** One read appended to the current output. */
  lemma ReadKeeps(before: Disk, disk: Disk, names: seq<string>, content: seq<Byte>, split: nat, base: nat, pos: nat,
                  n: nat)
    requires names != [] && Written(before, disk, names, Done(names), content, split)
    requires Current(disk, names, content, split, base, pos) && pos + n <= |content|
    ensures
      var sub := names[|names| - 1];
      var disk' := disk[sub := disk[sub] + content[pos..pos + n]];
      && Written(before, disk', names, Done(names), content, split)
      && Current(disk', names, content, split, base, pos + n)
  {
    hide Written;
    var sub := names[|names| - 1];
    Appended(before, disk, names, disk[sub] + content[pos..pos + n], content, split);
    assert content[base..pos] + content[pos..pos + n] == content[base..pos + n];
  }

  /** The loop ends in an output that is not full, after the last byte. */
  lemma SplitEnds(before: Disk, disk: Disk, names: seq<string>, content: seq<Byte>, split: nat, base: nat)
    requires 0 < split && names != [] && Written(before, disk, names, Done(names), content, split)
    requires Current(disk, names, content, split, base, |content|) && |content| < base + split
    ensures Written(before, disk, names, |names|, content, split)
    ensures |names| == |content| / split + 1
  {
    hide Written;
    Filled(before, disk, names, content, split, base);
    QuotientIs(|names| - 1, split, |content| - base);
  }

  lemma InDisk(disk: Disk, names: seq<string>, content: seq<Byte>, split: nat, base: nat, pos: nat)
    requires names != [] && Current(disk, names, content, split, base, pos)
    ensures names[|names| - 1] in disk
  {
  }

  lemma Nothing(disk: Disk, content: seq<Byte>, split: nat, filename: string, suffix: string)
    ensures Written(disk, disk, [], 0, content, split)
    ensures Current(disk, [], content, split, 0, 0)
    ensures Counted(disk, [], [], filename, suffix, 0)
  {
  }

  /**
   Splits `content` into chunks of `split` bytes; `names` are the outputs in order. The caller keeps the counter
   printable, and a split size of 0 would open files for ever.
   */
  method SplitByBytes(content: seq<Byte>, filename: string, suffix: string, split: nat, disk: Disk)
    returns (disk': Disk, names: seq<string>, ghost counters: seq<nat>)
    requires 0 < split
    requires |content| / split + 1 + |disk| <= MAX_COUNTER
    ensures |names| == |content| / split + 1
    ensures Written(disk, disk', names, |names|, content, split)
    ensures exists counter :: Counted(disk, names, counters, filename, suffix, counter)
  {
    hide Written, Counted, Current;
    disk', names, counters := disk, [], [];
    var counter: nat, curCounter: nat, eof, pos: nat := 0, 0, false, 0;
    Nothing(disk, content, split, filename, suffix);
    while !eof
      invariant curCounter <= pos <= |content| && curCounter <= split
      invariant Written(disk, disk', names, Done(names), content, split)
      invariant Current(disk', names, content, split, pos - curCounter, pos)
      invariant Counted(disk, names, counters, filename, suffix, counter)
      invariant curCounter == 0 && !eof ==> names == []
      invariant names == [] ==> pos == 0
      invariant eof ==> names != [] && pos == |content| && curCounter < split
      decreases !eof, |content| - pos
    {
      if split == curCounter || curCounter == 0 {
        disk', names, counter, counters :=
          OpenNext(disk, disk', names, content, filename, suffix, split, counter, counters, pos - curCounter, pos);
        curCounter := 0;
      }
      var readCounter := if split >= curCounter + BUFFER then BUFFER else split - curCounter;
      var readNum := Min(readCounter, |content| - pos);
      var sub := names[|names| - 1];
      ReadKeeps(disk, disk', names, content, split, pos - curCounter, pos, readNum);
      InDisk(disk', names, content, split, pos - curCounter, pos);
      disk' := disk'[sub := disk'[sub] + content[pos..pos + readNum]];
      eof := readNum < readCounter;
      curCounter := curCounter + readNum;
      pos := pos + readNum;
    }
    SplitEnds(disk, disk', names, content, split, pos - curCounter);
  }

  /** With a split size of 0 any number of passes opens as many outputs and reads no byte, so there is no end. */
  method OpenForEver(content: seq<Byte>, filename: string, suffix: string, disk: Disk, rounds: nat)
    returns (disk': Disk, names: seq<string>, pos: nat)
    ensures |names| == rounds && pos == 0
    ensures Written(disk, disk', names, |names|, content, 0)
  {
    hide Written, Counted, Current, Taken, SubName;
    disk', names, pos := disk, [], 0;
    var counter, split, curCounter := 0, 0, 0;
    Nothing(disk, content, split, filename, suffix);
    for r := 0 to rounds
      invariant |names| == r && split == curCounter == pos == 0
      invariant Written(disk, disk', names, |names|, content, 0)
    {
      var subName;
      subName, counter := FreeName(disk', filename, suffix, counter);
      Opened(disk, disk', names, subName, content, 0);
      disk', names := disk'[subName := []], names + [subName];
      Filled(disk, disk', names, content, 0, 0);
      var readCounter := if split >= curCounter + BUFFER then BUFFER else split - curCounter;
      var readNum := Min(readCounter, |content| - pos);
      curCounter, pos := curCounter + readNum, pos + readNum;
    }
  }

  // ---- the outputs together ----

  function Outputs(disk: Disk, names: seq<string>): seq<Byte>
    requires forall n <- names :: n in disk
  {
    if names == [] then [] else Outputs(disk, names[..|names| - 1]) + disk[names[|names| - 1]]
  }

  /** Where the first `count` chunks end. */
  function Edge(count: nat, split: nat, size: nat): (e: nat)
    ensures e <= size
  {
    Min(count * split, size)
  }

  lemma ChunkAt(before: Disk, disk: Disk, names: seq<string>, content: seq<Byte>, split: nat, i: nat)
    requires Written(before, disk, names, |names|, content, split) && i < |names|
    ensures names[i] in disk && i * split <= |content| && disk[names[i]] == Chunk(content, split, i)
  {
    hide Chunk;
    assert names[i] in names;
  }

  lemma EdgeNext(i: nat, split: nat, size: nat)
    requires i * split <= size
    ensures Edge(i, split, size) == i * split && Edge(i + 1, split, size) == Min(i * split + split, size)
  {
    TimesNext(i, split);
  }

  lemma ChunkEnds(before: Disk, disk: Disk, names: seq<string>, content: seq<Byte>, split: nat, i: nat)
    requires Written(before, disk, names, |names|, content, split) && i < |names|
    ensures names[i] in disk
    ensures content[..Edge(i, split, |content|)] + disk[names[i]] == content[..Edge(i + 1, split, |content|)]
  {
    hide Written, Edge;
    ChunkAt(before, disk, names, content, split, i);
    EdgeNext(i, split, |content|);
    var mid, end := i * split, Min(i * split + split, |content|);
    assert content[..mid] + content[mid..end] == content[..end];
  }

  lemma InAll(before: Disk, disk: Disk, names: seq<string>, content: seq<Byte>, split: nat)
    requires Written(before, disk, names, |names|, content, split)
    ensures forall n <- names :: n in disk
  {
  }

  lemma {:induction false} OutputsUpTo(before: Disk, disk: Disk, names: seq<string>, content: seq<Byte>, split: nat,
                                       count: nat)
    requires Written(before, disk, names, |names|, content, split) && count <= |names|
    ensures forall n <- names :: n in disk
    ensures Outputs(disk, names[..count]) == content[..Edge(count, split, |content|)]
  {
    hide Written;
    InAll(before, disk, names, content, split);
    if count == 0 {
      assert Outputs(disk, []) == [] == content[..0];
    } else {
      var i := count - 1;
      OutputsUpTo(before, disk, names, content, split, i);
      assert names[..count][..i] == names[..i] && names[..count][i] == names[i];
      ChunkEnds(before, disk, names, content, split, i);
    }
  }

  lemma LastChunk(before: Disk, disk: Disk, names: seq<string>, content: seq<Byte>, split: nat, q: nat, r: nat)
    requires |names| == q + 1 && |content| == q * split + r && r < split
    requires Written(before, disk, names, |names|, content, split)
    ensures names[q] in disk && |disk[names[q]]| == r
  {
    assert names[q] in names;
    assert disk[names[q]] == Chunk(content, split, q);
  }

  /** Put together again the outputs are the input; the last is empty exactly for a whole number of chunks. */
  lemma OutputsAreTheInput(before: Disk, disk: Disk, names: seq<string>, content: seq<Byte>, split: nat)
    requires 0 < split && |names| == |content| / split + 1
    requires Written(before, disk, names, |names|, content, split)
    ensures forall n <- names :: n in disk
    ensures Outputs(disk, names) == content
    ensures disk[names[|names| - 1]] == [] <==> |content| % split == 0
  {
    hide Written;
    var q, r := |content| / split, |content| % split;
    assert |content| == q * split + r && r < split;
    TimesNext(q, split);
    OutputsUpTo(before, disk, names, content, split, |names|);
    assert names[..|names|] == names && content[..|content|] == content;
    LastChunk(before, disk, names, content, split, q, r);
  }

  /** So a directory listing gives the outputs of a split in order, as long as a million counters are enough. */
  lemma OutputsSort(before: Disk, names: seq<string>, counters: seq<nat>, filename: string, suffix: string,
                    counter: nat, i: nat, j: nat)
    requires Counted(before, names, counters, filename, suffix, counter) && counter <= 1000000
    requires i < j < |names|
    ensures SortsBefore(names[i], names[j])
  {
    hide SubName, SortsBefore;
    NamesSort(filename, suffix, counters[i], counters[j]);
  }
}
