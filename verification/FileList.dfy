/**
 The list of files waiting to be sent: singly linked nodes in the order of their modification times, behind a
 header that counts them in 32 bits.
 */
module FileList {
  import opened Basics
  import opened Machine

  datatype Entry = Entry(name: string, modifyTime: int)

  predicate Ordered(list: seq<Entry>) {
    forall i, j :: 0 <= i < j < |list| ==> list[i].modifyTime <= list[j].modifyTime
  }

  predicate DistinctNames(list: seq<Entry>) {
    forall i, j :: 0 <= i < j < |list| ==> list[i].name != list[j].name
  }

  predicate Listed(list: seq<Entry>, name: string) {
    exists i :: 0 <= i < |list| && list[i].name == name
  }

  /** How many entries come before a new one: all that are strictly older. */
  function Position(list: seq<Entry>, modifyTime: int): (k: nat)
    ensures k <= |list|
    ensures forall i :: 0 <= i < k ==> list[i].modifyTime < modifyTime
    ensures k < |list| ==> list[k].modifyTime >= modifyTime
  {
    if list == [] || list[0].modifyTime >= modifyTime then 0 else 1 + Position(list[1..], modifyTime)
  }

  function Spliced<T>(s: seq<T>, x: T, k: nat): (r: seq<T>)
    requires k <= |s|
    ensures |r| == |s| + 1
  {
    s[..k] + [x] + s[k..]
  }

  function Inserted(list: seq<Entry>, e: Entry): seq<Entry> {
    Spliced(list, e, Position(list, e.modifyTime))
  }

  datatype Call = AddCall(name: string, modifyTime: int, logged: bool) | DeleteCall(bufSize: nat)

  predicate Accepts(list: seq<Entry>, c: Call) {
    c.AddCall? && !c.logged && !Listed(list, c.name)
  }

  /** Does the call hand out the first entry? */
  predicate HandsOut(list: seq<Entry>, c: Call) {
    c.DeleteCall? && Wrap(|list|) > 0 && |list[0].name| <= c.bufSize
  }

  /** The name that a call hands out. */
  function Handed(list: seq<Entry>, c: Call): Option<string> {
    if HandsOut(list, c) then Some(list[0].name) else None
  }

  function ListAfter(list: seq<Entry>, c: Call): seq<Entry> {
    if Accepts(list, c) then Inserted(list, Entry(c.name, c.modifyTime))
    else if HandsOut(list, c) then list[1..]
    else list
  }

  class FileLink {
    const name: string
    const modifyTime: int
    var next: FileLink?

    constructor (name: string, modifyTime: int)
      ensures this.name == name && this.modifyTime == modifyTime && next == null
    {
      this.name, this.modifyTime, next := name, modifyTime, null;
    }
  }

  ghost function At(nodes: seq<FileLink>, i: nat): FileLink? {
    if i < |nodes| then nodes[i] else null
  }

  ghost predicate Chained(nodes: seq<FileLink>)
    reads nodes
  {
    forall i :: 0 <= i < |nodes| ==> nodes[i].next == At(nodes, i + 1)
  }

  ghost predicate Holding(nodes: seq<FileLink>, list: seq<Entry>) {
    && |nodes| == |list|
    && forall i :: 0 <= i < |nodes| ==> nodes[i].name == list[i].name && nodes[i].modifyTime == list[i].modifyTime
  }

  ghost predicate NoNodeTwice(nodes: seq<FileLink>) {
    forall i, j :: 0 <= i < j < |nodes| ==> nodes[i] != nodes[j]
  }

  /** With the two pointers around the new node set, the chain goes through it. */
  lemma SplicedChain(nodes: seq<FileLink>, tmp: FileLink, k: nat)
    requires k <= |nodes| && tmp !in nodes && NoNodeTwice(nodes)
    requires tmp.next == At(nodes, k)
    requires forall i :: 0 <= i < |nodes| ==> nodes[i].next == if i == k - 1 then tmp else At(nodes, i + 1)
    ensures NoNodeTwice(Spliced(nodes, tmp, k)) && Chained(Spliced(nodes, tmp, k))
    ensures At(Spliced(nodes, tmp, k), 0) == if k == 0 then tmp else At(nodes, 0)
  {
    var t := Spliced(nodes, tmp, k);
    forall i | 0 <= i < |t|
      ensures t[i] == (if i < k then nodes[i] else if i == k then tmp else nodes[i - 1])
      ensures t[i].next == At(t, i + 1)
    {
    }
  }

  lemma SameLength(nodes: seq<FileLink>, list: seq<Entry>)
    requires Holding(nodes, list)
    ensures |nodes| == |list|
  {
  }

  /** What the header needs of the chain once its first node is gone. */
  lemma FirstRemoved(nodes: seq<FileLink>, list: seq<Entry>)
    requires nodes != [] && NoNodeTwice(nodes) && Chained(nodes) && Holding(nodes, list)
    ensures NoNodeTwice(nodes[1..]) && Chained(nodes[1..]) && Holding(nodes[1..], list[1..])
    ensures nodes[0].next == At(nodes[1..], 0) && nodes[0].name == list[0].name
  {
  }

  lemma HeadOf(nodes: seq<FileLink>)
    ensures if nodes == [] then At(nodes, 0) == null else At(nodes, 0) == nodes[0]
  {
  }

  lemma SplicedHolding(nodes: seq<FileLink>, list: seq<Entry>, tmp: FileLink, k: nat)
    requires k <= |nodes| && Holding(nodes, list)
    ensures Holding(Spliced(nodes, tmp, k), Spliced(list, Entry(tmp.name, tmp.modifyTime), k))
  {
  }

  lemma NoneIsZero()
    ensures Wrap(0) == 0
  {
  }

  lemma OneMore(n: nat)
    ensures Wrap(Wrap(n) + 1) == Wrap(n + 1)
    ensures Wrap(Wrap(n + 1) - 1) == Wrap(n)
  {
  }

  lemma {:induction false} PositionIs(list: seq<Entry>, modifyTime: int, k: nat)
    requires k <= |list|
    requires forall i :: 0 <= i < k ==> list[i].modifyTime < modifyTime
    requires k < |list| ==> list[k].modifyTime >= modifyTime
    ensures Position(list, modifyTime) == k
  {
    if k > 0 {
      PositionIs(list[1..], modifyTime, k - 1);
    }
  }

  class FileLinkHeader {
    var next: FileLink?
    var num: Word
    ghost var nodes: seq<FileLink>
    ghost var contents: seq<Entry>

    /** `nodes` is the chain from the header to the end, `contents` what it holds; `num` counts it modulo 2^32. */
    ghost predicate Valid()
      reads this, nodes
    {
      && NoNodeTwice(nodes) && next == At(nodes, 0) && Chained(nodes)
      && Holding(nodes, contents)
      && num == Wrap(|contents|)
    }

    constructor ()
      ensures Valid() && contents == []
    {
      next, num, nodes, contents := null, 0, [], [];
    }

    /** Is some node of that name in the chain? */
    method Find(filename: string) returns (found: bool)
      requires Valid()
      ensures found <==> Listed(contents, filename)
    {
      var cur := next;
      ghost var k := 0;
      while cur != null
        invariant k <= |nodes| && cur == At(nodes, k)
        invariant forall i :: 0 <= i < k ==> contents[i].name != filename
        decreases |nodes| - k
      {
        if cur.name == filename {
          assert contents[k].name == filename;
          return true;
        }
        cur, k := cur.next, k + 1;
      }
      found := false;
    }

    /**
     Adds a file unless it was sent before or is listed. `sent` is what the log said, `modifyTime` what `stat`
     left in its buffer.
     */
    method Add(filename: string, modifyTime: int, sent: bool)
      requires Valid()
      modifies this, nodes
      ensures Valid()
      ensures contents == ListAfter(old(contents), AddCall(filename, modifyTime, sent))
    {
      if sent {
        return;
      }
      var found := Find(filename);
      if found {
        return;
      }
      var tmp := new FileLink(filename, modifyTime);
      var pre, k := Place(modifyTime);
      Link(tmp, pre, k);
    }

    /** The last node that is strictly older than the given time. */
    method Place(modifyTime: int) returns (pre: FileLink?, ghost k: nat)
      requires Valid()
      ensures k == Position(contents, modifyTime)
      ensures pre == if k == 0 then null else nodes[k - 1]
      ensures pre == null <==> Position(contents, modifyTime) == 0
    {
      hide Position, NoNodeTwice, Wrap;
      var cur := next;
      pre, k := null, 0;
      while cur != null && cur.modifyTime < modifyTime
        invariant k <= |nodes| && cur == At(nodes, k)
        invariant if k == 0 then pre == null else pre == nodes[k - 1]
        invariant forall i :: 0 <= i < k ==> contents[i].modifyTime < modifyTime
        decreases |nodes| - k
      {
        pre := cur;
        cur, k := cur.next, k + 1;
      }
      PositionIs(contents, modifyTime, k);
    }

    /** Links a new node in behind `pre`, or in front of all, and counts it. */
    method Link(tmp: FileLink, pre: FileLink?, ghost k: nat)
      requires Valid() && tmp !in nodes && k <= |nodes|
      requires pre == if k == 0 then null else nodes[k - 1]
      modifies this, pre, tmp`next
      ensures Valid() && contents == Spliced(old(contents), Entry(tmp.name, tmp.modifyTime), k)
    {
      hide Spliced, Wrap, Chained, Holding, NoNodeTwice, At;
      SameLength(nodes, contents);
      SetPointers(tmp, pre, k, nodes);
      SplicedHolding(nodes, contents, tmp, k);
      OneMore(|contents|);
      num := Wrap(num as int + 1);
      nodes, contents := Spliced(nodes, tmp, k), Spliced(contents, Entry(tmp.name, tmp.modifyTime), k);
    }

    method SetPointers(tmp: FileLink, pre: FileLink?, ghost k: nat, ghost chain: seq<FileLink>)
      requires NoNodeTwice(chain) && next == At(chain, 0) && Chained(chain)
      requires tmp !in chain && k <= |chain|
      requires pre == if k == 0 then null else chain[k - 1]
      modifies this`next, pre, tmp`next
      ensures
        var chain' := Spliced(chain, tmp, k);
        NoNodeTwice(chain') && next == At(chain', 0) && Chained(chain')
    {
      hide Spliced;
      if pre == null {
        tmp.next := next;
        next := tmp;
      } else {
        tmp.next := pre.next;
        pre.next := tmp;
      }
      SplicedChain(chain, tmp, k);
    }

    /**
     Takes the first file off the list, unless the count is zero or the name does not fit the buffer. A positive
     count with no node behind it is the program's abnormal exit.
     */
    method Delete(bufSize: nat) returns (fileBuf: Option<string>, abnormal: bool)
      requires Valid()
      modifies this
      ensures Valid() && !abnormal
      ensures contents == ListAfter(old(contents), DeleteCall(bufSize))
      ensures fileBuf == Handed(old(contents), DeleteCall(bufSize))
    {
      hide Chained, Holding, NoNodeTwice, At, Wrap;
      fileBuf, abnormal := None, false;
      SameLength(nodes, contents);
      HeadOf(nodes);
      NoneIsZero();
      if num > 0 && next == null {
        abnormal := true;
        return;
      }
      if num > 0 && next != null {
        FirstRemoved(nodes, contents);
        var p := next.next;
        if |next.name| > bufSize {
          return;
        }
        fileBuf := Some(next.name);
        OneMore(|nodes| - 1);
        next := p;
        num := Wrap(num as int - 1);
        nodes, contents := nodes[1..], contents[1..];
      }
    }
  }

  /** The list as a value, with what was ever taken in and what was handed out, in order. */
  datatype Ledger = Ledger(list: seq<Entry>, accepted: multiset<Entry>, sent: seq<Entry>)

  function After(l: Ledger, c: Call): Ledger {
    Ledger(
      ListAfter(l.list, c),
      if Accepts(l.list, c) then l.accepted + multiset{Entry(c.name, c.modifyTime)} else l.accepted,
      if HandsOut(l.list, c) then l.sent + [l.list[0]] else l.sent)
  }

  function AfterAll(calls: seq<Call>): Ledger {
    if calls == [] then Ledger([], multiset{}, []) else After(AfterAll(calls[..|calls| - 1]), calls[|calls| - 1])
  }

  predicate InOrder(l: Ledger) {
    Ordered(l.list) && DistinctNames(l.list) && l.accepted == multiset(l.list) + multiset(l.sent)
  }

  lemma SplicedBag<T>(s: seq<T>, x: T, k: nat)
    requires k <= |s|
    ensures multiset(Spliced(s, x, k)) == multiset(s) + multiset{x}
  {
    assert s == s[..k] + s[k..];
  }

  lemma SplicedAt<T>(s: seq<T>, x: T, k: nat)
    requires k <= |s|
    ensures
      var t := Spliced(s, x, k);
      forall i :: 0 <= i < |t| ==> t[i] == if i < k then s[i] else if i == k then x else s[i - 1]
  {
  }

  lemma InsertedIsOrdered(list: seq<Entry>, e: Entry)
    requires Ordered(list)
    ensures Ordered(Inserted(list, e))
  {
    hide Spliced, Position;
    var k := Position(list, e.modifyTime);
    var t := Spliced(list, e, k);
    SplicedAt(list, e, k);
    forall i, j | 0 <= i < j < |t|
      ensures t[i].modifyTime <= t[j].modifyTime
    {
      assert i > k ==> t[i] == list[i - 1];
      assert j > k ==> t[j] == list[j - 1];
      assert j < k ==> t[i] == list[i] && t[j] == list[j];
    }
  }

  lemma InsertedIsDistinct(list: seq<Entry>, e: Entry)
    requires DistinctNames(list) && !Listed(list, e.name)
    ensures DistinctNames(Inserted(list, e))
  {
    hide Spliced, Position;
    var k := Position(list, e.modifyTime);
    var t := Spliced(list, e, k);
    SplicedAt(list, e, k);
    forall i, j | 0 <= i < j < |t|
      ensures t[i].name != t[j].name
    {
      assert i > k ==> t[i] == list[i - 1];
      assert j > k ==> t[j] == list[j - 1];
      assert j < k ==> t[i] == list[i] && t[j] == list[j];
    }
  }

  lemma AddKeepsOrder(l: Ledger, c: Call)
    requires InOrder(l) && Accepts(l.list, c)
    ensures InOrder(After(l, c))
  {
    hide Ordered, DistinctNames, Listed, Position;
    var e := Entry(c.name, c.modifyTime);
    InsertedIsOrdered(l.list, e);
    InsertedIsDistinct(l.list, e);
    SplicedBag(l.list, e, Position(l.list, e.modifyTime));
  }

  lemma RestInOrder(list: seq<Entry>)
    requires list != [] && Ordered(list) && DistinctNames(list)
    ensures Ordered(list[1..]) && DistinctNames(list[1..])
  {
  }

  lemma DeleteKeepsOrder(l: Ledger, c: Call)
    requires InOrder(l) && HandsOut(l.list, c)
    ensures InOrder(After(l, c))
  {
    hide Ordered, DistinctNames, Listed, Position;
    RestInOrder(l.list);
    assert l.list == [l.list[0]] + l.list[1..];
  }

  lemma CallKeepsOrder(l: Ledger, c: Call)
    requires InOrder(l)
    ensures InOrder(After(l, c))
  {
    hide InOrder, Accepts, HandsOut;
    if Accepts(l.list, c) {
      AddKeepsOrder(l, c);
    } else if HandsOut(l.list, c) {
      DeleteKeepsOrder(l, c);
    }
  }

  lemma EmptyInOrder()
    ensures InOrder(Ledger([], multiset{}, []))
  {
  }

  /** Over every run of calls the list stays ordered, without a name twice, and no entry is lost or made up. */
  lemma {:induction false} RunsKeepOrder(calls: seq<Call>)
    ensures InOrder(AfterAll(calls))
  {
    hide InOrder, After;
    if calls != [] {
      RunsKeepOrder(calls[..|calls| - 1]);
      CallKeepsOrder(AfterAll(calls[..|calls| - 1]), calls[|calls| - 1]);
    } else {
      EmptyInOrder();
    }
  }

  /** What a call hands out after any run is a file at least as old as every other that waits. */
  lemma OldestGoesFirst(calls: seq<Call>, c: Call)
    requires HandsOut(AfterAll(calls).list, c)
    ensures
      var l := AfterAll(calls);
      After(l, c).sent == l.sent + [l.list[0]]
      && forall i :: 0 <= i < |l.list| ==> l.list[0].modifyTime <= l.list[i].modifyTime
  {
    RunsKeepOrder(calls);
  }

  /** A call to delete hands out the first name unless there is none, the count is zero, or the name does not fit. */
  lemma DeleteDelivers(list: seq<Entry>, bufSize: nat)
    ensures
      var c := DeleteCall(bufSize);
      if list == [] || |list| % 0x1_0000_0000 == 0 || |list[0].name| > bufSize then
        Handed(list, c) == None && ListAfter(list, c) == list
      else
        Handed(list, c) == Some(list[0].name) && list == [list[0]] + ListAfter(list, c)
  {
  }

  /**
   A file that was sent before or is listed changes nothing; any other is put behind all strictly older files and
   in front of the rest.
   */
  lemma AddDelivers(list: seq<Entry>, name: string, modifyTime: int, logged: bool)
    ensures
      var after := ListAfter(list, AddCall(name, modifyTime, logged));
      if logged || (exists e <- list :: e.name == name) then after == list
      else
        exists k :: 0 <= k <= |list| && after == list[..k] + [Entry(name, modifyTime)] + list[k..]
          && (forall i :: 0 <= i < k ==> list[i].modifyTime < modifyTime)
          && (k < |list| ==> list[k].modifyTime >= modifyTime)
  {
    if logged || (exists e <- list :: e.name == name) {
      if e :| e in list && e.name == name {
        var i :| 0 <= i < |list| && list[i] == e;
      }
    } else {
      var k := Position(list, modifyTime);
      assert !Listed(list, name);
      assert ListAfter(list, AddCall(name, modifyTime, logged))
          == list[..k] + [Entry(name, modifyTime)] + list[k..];
    }
  }

  function Deletes(l: Ledger, n: nat, bufSize: nat): Ledger {
    if n == 0 then l else After(Deletes(l, n - 1, bufSize), DeleteCall(bufSize))
  }

  lemma OneDelete(l: Ledger, bufSize: nat)
    requires 0 < |l.list| < 0x1_0000_0000 && |l.list[0].name| <= bufSize
    ensures After(l, DeleteCall(bufSize)) == Ledger(l.list[1..], l.accepted, l.sent + [l.list[0]])
  {
  }

  /** With a buffer that is long enough, n deletes hand out the first n files in the order of their times. */
  lemma {:induction false} DeletesHandOut(l: Ledger, n: nat, bufSize: nat)
    requires n <= |l.list| < 0x1_0000_0000
    requires forall e <- l.list :: |e.name| <= bufSize
    ensures Deletes(l, n, bufSize) == Ledger(l.list[n..], l.accepted, l.sent + l.list[..n])
  {
    hide After;
    if n == 0 {
      assert l.list[0..] == l.list && l.sent + l.list[..0] == l.sent;
    } else {
      DeletesHandOut(l, n - 1, bufSize);
      var before := Deletes(l, n - 1, bufSize);
      assert before.list[0] == l.list[n - 1] && before.list[0] in l.list;
      OneDelete(before, bufSize);
      assert l.list[n - 1..][1..] == l.list[n..];
      assert l.list[..n] == l.list[..n - 1] + [l.list[n - 1]];
    }
  }

  /** So after any run of calls the list can be emptied, and every file ever taken in has then been handed out once. */
  lemma EverythingIsSent(calls: seq<Call>, bufSize: nat)
    requires |AfterAll(calls).list| < 0x1_0000_0000
    requires forall e <- AfterAll(calls).list :: |e.name| <= bufSize
    ensures
      var l := AfterAll(calls);
      var d := Deletes(l, |l.list|, bufSize);
      d.list == [] && d.sent == l.sent + l.list && multiset(d.sent) == l.accepted
  {
    var l := AfterAll(calls);
    RunsKeepOrder(calls);
    hide After, ListAfter, AfterAll, Ordered, DistinctNames;
    DeletesHandOut(l, |l.list|, bufSize);
    assert l.list[..|l.list|] == l.list;
  }
}
