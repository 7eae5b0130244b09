/**
 The two bounded queues between dispatchers and workers. Every method is one critical section: waiting for
 room is the precondition of `AddQueue`, and a `GetQueue` that timed out is one on an empty queue.
 */
module Queues {
  const PARSE_CAPACITY := 50
  const DOWN_CAPACITY := 5

  /** How many lines one `GetQueue(num)` takes: all of them, or one fewer than asked for. */
  function TakeCount(size: nat, num: nat): (k: nat)
    ensures k <= size
  {
    if size <= num then size else if num == 0 then 0 else num - 1
  }

  /**
   A get takes the whole queue when that is no more than asked for, and otherwise leaves it one short of what was
   asked for; so a non-empty queue gives up something unless exactly one line is asked of several.
   */
  lemma TakeCountDelivers(size: nat, num: nat)
    requires size > 0 && num > 0
    ensures TakeCount(size, num) == size <==> size <= num
    ensures size > num ==> num - TakeCount(size, num) == 1
    ensures TakeCount(size, num) > 0 <==> num >= 2 || size == 1
  {
  }

  class ParseQueue<T> {
    var queue: seq<T>
    var isFinish: bool

    ghost predicate Valid()
      reads this
    {
      |queue| <= PARSE_CAPACITY
    }

    constructor ()
      ensures Valid() && queue == [] && !isFinish
    {
      queue, isFinish := [], false;
    }

    /** Puts the batch in front of what is queued; the caller's list is spliced away. */
    method AddQueue(data: seq<T>) returns (status: int, data': seq<T>)
      requires Valid()
      requires |data| + |queue| <= PARSE_CAPACITY
      modifies this`queue
      ensures Valid()
      ensures data == [] ==> status == -1 && queue == old(queue) && data' == data
      ensures data != [] ==> status == 0 && queue == data + old(queue) && data' == []
      ensures multiset(queue) + multiset(data') == old(multiset(queue)) + multiset(data)
    {
      if data == [] {
        return -1, data;
      }
      queue := data + queue;
      return 0, [];
    }

    method GetQueue(num: nat, data: seq<T>) returns (status: int, data': seq<T>)
      requires Valid()
      modifies this`queue
      ensures Valid()
      ensures num == 0 ==> status == -1 && data' == data && queue == old(queue)
      ensures num > 0 ==>
        && status == 0
        && data' == old(queue)[..TakeCount(|old(queue)|, num)]
        && queue == old(queue)[TakeCount(|old(queue)|, num)..]
        && multiset(queue) + multiset(data') == old(multiset(queue))
    {
      if num == 0 {
        return -1, data;
      }
      ghost var was := queue;
      var iter := 0;
      if |queue| <= num {
        data', queue := queue, [];
      } else {
        var i := 1;
        while i < num
          invariant iter + 1 == i <= num
        {
          iter, i := iter + 1, i + 1;
        }
        data', queue := queue[..iter], queue[iter..];
      }
      assert data' + queue == was;
      status := 0;
    }
  }

  /** Batches merged front to back, an entry already present winning over a later one. */
  function MergeFirst<V>(batches: seq<map<string, V>>): (m: map<string, V>)
  {
    if batches == [] then map[] else batches[|batches| - 1] + MergeFirst(batches[..|batches| - 1])
  }

  /** A proxy gets the first batch queued for it, and later batches for it are dropped. */
  lemma {:induction false} FirstBatchWins<V>(batches: seq<map<string, V>>, proxy: string)
    ensures proxy in MergeFirst(batches) <==> exists i :: 0 <= i < |batches| && proxy in batches[i]
    ensures forall i ::
      0 <= i < |batches| && proxy in batches[i] && (forall j :: 0 <= j < i ==> proxy !in batches[j])
      ==> MergeFirst(batches)[proxy] == batches[i][proxy]
  {
    if batches == [] {
    } else {
      var last := |batches| - 1;
      var front := batches[..last];
      FirstBatchWins(front, proxy);
      if i :| 0 <= i < |front| && proxy in front[i] {
        assert proxy in batches[i];
      }
      if proxy in MergeFirst(batches) {
        if proxy in MergeFirst(front) {
          var i :| 0 <= i < |front| && proxy in front[i];
          assert proxy in batches[i];
        } else {
          assert proxy in batches[last];
        }
      }
      forall i | 0 <= i < |batches| && proxy in batches[i] && forall j :: 0 <= j < i ==> proxy !in batches[j]
        ensures MergeFirst(batches)[proxy] == batches[i][proxy]
      {
        if i < last {
          assert proxy in front[i];
          assert forall j :: 0 <= j < i ==> front[j] == batches[j];
        }
      }
    }
  }

  class DownQueue<V> {
    var queue: seq<map<string, V>>
    var isFinish: bool

    ghost predicate Valid()
      reads this
    {
      |queue| <= DOWN_CAPACITY
    }

    constructor ()
      ensures Valid() && queue == [] && !isFinish
    {
      queue, isFinish := [], false;
    }

    method AddQueue(data: map<string, V>) returns (status: int)
      requires Valid()
      requires |data| + |queue| <= DOWN_CAPACITY
      modifies this`queue
      ensures Valid()
      ensures data == map[] ==> status == -1 && queue == old(queue)
      ensures data != map[] ==> status == 0 && queue == old(queue) + [data]
    {
      if |data| == 0 {
        return -1;
      }
      queue := queue + [data];
      status := 0;
    }

    /** Empties the queue into one map. */
    method GetQueue() returns (status: int, data: map<string, V>)
      requires Valid()
      modifies this`queue
      ensures Valid() && queue == []
      ensures status == 0 && data == MergeFirst(old(queue))
    {
      data := map[];
      ghost var was, taken := queue, 0;
      while |queue| > 0
        invariant taken <= |was| && queue == was[taken..]
        invariant data == MergeFirst(was[..taken])
      {
        var element := queue[0];
        var keys := element.Keys;
        ghost var before := data;
        while keys != {}
          invariant keys <= element.Keys
          invariant data.Keys == before.Keys + (element.Keys - keys)
          invariant forall k :: k in data ==> data[k] == (if k in before then before[k] else element[k])
          decreases keys
        {
          var proxy :| proxy in keys;
          if proxy !in data {
            data := data[proxy := element[proxy]];
          }
          keys := keys - {proxy};
        }
        assert data == element + before;
        assert was[..taken + 1][..taken] == was[..taken];
        queue, taken := queue[1..], taken + 1;
      }
      assert was[..taken] == was;
      status := 0;
    }
  }
}
