/**
 The two `send_queue` scans over the seed file, as sequential code: which batches one scan offers to its
 queue. What the disk answers while a line is looked at is a parameter, one answer a line.
 */
module Dispatch {
  import opened Basics

  /** A well-formed seed line: url, page file, query, and the item file the page file name stands for. */
  datatype SeedLine = SeedLine(url: string, html: string, query: string, item: string)

  const PARSE_BATCH: nat := 20
  const DEFAULT_PAGE_BATCH: nat := 20

  /** The elements whose answer is "not there", in order. */
  function Missing<T>(lines: seq<T>, there: seq<bool>): seq<T>
    requires |lines| == |there|
  {
    if lines == [] then []
    else
      var n := |lines| - 1;
      Missing(lines[..n], there[..n]) + if there[n] then [] else [lines[n]]
  }

  lemma MissingNext<T>(lines: seq<T>, there: seq<bool>, i: nat)
    requires |lines| == |there| && i < |lines|
    ensures
      Missing(lines[..i + 1], there[..i + 1])
      == Missing(lines[..i], there[..i]) + if there[i] then [] else [lines[i]]
  {
    assert lines[..i + 1][..i] == lines[..i] && there[..i + 1][..i] == there[..i];
  }

  lemma NoneMissing<T>(lines: seq<T>, there: seq<bool>)
    requires |lines| == |there|
    ensures Missing(lines[..0], there[..0]) == []
  {
  }

  lemma MissingOne<T>(line: T, there: bool)
    ensures Missing([line], [there]) == if there then [] else [line]
  {
  }

  /** What is missing of two lists is what is missing of the one and then what is missing of the other. */
  lemma {:induction false} MissingTogether<T>(a: seq<T>, b: seq<T>, thereA: seq<bool>, thereB: seq<bool>)
    requires |a| == |thereA| && |b| == |thereB|
    ensures Missing(a + b, thereA + thereB) == Missing(a, thereA) + Missing(b, thereB)
  {
    if b == [] {
      assert a + b == a && thereA + thereB == thereA;
    } else {
      var n := |b| - 1;
      assert (a + b)[..|a| + n] == a + b[..n] && (thereA + thereB)[..|a| + n] == thereA + thereB[..n];
      MissingTogether(a, b[..n], thereA, thereB[..n]);
    }
  }

  /** Nothing is missing exactly when every answer was "there". */
  lemma {:induction false} NothingMissing<T>(lines: seq<T>, there: seq<bool>)
    requires |lines| == |there|
    ensures Missing(lines, there) == [] <==> forall k :: 0 <= k < |there| ==> there[k]
  {
    if lines == [] {
    } else {
      var n := |lines| - 1;
      NothingMissing(lines[..n], there[..n]);
    }
  }

  /** A first batch of `first`, then full ones, then what is left. */
  ghost predicate Cut<T>(batches: seq<seq<T>>, first: nat, size: nat) {
    forall b :: 0 <= b < |batches| ==>
      && 0 < |batches[b]| <= (if b == 0 then first else size)
      && (b < |batches| - 1 ==> |batches[b]| == if b == 0 then first else size)
  }

  /** The state of a scan that has seen `counter` missing lines: full batches so far, and the one in hand. */
  ghost predicate Batching<T>(batches: seq<seq<T>>, inHand: seq<T>, counter: nat, first: nat, size: nat) {
    && (forall b :: 0 <= b < |batches| ==> |batches[b]| == if b == 0 then first else size)
    && (if batches == [] then |inHand| == counter < first
        else |inHand| < size && counter == first + (|batches| - 1) * size + |inHand|)
  }

  ghost predicate Due<T>(batches: seq<seq<T>>, inHand: seq<T>, first: nat, size: nat) {
    |inHand| + 1 == if batches == [] then first else size
  }

  /** A scan that has cut the lines `missing` so far. */
  ghost predicate Scanned<T>(batches: seq<seq<T>>, inHand: seq<T>, missing: seq<T>, first: nat, size: nat) {
    Flatten(batches) + inHand == missing && Batching(batches, inHand, |missing|, first, size)
  }

  lemma NothingScanned<T>(first: nat, size: nat)
    requires 0 < first
    ensures Scanned<T>([], [], [], first, size)
  {
  }

  lemma BatchGrows<T>(batches: seq<seq<T>>, inHand: seq<T>, counter: nat, first: nat, size: nat, line: T)
    requires Batching(batches, inHand, counter, first, size) && 0 < size
    ensures
      if Due(batches, inHand, first, size) then
        Batching(batches + [inHand + [line]], [], counter + 1, first, size)
      else
        Batching(batches, inHand + [line], counter + 1, first, size)
  {
    if Due(batches, inHand, first, size) && batches != [] {
      TimesNext(|batches| - 1, size);
    }
  }

  /** One more missing line: it fills the batch in hand when that is due, and joins it otherwise. */
  lemma LineScanned<T>(batches: seq<seq<T>>, inHand: seq<T>, missing: seq<T>, first: nat, size: nat, line: T)
    requires Scanned(batches, inHand, missing, first, size) && 0 < size
    ensures
      if Due(batches, inHand, first, size) then
        Scanned(batches + [inHand + [line]], [], missing + [line], first, size)
      else
        Scanned(batches, inHand + [line], missing + [line], first, size)
  {
    hide Batching, Due, Flatten;
    BatchGrows(batches, inHand, |missing|, first, size, line);
    FlattenNext(batches, inHand + [line]);
    assert Flatten(batches) + (inHand + [line]) == missing + [line];
    assert Flatten(batches) + (inHand + [line]) + [] == missing + [line];
  }

  lemma BatchingCut<T>(batches: seq<seq<T>>, inHand: seq<T>, counter: nat, first: nat, size: nat)
    requires Batching(batches, inHand, counter, first, size) && 0 < first
    ensures inHand == [] ==> Cut(batches, first, size)
    ensures inHand != [] ==> Cut(batches + [inHand], first, size)
  {
  }

  /** At the end what is in hand goes out as the last batch. */
  lemma ScanEnds<T>(batches: seq<seq<T>>, inHand: seq<T>, missing: seq<T>, first: nat, size: nat)
    requires Scanned(batches, inHand, missing, first, size) && 0 < first
    ensures
      var all := if inHand == [] then batches else batches + [inHand];
      Flatten(all) == missing && Cut(all, first, size)
  {
    hide Batching, Cut, Flatten;
    BatchingCut(batches, inHand, |missing|, first, size);
    FlattenNext(batches, inHand);
    assert Flatten(batches) + [] == Flatten(batches);
  }

  lemma ParseDue<T>(batches: seq<seq<T>>, inHand: seq<T>, missing: seq<T>)
    requires Scanned(batches, inHand, missing, 1, PARSE_BATCH)
    ensures |missing| % PARSE_BATCH == 0 <==> Due(batches, inHand, 1, PARSE_BATCH)
  {
    hide Flatten;
  }

  /** The batch in hand is full exactly when the line counter is a multiple of the batch size. */
  lemma DueIff(size: nat, full: nat, inHand: nat)
    requires inHand < size
    ensures (1 + full * size + inHand) % size == 0 <==> inHand == size - 1
  {
    if inHand == size - 1 {
      TimesNext(full, size);
      QuotientIs(full + 1, size, 0);
    } else {
      QuotientIs(full, size, inHand + 1);
    }
  }

  lemma FirstDue(counter: nat, size: nat)
    requires 0 < size
    ensures counter <= size ==> (counter > 0 && counter % size == 0 <==> counter == size)
  {
  }

  lemma DownDue<T>(batches: seq<seq<T>>, inHand: seq<T>, missing: seq<T>, size: nat)
    requires size > 0 && Scanned(batches, inHand, missing, size + 1, size)
    ensures |missing| > 0 && |missing| % size == 0 <==> Due(batches, inHand, size + 1, size)
  {
    hide Flatten;
    if batches == [] {
      FirstDue(|missing|, size);
    } else {
      DueIff(size, |batches|, |inHand|);
      TimesNext(|batches| - 1, size);
    }
  }

  /** The parse dispatcher: the first missing line goes alone, the others in twenties. */
  method SendParse(lines: seq<SeedLine>, itemThere: seq<bool>) returns (batches: seq<seq<SeedLine>>, counter: nat)
    requires |lines| == |itemThere|
    ensures Flatten(batches) == Missing(lines, itemThere)
    ensures counter == |Missing(lines, itemThere)|
    ensures Cut(batches, 1, 20)
  {
    hide Scanned, Due, Cut, Missing, Flatten;
    batches, counter := [], 0;
    var curList := [];
    ghost var missing := [];
    NothingScanned<SeedLine>(1, PARSE_BATCH);
    NoneMissing(lines, itemThere);
    for i := 0 to |lines|
      invariant missing == Missing(lines[..i], itemThere[..i]) && counter == |missing|
      invariant Scanned(batches, curList, missing, 1, PARSE_BATCH)
    {
      MissingNext(lines, itemThere, i);
      if itemThere[i] {
        continue;
      }
      ParseDue(batches, curList, missing);
      LineScanned(batches, curList, missing, 1, PARSE_BATCH, lines[i]);
      missing := missing + [lines[i]];
      curList := curList + [lines[i]];
      if counter % PARSE_BATCH == 0 {
        batches := batches + [curList];
        curList := [];
      }
      counter := counter + 1;
    }
    assert lines[..|lines|] == lines && itemThere[..|lines|] == itemThere;
    ScanEnds(batches, curList, missing, 1, PARSE_BATCH);
    if |curList| > 0 {
      batches := batches + [curList];
    }
  }

  /** How the scan found a page file. */
  datatype PageFile = Absent | Present(size: nat)

  predicate Kept(page: PageFile, limit: int) {
    page.Present? && page.size > limit
  }

  function KeptAll(pages: seq<PageFile>, limit: int): (kept: seq<bool>)
    ensures |kept| == |pages|
    ensures forall i :: 0 <= i < |pages| ==> (kept[i] <==> Kept(pages[i], limit))
  {
    seq(|pages|, i requires 0 <= i < |pages| => Kept(pages[i], limit))
  }

  function NotSmallAll(pages: seq<PageFile>, limit: int): (notSmall: seq<bool>)
    ensures |notSmall| == |pages|
    ensures forall i :: 0 <= i < |pages| ==> (notSmall[i] <==> pages[i].Absent? || pages[i].size > limit)
  {
    seq(|pages|, i requires 0 <= i < |pages| => pages[i].Absent? || pages[i].size > limit)
  }

  function PageBatch(pagesPerProxy: int): (n: nat)
    ensures n > 0
  {
    if pagesPerProxy <= 0 then DEFAULT_PAGE_BATCH else pagesPerProxy
  }

  lemma PageAnswers(pages: seq<PageFile>, limit: int, i: nat)
    requires i < |pages|
    ensures KeptAll(pages, limit)[i] <==> pages[i].Present? && pages[i].size > limit
    ensures NotSmallAll(pages, limit)[i] <==> pages[i].Absent? || pages[i].size > limit
  {
  }

  lemma PageBatchIs(pagesPerProxy: int)
    ensures PageBatch(pagesPerProxy) == if pagesPerProxy <= 0 then 20 else pagesPerProxy
  {
  }

  /**
   The download dispatcher: pages that are absent, or too small and therefore removed, go out in batches; the
   first batch is one line longer than the others.
   */
  method SendDown(lines: seq<SeedLine>, pages: seq<PageFile>, limit: int, pagesPerProxy: int)
    returns (batches: seq<seq<SeedLine>>, counter: nat, removed: seq<SeedLine>)
    requires |lines| == |pages|
    ensures Flatten(batches) == Missing(lines, KeptAll(pages, limit))
    ensures counter == |Missing(lines, KeptAll(pages, limit))|
    ensures Cut(batches, PageBatch(pagesPerProxy) + 1, PageBatch(pagesPerProxy))
    ensures removed == Missing(lines, NotSmallAll(pages, limit))
  {
    hide Scanned, Due, Cut, Missing, Flatten, KeptAll, NotSmallAll, PageBatch;
    var perProxy := pagesPerProxy;
    if perProxy <= 0 {
      perProxy := DEFAULT_PAGE_BATCH;
    }
    PageBatchIs(pagesPerProxy);
    ghost var kept, notSmall := KeptAll(pages, limit), NotSmallAll(pages, limit);
    batches, counter, removed := [], 0, [];
    var urlList := [];
    ghost var missing := [];
    NothingScanned<SeedLine>(perProxy + 1, perProxy);
    NoneMissing(lines, kept);
    NoneMissing(lines, notSmall);
    for i := 0 to |lines|
      invariant missing == Missing(lines[..i], kept[..i]) && counter == |missing|
      invariant Scanned(batches, urlList, missing, perProxy + 1, perProxy)
      invariant removed == Missing(lines[..i], notSmall[..i])
    {
      MissingNext(lines, kept, i);
      MissingNext(lines, notSmall, i);
      PageAnswers(pages, limit, i);
      if pages[i].Present? {
        if pages[i].size <= limit {
          removed := removed + [lines[i]];
        } else {
          continue;
        }
      }
      DownDue(batches, urlList, missing, perProxy);
      LineScanned(batches, urlList, missing, perProxy + 1, perProxy, lines[i]);
      missing := missing + [lines[i]];
      urlList := urlList + [lines[i]];
      if counter > 0 && counter % perProxy == 0 {
        batches := batches + [urlList];
        urlList := [];
      }
      counter := counter + 1;
    }
    assert lines[..|lines|] == lines && kept[..|lines|] == kept && notSmall[..|lines|] == notSmall;
    ScanEnds(batches, urlList, missing, perProxy + 1, perProxy);
    if |urlList| > 0 {
      batches := batches + [urlList];
    }
  }
}
