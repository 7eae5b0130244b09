/**
 What one scan of the download dispatcher does in a run, while pages come and go under it: which lines it offers,
 in which batches, which pages it removes, and what is in the queue at any time.
 */
module PipelineDownScans {
  import opened Basics
  import opened Queues
  import opened Dispatch
  import opened Pipeline
  import PipelineScans

  predicate InDownScan(d: DownSide) {
    d.at.DownerScan? || d.at.DownerOffer?
  }

  /** From state `i` to state `j` the dispatcher is in one scan, which begins at `i` with opening the seed file. */
  ghost predicate OneDownScan(states: seq<State>, actions: seq<Action>, i: nat, j: nat)
    requires |states| == |actions| + 1
  {
    && 0 < i <= j < |states| && actions[i - 1] == DownerAct(DownerAction.Opens(true))
    && forall m :: i <= m <= j ==> InDownScan(states[m].down)
  }

  /** A page is good enough when it is there and larger than the limit. */
  predicate GoodPage(c: Config, pages: map<string, nat>, line: SeedLine) {
    line.html in pages && pages[line.html] > c.pageLimit
  }

  predicate LooksAtLine(c: Config, s: State, a: Action) {
    a.DownerAct? && a.downer.Looks? && s.down.at.DownerScan? && s.down.at.line < |c.seed|
  }

  /** One answer for each line looked at: was its page good enough in the state it was looked at? */
  function DownAnswers(c: Config, states: seq<State>, actions: seq<Action>, i: nat, j: nat): seq<bool>
    requires i <= j < |states| == |actions| + 1
    decreases j - i
  {
    if i == j then []
    else
      var s := states[j - 1];
      DownAnswers(c, states, actions, i, j - 1)
      + if LooksAtLine(c, s, actions[j - 1]) then [GoodPage(c, s.disk.pages, c.seed[s.down.at.line])] else []
  }

  predicate OffersBatch(s: State, a: Action) {
    a.DownerAct? && a.downer.Offers? && s.down.at.DownerOffer?
  }

  /** The batches offered to the queue from state `i` to state `j`. */
  function Offered(states: seq<State>, actions: seq<Action>, i: nat, j: nat): seq<Batch>
    requires i <= j < |states| == |actions| + 1
    decreases j - i
  {
    if i == j then []
    else
      var s := states[j - 1];
      Offered(states, actions, i, j - 1) + if OffersBatch(s, actions[j - 1]) then [s.down.at.batch] else []
  }

  /** The lines of a batch for one proxy. */
  ghost function LinesOf(batch: Batch): seq<SeedLine> {
    if proxy :| proxy in batch then batch[proxy] else []
  }

  lemma LinesOfOne(proxy: string, lines: seq<SeedLine>)
    ensures |map[proxy := lines]| == 1 && LinesOf(map[proxy := lines]) == lines
  {
    assert proxy in map[proxy := lines];
  }

  ghost function AllLines(batches: seq<Batch>): (ls: seq<seq<SeedLine>>)
    ensures |ls| == |batches|
  {
    seq(|batches|, k requires 0 <= k < |batches| => LinesOf(batches[k]))
  }

  lemma AllLinesNext(batches: seq<Batch>, batch: Batch)
    ensures AllLines(batches + [batch]) == AllLines(batches) + [LinesOf(batch)]
  {
    hide LinesOf;
  }

  /** Everything the scan has let go so far, and the batch on offer if there is one. */
  ghost function OutOf(d: DownSide, batches: seq<seq<SeedLine>>): seq<seq<SeedLine>> {
    if d.at.DownerOffer? then batches + [LinesOf(d.at.batch)] else batches
  }

  function InHandOf(d: DownSide): seq<SeedLine> {
    if d.at.DownerScan? then d.at.urls else []
  }

  /**
   What a scan has done: the lines without a good page so far are those in the batches it offered, the one on offer
   and those in hand, in order, and it counts them; the batches are cut as the page number of a proxy asks.
   */
  ghost predicate DownScanState(c: Config, d: DownSide, good: seq<bool>, batches: seq<seq<SeedLine>>) {
    && InDownScan(d)
    && |good| == d.at.line <= |c.seed|
    && var missing, size := Missing(c.seed[..d.at.line], good), PageBatch(c.pagesPerProxy);
    && d.at.counter == |missing|
    && (d.at.DownerOffer? ==> |d.at.batch| == 1)
    && (if d.at.DownerOffer? && d.at.last then
          && d.at.line == |c.seed|
          && Flatten(OutOf(d, batches)) == missing && Cut(OutOf(d, batches), size + 1, size)
        else Dispatch.Scanned(OutOf(d, batches), InHandOf(d), missing, size + 1, size))
  }

  // ---- one step ----

  /** Looking at a line moves on by one; without a good page the line joins those in hand, or fills the batch. */
  lemma DownLookIs(c: Config, pages: map<string, nat>, exit: bool, d: DownSide, proxy: string)
    requires DownerEnabled(c, d, DownerAction.Looks(proxy))
    ensures
      var at, q := d.at, DownerApply(c, pages, exit, d, DownerAction.Looks(proxy)).at;
      var line, size := c.seed[at.line], PageBatch(c.pagesPerProxy);
      if GoodPage(c, pages, line) then q == DownerScan(at.line + 1, at.urls, at.counter)
      else if at.counter > 0 && at.counter % size == 0 then
        q == DownerOffer(at.line + 1, map[proxy := at.urls + [line]], at.counter + 1, false)
      else q == DownerScan(at.line + 1, at.urls + [line], at.counter + 1)
  {
    hide PageBatch;
  }

  lemma DownLookScans(c: Config, pages: map<string, nat>, exit: bool, d: DownSide, proxy: string, good: seq<bool>,
                      batches: seq<seq<SeedLine>>)
    requires DownScanState(c, d, good, batches) && DownerEnabled(c, d, DownerAction.Looks(proxy))
    ensures DownScanState(c, DownerApply(c, pages, exit, d, DownerAction.Looks(proxy)),
                          good + [GoodPage(c, pages, c.seed[d.at.line])], batches)
  {
    hide Missing, DownerApply, Dispatch.Scanned, Flatten, Cut, PageBatch, LinesOf, Due, GoodPage;
    DownLookIs(c, pages, exit, d, proxy);
    var DownerScan(line, urls, counter) := d.at;
    var seen, size := c.seed[..line], PageBatch(c.pagesPerProxy);
    var answer := GoodPage(c, pages, c.seed[line]);
    assert c.seed[..line + 1] == seen + [c.seed[line]];
    PipelineScans.LongerMissing(seen, good, c.seed[line], answer);
    var missing := Missing(seen, good);
    if answer {
      assert missing + [] == missing;
    } else {
      DownDue(batches, urls, missing, size);
      LineScanned(batches, urls, missing, size + 1, size, c.seed[line]);
      LinesOfOne(proxy, urls + [c.seed[line]]);
    }
  }

  /** Everything a finished scan did: all lines looked at, and those without a good page offered and counted. */
  ghost predicate DownScanEnds(c: Config, good: seq<bool>, batches: seq<seq<SeedLine>>, count: nat) {
    && |good| == |c.seed|
    && count == |Missing(c.seed, good)|
    && Flatten(batches) == Missing(c.seed, good)
    && Cut(batches, PageBatch(c.pagesPerProxy) + 1, PageBatch(c.pagesPerProxy))
  }

  /** At the end of the file the lines in hand go on offer. */
  lemma LastLinesScan(c: Config, pages: map<string, nat>, exit: bool, d: DownSide, proxy: string, good: seq<bool>,
                      batches: seq<seq<SeedLine>>)
    requires DownScanState(c, d, good, batches) && DownerEnabled(c, d, DownerAction.Scanned(proxy))
    ensures
      var e := DownerApply(c, pages, exit, d, DownerAction.Scanned(proxy));
      if d.at.urls != [] then DownScanState(c, e, good, batches)
      else e.at == DownerDrain(d.at.counter) && DownScanEnds(c, good, batches, d.at.counter)
  {
    hide Missing, Dispatch.Scanned, Flatten, Cut, PageBatch, LinesOf;
    var DownerScan(line, urls, counter) := d.at;
    var size := PageBatch(c.pagesPerProxy);
    assert c.seed[..|c.seed|] == c.seed;
    ScanEnds(batches, urls, Missing(c.seed, good), size + 1, size);
    LinesOfOne(proxy, urls);
  }

  /** The batch on offer has gone out; the scan goes on with nothing in hand, or is over. */
  lemma DownOfferScans(c: Config, pages: map<string, nat>, exit: bool, d: DownSide, good: seq<bool>,
                       batches: seq<seq<SeedLine>>)
    requires DownScanState(c, d, good, batches) && DownerEnabled(c, d, DownerAction.Offers)
    ensures
      var e := DownerApply(c, pages, exit, d, DownerAction.Offers);
      var batches' := batches + [LinesOf(d.at.batch)];
      if d.at.last then e.at == DownerDrain(d.at.counter) && DownScanEnds(c, good, batches', d.at.counter)
      else DownScanState(c, e, good, batches')
  {
    hide Missing, Dispatch.Scanned, Flatten, Cut, PageBatch, LinesOf;
    assert c.seed[..|c.seed|] == c.seed;
  }

  /** Nobody else moves the dispatcher. */
  lemma OthersLeaveDownScan(c: Config, s: State, a: Action)
    requires Enabled(c, s, a) && !a.DownerAct? && InDownScan(s.down)
    ensures Apply(c, s, a).down.at == s.down.at
  {
    hide ParserEnabled, ParserApply, ParseWorkerEnabled, ParseWorkerApply, DownerEnabled, DownerApply, MergeFirst,
      TakeCount, DownerPages, DownWorkerPages, ParseWorkerDisk;
  }

  function GoodAfter(c: Config, s: State, a: Action, good: seq<bool>): seq<bool> {
    good + if LooksAtLine(c, s, a) then [GoodPage(c, s.disk.pages, c.seed[s.down.at.line])] else []
  }

  ghost function OfferedAfter(s: State, a: Action, batches: seq<seq<SeedLine>>): seq<seq<SeedLine>> {
    batches + if OffersBatch(s, a) then [LinesOf(s.down.at.batch)] else []
  }

  lemma InScanIs(c: Config, d: DownSide, good: seq<bool>, batches: seq<seq<SeedLine>>)
    requires DownScanState(c, d, good, batches)
    ensures InDownScan(d)
  {
  }

  lemma DownerStepScans(c: Config, s: State, a: DownerAction, good: seq<bool>, batches: seq<seq<SeedLine>>)
    requires DownerEnabled(c, s.down, a) && DownScanState(c, s.down, good, batches)
    ensures
      var e := DownerApply(c, s.disk.pages, s.parse.exit, s.down, a);
      var good', batches' := GoodAfter(c, s, DownerAct(a), good), OfferedAfter(s, DownerAct(a), batches);
      if InDownScan(e) then DownScanState(c, e, good', batches')
      else e.at.DownerDrain? && e.at.count >= 0 && DownScanEnds(c, good', batches', e.at.count)
  {
    hide DownScanState, DownScanEnds, LinesOf, GoodPage, DownerApply;
    var pages, exit := s.disk.pages, s.parse.exit;
    assert InDownScan(s.down) by {
      InScanIs(c, s.down, good, batches);
    }
    match a
    case Looks(proxy) =>
      DownLookScans(c, pages, exit, s.down, proxy, good, batches);
      InScanIs(c, DownerApply(c, pages, exit, s.down, a), good + [GoodPage(c, pages, c.seed[s.down.at.line])], batches);
      assert batches + [] == batches;
    case Scanned(proxy) =>
      LastLinesScan(c, pages, exit, s.down, proxy, good, batches);
      assert batches + [] == batches && good + [] == good;
      if s.down.at.urls != [] {
        InScanIs(c, DownerApply(c, pages, exit, s.down, a), good, batches);
      }
    case Offers =>
      DownOfferScans(c, pages, exit, s.down, good, batches);
      assert good + [] == good;
      if !s.down.at.last {
        InScanIs(c, DownerApply(c, pages, exit, s.down, a), good, batches + [LinesOf(s.down.at.batch)]);
      }
    case _ =>
  }

  lemma SamePoint(c: Config, d: DownSide, e: DownSide, good: seq<bool>, batches: seq<seq<SeedLine>>)
    requires DownScanState(c, d, good, batches) && e.at == d.at
    ensures DownScanState(c, e, good, batches)
  {
    hide Missing, Dispatch.Scanned, Flatten, Cut, PageBatch, LinesOf;
  }

  lemma StepDownScans(c: Config, s: State, a: Action, good: seq<bool>, batches: seq<seq<SeedLine>>)
    requires Enabled(c, s, a) && DownScanState(c, s.down, good, batches)
    ensures
      var e := Apply(c, s, a).down;
      var good', batches' := GoodAfter(c, s, a, good), OfferedAfter(s, a, batches);
      if InDownScan(e) then DownScanState(c, e, good', batches')
      else e.at.DownerDrain? && e.at.count >= 0 && DownScanEnds(c, good', batches', e.at.count)
  {
    hide DownScanState, DownScanEnds, DownerApply, DownerEnabled, LinesOf;
    InScanIs(c, s.down, good, batches);
    if a.DownerAct? {
      DownerStepScans(c, s, a.downer, good, batches);
    } else {
      OthersLeaveDownScan(c, s, a);
      SamePoint(c, s.down, Apply(c, s, a).down, good, batches);
      assert batches + [] == batches && good + [] == good;
    }
  }

  // ---- runs ----

  lemma OpenBeginsDownScan(c: Config, s: State)
    requires Enabled(c, s, DownerAct(DownerAction.Opens(true)))
    ensures DownScanState(c, Apply(c, s, DownerAct(DownerAction.Opens(true))).down, [], [])
  {
    hide DownerPages;
    NothingScanned<SeedLine>(PageBatch(c.pagesPerProxy) + 1, PageBatch(c.pagesPerProxy));
  }

  lemma AnswersNext(c: Config, states: seq<State>, actions: seq<Action>, i: nat, j: nat)
    requires i < j < |states| == |actions| + 1
    ensures DownAnswers(c, states, actions, i, j)
         == GoodAfter(c, states[j - 1], actions[j - 1], DownAnswers(c, states, actions, i, j - 1))
    ensures AllLines(Offered(states, actions, i, j))
         == OfferedAfter(states[j - 1], actions[j - 1], AllLines(Offered(states, actions, i, j - 1)))
  {
    hide LinesOf, GoodPage;
    var before := Offered(states, actions, i, j - 1);
    if OffersBatch(states[j - 1], actions[j - 1]) {
      AllLinesNext(before, states[j - 1].down.at.batch);
    } else {
      assert before + [] == before && AllLines(before) + [] == AllLines(before);
    }
  }

  lemma NoLines()
    ensures AllLines([]) == []
  {
  }

  /** All through a scan, what it offered, has on offer and has in hand are the lines it found no good page for. */
  lemma {:induction false} DownScanQueuesMissing(c: Config, states: seq<State>, actions: seq<Action>, i: nat, j: nat)
    requires IsRun(c, states, actions) && OneDownScan(states, actions, i, j)
    ensures DownScanState(c, states[j].down, DownAnswers(c, states, actions, i, j),
                          AllLines(Offered(states, actions, i, j)))
    decreases j - i
  {
    hide DownScanState, DownScanEnds, Apply, Enabled, Init, GoodAfter, OfferedAfter, AllLines;
    assert Enabled(c, states[j - 1], actions[j - 1]) && states[j] == Apply(c, states[j - 1], actions[j - 1]);
    if i == j {
      OpenBeginsDownScan(c, states[i - 1]);
      NoLines();
    } else {
      DownScanQueuesMissing(c, states, actions, i, j - 1);
      StepDownScans(c, states[j - 1], actions[j - 1], DownAnswers(c, states, actions, i, j - 1),
                    AllLines(Offered(states, actions, i, j - 1)));
      AnswersNext(c, states, actions, i, j);
      assert InDownScan(states[j].down);
    }
  }

  /**
   In every run, when a download scan is through it has looked at every seed line, has offered exactly the lines
   whose page was absent or at most the limit when they were looked at, in order and in batches of the size asked
   for, the first one longer by one, and returns their number.
   */
  lemma DownScanOffersWhatItMissed(c: Config, states: seq<State>, actions: seq<Action>, i: nat, j: nat)
    requires IsRun(c, states, actions) && j < |actions|
    requires OneDownScan(states, actions, i, j) && !InDownScan(states[j + 1].down)
    ensures
      var at := states[j + 1].down.at;
      && at.DownerDrain? && at.count >= 0
      && DownScanEnds(c, DownAnswers(c, states, actions, i, j + 1), AllLines(Offered(states, actions, i, j + 1)),
                      at.count)
  {
    hide DownScanState, DownScanEnds, Apply, Enabled, Init, GoodAfter, OfferedAfter, AllLines;
    DownScanQueuesMissing(c, states, actions, i, j);
    StepDownScans(c, states[j], actions[j], DownAnswers(c, states, actions, i, j),
                  AllLines(Offered(states, actions, i, j)));
    AnswersNext(c, states, actions, i, j + 1);
  }

  lemma DownerOpensScan(c: Config, pages: map<string, nat>, exit: bool, d: DownSide, a: DownerAction)
    requires DownerEnabled(c, d, a) && !InDownScan(d) && InDownScan(DownerApply(c, pages, exit, d, a))
    ensures a == DownerAction.Opens(true)
  {
    hide DownerLooksAt;
  }

  lemma OthersOpenNoDownScan(c: Config, s: State, a: Action)
    requires Enabled(c, s, a) && !a.DownerAct? && !InDownScan(s.down)
    ensures !InDownScan(Apply(c, s, a).down)
  {
    hide ParserEnabled, ParserApply, ParseWorkerEnabled, ParseWorkerApply, DownerEnabled, DownerApply, MergeFirst,
      TakeCount, DownerPages, DownWorkerPages, ParseWorkerDisk;
  }

  lemma DownOpenedBefore(c: Config, s: State, a: Action)
    requires Enabled(c, s, a) && !InDownScan(s.down) && InDownScan(Apply(c, s, a).down)
    ensures a == DownerAct(DownerAction.Opens(true))
  {
    hide DownerEnabled, DownerApply, ParserEnabled, DownWorkerEnabled, ParseWorkerEnabled, InDownScan;
    if a.DownerAct? {
      DownerOpensScan(c, s.disk.pages, s.parse.exit, s.down, a.downer);
    } else {
      OthersOpenNoDownScan(c, s, a);
    }
  }

  /** Wherever a run finds the dispatcher in a scan, that scan began with opening the file. */
  lemma {:induction false} EveryDownScanBegins(c: Config, states: seq<State>, actions: seq<Action>, j: nat)
    requires IsRun(c, states, actions) && j < |states| && InDownScan(states[j].down)
    ensures exists i :: OneDownScan(states, actions, i, j)
  {
    hide Apply, Enabled;
    if j == 0 {
    } else {
      assert Enabled(c, states[j - 1], actions[j - 1]) && states[j] == Apply(c, states[j - 1], actions[j - 1]);
      if InDownScan(states[j - 1].down) {
        EveryDownScanBegins(c, states, actions, j - 1);
        var i :| OneDownScan(states, actions, i, j - 1);
        assert OneDownScan(states, actions, i, j);
      } else {
        DownOpenedBefore(c, states[j - 1], actions[j - 1]);
        assert OneDownScan(states, actions, j, j);
      }
    }
  }

  /** Looking at a line removes its page exactly when that is there and at most the limit, and no other page. */
  lemma LookRemovesSmallPage(c: Config, s: State, proxy: string)
    requires Enabled(c, s, DownerAct(DownerAction.Looks(proxy)))
    ensures
      var pages, html := s.disk.pages, c.seed[s.down.at.line].html;
      var after := Apply(c, s, DownerAct(DownerAction.Looks(proxy))).disk;
      && after.items == s.disk.items
      && (forall p :: p in after.pages <==> p in pages && (p == html ==> pages[p] > c.pageLimit))
      && forall p <- after.pages :: after.pages[p] == pages[p]
  {
  }

  // ---- the download queue ----

  predicate Empties(a: Action) {
    a.DownWorkerAct? && a.downWork.Gets?
  }

  /** The state behind the last time a worker emptied the queue. */
  function LastGet(actions: seq<Action>, j: nat): (k: nat)
    requires j <= |actions|
    ensures k <= j
  {
    if j == 0 then 0 else if Empties(actions[j - 1]) then j else LastGet(actions, j - 1)
  }

  lemma StepQueues(c: Config, s: State, a: Action)
    requires Enabled(c, s, a)
    ensures Apply(c, s, a).down.queue ==
      if Empties(a) then [] else s.down.queue + if OffersBatch(s, a) then [s.down.at.batch] else []
  {
    hide ParserEnabled, ParserApply, ParseWorkerEnabled, ParseWorkerApply, MergeFirst, TakeCount, DownerPages,
      DownWorkerPages, ParseWorkerDisk, DownerLooksAt;
  }

  /** In every state of every run the queue holds exactly the batches offered since it was last emptied. */
  lemma {:induction false} QueueHoldsOffers(c: Config, states: seq<State>, actions: seq<Action>, j: nat)
    requires IsRun(c, states, actions) && j < |states|
    ensures states[j].down.queue == Offered(states, actions, LastGet(actions, j), j)
  {
    hide Apply, Enabled;
    if j == 0 {
    } else {
      QueueHoldsOffers(c, states, actions, j - 1);
      assert Enabled(c, states[j - 1], actions[j - 1]) && states[j] == Apply(c, states[j - 1], actions[j - 1]);
      StepQueues(c, states[j - 1], actions[j - 1]);
    }
  }

  /** So a worker that empties it gets, for each proxy, the first batch offered for it since then. */
  lemma WorkerGetsOffers(c: Config, states: seq<State>, actions: seq<Action>, j: nat, w: nat, proxy: string)
    requires IsRun(c, states, actions) && j < |actions|
    requires actions[j] == DownWorkerAct(w, DownWorkerAction.Gets)
    ensures w < |states[j + 1].down.workers| && states[j + 1].down.workers[w].DownCheck?
    ensures
      var got, offered := states[j + 1].down.workers[w].got, Offered(states, actions, LastGet(actions, j), j);
      && (proxy in got <==> exists i :: 0 <= i < |offered| && proxy in offered[i])
      && forall i :: 0 <= i < |offered| && proxy in offered[i] && (forall h :: 0 <= h < i ==> proxy !in offered[h]) ==>
           got[proxy] == offered[i][proxy]
  {
    hide MergeFirst, Offered;
    assert Enabled(c, states[j], actions[j]) && states[j + 1] == Apply(c, states[j], actions[j]);
    QueueHoldsOffers(c, states, actions, j);
    FirstBatchWins(states[j].down.queue, proxy);
  }
}
