/** The promises of the crawl task, for every configuration, every schedule and every point of it. */
module PipelineTheorems {
  import opened Queues
  import opened Dispatch
  import opened Pipeline
  import opened PipelineSafety

  /**
   Once the parse dispatcher has told the download side to stop, every seed line has its item file, or the scan
   that made it stop could not open the seed file.
   */
  lemma ExitMeansAllItems(c: Config, states: seq<State>, actions: seq<Action>, i: nat)
    requires IsRun(c, states, actions) && i < |states|
    ensures states[i].parse.exit ==>
      || states[i].parse.openFailed
      || forall k :: 0 <= k < |c.seed| ==> c.seed[k].item in states[i].disk.items
  {
    hide IsRun;
    Always(c, states, actions, i);
  }

  /** While an item file is missing, the download dispatcher is not past its loop, and deciding keeps it in. */
  lemma DownloadStaysInLoop(c: Config, states: seq<State>, actions: seq<Action>, i: nat, k: nat)
    requires IsRun(c, states, actions) && i < |states| && k < |c.seed|
    requires c.seed[k].item !in states[i].disk.items && !states[i].parse.openFailed
    ensures !states[i].parse.exit && !DownerPastLoop(states[i].down.at)
    ensures
      var s := states[i];
      DownerEnabled(c, s.down, DownerAction.Decides) ==>
        DownerApply(c, s.disk.pages, s.parse.exit, s.down, DownerAction.Decides).at == DownerOpen
  {
    Always(c, states, actions, i);
    ExitMeansAllItems(c, states, actions, i);
    hide IsRun;
  }

  lemma ParserIsMonotone(c: Config, items: set<string>, p: ParseSide, a: ParserAction)
    requires ParserEnabled(c, p, a)
    ensures
      var q := ParserApply(c, items, p, a);
      (p.isFinish ==> q.isFinish) && (p.exit ==> q.exit)
  {
    hide ParserLooksAt;
  }

  lemma DownerIsMonotone(c: Config, pages: map<string, nat>, parseExit: bool, d: DownSide, a: DownerAction)
    requires DownerEnabled(c, d, a)
    ensures
      var e := DownerApply(c, pages, parseExit, d, a);
      (d.isFinish ==> e.isFinish) && (d.openFailed ==> e.openFailed)
  {
    hide DownerLooksAt;
  }

  lemma WorkersAreMonotone(c: Config, disk: Disk, p: ParseSide, w: nat, a: ParseWorkerAction)
    requires ParseWorkerEnabled(p, w, a)
    ensures
      var q := ParseWorkerApply(p, w, a);
      && (p.isFinish ==> q.isFinish) && (p.exit ==> q.exit)
      && disk.items <= ParseWorkerDisk(c, disk, p, w, a).items
  {
    hide TakeCount;
  }

  lemma DownWorkersAreMonotone(d: DownSide, w: nat, a: DownWorkerAction)
    requires DownWorkerEnabled(d, w, a)
    ensures
      var e := DownWorkerApply(d, w, a);
      (d.isFinish ==> e.isFinish) && (d.openFailed ==> e.openFailed)
  {
  }

  lemma StepIsMonotone(c: Config, s: State, a: Action)
    requires Enabled(c, s, a)
    ensures
      var t := Apply(c, s, a);
      && (s.parse.isFinish ==> t.parse.isFinish) && (s.parse.exit ==> t.parse.exit)
      && (s.down.isFinish ==> t.down.isFinish) && (s.down.openFailed ==> t.down.openFailed)
      && s.disk.items <= t.disk.items
  {
    hide ParserEnabled, DownerEnabled, ParseWorkerEnabled, DownWorkerEnabled;
    hide ParserApply, DownerApply, ParseWorkerApply, ParseWorkerDisk, DownWorkerApply, DownerPages, DownWorkerPages;
    match a
    case ParserAct(b) => ParserIsMonotone(c, s.disk.items, s.parse, b);
    case DownerAct(b) => DownerIsMonotone(c, s.disk.pages, s.parse.exit, s.down, b);
    case ParseWorkerAct(w, b) => WorkersAreMonotone(c, s.disk, s.parse, w, b);
    case DownWorkerAct(w, b) => DownWorkersAreMonotone(s.down, w, b);
    case _ =>
  }

  /** Flags stay raised and item files stay there. */
  lemma {:induction false} RunIsMonotone(c: Config, states: seq<State>, actions: seq<Action>, i: nat, j: nat)
    requires IsRun(c, states, actions) && i <= j < |states|
    ensures
      var s, t := states[i], states[j];
      && (s.parse.isFinish ==> t.parse.isFinish) && (s.parse.exit ==> t.parse.exit)
      && (s.down.isFinish ==> t.down.isFinish) && (s.down.openFailed ==> t.down.openFailed)
      && s.disk.items <= t.disk.items
    decreases j - i
  {
    hide Apply, Enabled, Init;
    if i == j {
    } else {
      RunIsMonotone(c, states, actions, i, j - 1);
      StepIsMonotone(c, states[j - 1], actions[j - 1]);
    }
  }

  /** From the moment the parse queue is declared finished it is empty for good. */
  lemma FinishedParseQueueStaysEmpty(c: Config, states: seq<State>, actions: seq<Action>, i: nat, j: nat)
    requires IsRun(c, states, actions) && i <= j < |states| && states[i].parse.isFinish
    ensures states[j].parse.isFinish && states[j].parse.queue == []
  {
    RunIsMonotone(c, states, actions, i, j);
    hide IsRun;
    Always(c, states, actions, j);
  }

  /** The same for the download queue, as long as no scan of its dispatcher has failed to open the seed file. */
  lemma FinishedDownQueueStaysEmpty(c: Config, states: seq<State>, actions: seq<Action>, i: nat, j: nat)
    requires IsRun(c, states, actions) && i <= j < |states| && states[i].down.isFinish && !states[j].down.openFailed
    ensures states[j].down.isFinish && states[j].down.queue == []
  {
    RunIsMonotone(c, states, actions, i, j);
    hide IsRun;
    Always(c, states, actions, j);
  }

  /**
   A parse worker that leaves (it got nothing in an earlier step, and now reads the finish flag) leaves no work
   behind: the queue is empty then and ever after.
   */
  lemma ParseWorkerLeavesNoWork(c: Config, states: seq<State>, actions: seq<Action>, i: nat, w: nat, j: nat)
    requires IsRun(c, states, actions) && i < |actions| && i <= j < |states|
    requires actions[i] == ParseWorkerAct(w, ParseWorkerAction.Checks) && states[i + 1].parse.workers[w].ParseLeft?
    ensures states[i].parse.workers[w] == ParseCheck([]) && states[j].parse.queue == []
  {
    assert Enabled(c, states[i], actions[i]) && states[i + 1] == Apply(c, states[i], actions[i]);
    FinishedParseQueueStaysEmpty(c, states, actions, i, j);
  }

  lemma DownWorkerLeavesNoWork(c: Config, states: seq<State>, actions: seq<Action>, i: nat, w: nat, j: nat)
    requires IsRun(c, states, actions) && i < |actions| && i <= j < |states| && !states[j].down.openFailed
    requires actions[i] == DownWorkerAct(w, DownWorkerAction.Checks) && states[i + 1].down.workers[w].DownLeft?
    ensures states[i].down.workers[w] == DownCheck(map[]) && states[j].down.queue == []
  {
    assert Enabled(c, states[i], actions[i]) && states[i + 1] == Apply(c, states[i], actions[i]);
    FinishedDownQueueStaysEmpty(c, states, actions, i, j);
  }

  /** Every line ever queued is queued still, in a worker's hands, or worked off; the queue keeps its bound. */
  lemma LinesAreConserved(c: Config, states: seq<State>, actions: seq<Action>, i: nat)
    requires IsRun(c, states, actions) && i < |states|
    ensures
      var p := states[i].parse;
      && |p.queue| <= 50 && |states[i].down.queue| <= 5
      && p.added == multiset(p.queue) + AllInHand(p.workers) + p.processed
  {
    hide IsRun;
    Always(c, states, actions, i);
  }

  /** A batch on offer never waits for more room than an empty queue has. */
  lemma OfferFitsEmptyQueue(c: Config, states: seq<State>, actions: seq<Action>, i: nat)
    requires IsRun(c, states, actions) && i < |states|
    ensures
      var s := states[i];
      && (s.parse.at.ParserOffer? && s.parse.queue == [] ==> ParserEnabled(c, s.parse, ParserAction.Offers))
      && (s.down.at.DownerOffer? && s.down.queue == [] ==> DownerEnabled(c, s.down, DownerAction.Offers))
  {
    hide IsRun;
    Always(c, states, actions, i);
  }

  /** When the parse dispatcher is through, every line it ever queued has been worked off. */
  lemma NothingIsLost(c: Config, states: seq<State>, actions: seq<Action>, i: nat)
    requires IsRun(c, states, actions) && i < |states| && states[i].parse.at.ParserDone?
    ensures states[i].parse.processed == states[i].parse.added
  {
    hide IsRun;
    Always(c, states, actions, i);
    var p := states[i].parse;
    forall w | 0 <= w < |p.workers|
      ensures InHand(p.workers[w]) == multiset{}
    {
      assert p.workers[w].ParseFailed? || p.workers[w].ParseLeft?;
    }
    NoneInHand(p.workers);
  }

  /** The task is reported as crawled only after both dispatchers and all their workers have ended. */
  lemma CrawledMeansAllEnded(c: Config, states: seq<State>, actions: seq<Action>, i: nat)
    requires IsRun(c, states, actions) && i < |states| && states[i].status == Crawled
    ensures ParserEnded(states[i].parse.at) && ParseWorkersEnded(states[i].parse.workers)
    ensures DownerEnded(states[i].down.at) && DownWorkersEnded(states[i].down.workers)
  {
    hide IsRun;
    Always(c, states, actions, i);
  }

  /** A crawled task has every item file, unless neither side ran or the last scan failed to open the seed file. */
  lemma CrawledMeansAllItems(c: Config, states: seq<State>, actions: seq<Action>, i: nat)
    requires IsRun(c, states, actions) && i < |states| && states[i].status == Crawled
    requires !(states[i].down.at.DownerGaveUp? && states[i].parse.at.ParserGaveUp?) && !states[i].parse.openFailed
    ensures forall k :: 0 <= k < |c.seed| ==> c.seed[k].item in states[i].disk.items
  {
    hide IsRun;
    Always(c, states, actions, i);
  }

  /** A worker's step brings at most the item of the line it works off, and only for a page that is large enough. */
  lemma WorkBringsItem(c: Config, disk: Disk, p: ParseSide, w: nat, a: ParseWorkerAction)
    requires ParseWorkerEnabled(p, w, a)
    ensures
      var after := ParseWorkerDisk(c, disk, p, w, a);
      if !a.Works? || p.workers[w].todo == [] then after == disk
      else
        var line := p.workers[w].todo[0];
        var page := if line.html in disk.pages then disk.pages[line.html] else -1;
        var limit := c.pageLimit % 0x1_0000_0000_0000_0000;
        && (line.html !in disk.pages || line.item in disk.items ==> after == disk)
        && after.items ==
             disk.items + (if page >= limit && a.answered then {line.item} else {})
        && after.pages ==
             disk.pages - (if page >= 0 && line.item !in disk.items && (page < limit || a.removePage)
                           then {line.html} else {})
  {
  }

  lemma OthersBringNoItem(c: Config, s: State, a: Action)
    requires Enabled(c, s, a) && !a.ParseWorkerAct?
    ensures Apply(c, s, a).disk.items == s.disk.items + if a.ItemAppears? then {a.path} else {}
  {
    hide ParserEnabled, DownerEnabled, DownWorkerEnabled, ParserApply, DownerApply, DownWorkerApply, DownerPages,
      DownWorkerPages;
  }

  /**
   In every run, an item file that a step brings comes from the environment, or from a worker that works off its
   line, got an answer, and found a page that is not below the limit (which is huge when it is set below zero).
   */
  lemma ItemNeedsPage(c: Config, states: seq<State>, actions: seq<Action>, i: nat, path: string)
    requires IsRun(c, states, actions) && i < |actions|
    requires path in states[i + 1].disk.items && path !in states[i].disk.items
    ensures
      var s, a := states[i], actions[i];
      || a == ItemAppears(path)
      || (&& a.ParseWorkerAct? && a.parseWork.Works? && a.parseWork.answered
          && a.w < |s.parse.workers| && s.parse.workers[a.w].ParseWork? && s.parse.workers[a.w].todo != []
          && var line := s.parse.workers[a.w].todo[0];
             && line.item == path && line.html in s.disk.pages
             && s.disk.pages[line.html] >= c.pageLimit % 0x1_0000_0000_0000_0000)
  {
    hide ParseWorkerApply, ParseWorkerDisk;
    var s, a := states[i], actions[i];
    assert Enabled(c, s, a) && states[i + 1] == Apply(c, s, a);
    if a.ParseWorkerAct? {
      WorkBringsItem(c, s.disk, s.parse, a.w, a.parseWork);
    } else {
      OthersBringNoItem(c, s, a);
    }
  }
}
