/**
 What a seed file that cannot be opened does to the crawl task: in which configurations, and from where, a run
 stops with items missing or strands a batch.
 */
module PipelineFailures {
  import opened Queues
  import opened Dispatch
  import opened Pipeline
  import opened PipelineSafety
  import PipelineTheorems

  ghost predicate Reachable(c: Config, s: State) {
    exists states, actions :: IsRun(c, states, actions) && states[|states| - 1] == s
  }

  lemma StartsReachable(c: Config, s: State)
    requires Init(s)
    ensures Reachable(c, s)
  {
    assert IsRun(c, [s], []);
    assert [s][|[s]| - 1] == s;
  }

  lemma ThenReachable(c: Config, s: State, a: Action) returns (t: State)
    requires Reachable(c, s) && Enabled(c, s, a)
    ensures Reachable(c, t) && t == Apply(c, s, a)
  {
    hide Apply, Enabled, Init;
    t := Apply(c, s, a);
    var states, actions :| IsRun(c, states, actions) && states[|states| - 1] == s;
    var states', actions' := states + [t], actions + [a];
    assert IsRun(c, states', actions');
    assert states'[|states'| - 1] == t;
  }

  lemma ReachableInv(c: Config, s: State)
    requires Reachable(c, s)
    ensures Inv(c, s)
  {
    hide Apply, Enabled, Init, Inv;
    var states, actions :| IsRun(c, states, actions) && states[|states| - 1] == s;
    Always(c, states, actions, |states| - 1);
  }

  // ---- the parse dispatcher ----

  /** The disk is empty, and both dispatchers have just been started. */
  lemma BothStarted(c: Config) returns (s: State)
    ensures Reachable(c, s) && s.disk == Disk({}, map[])
    ensures s.parse == ParseSide([], false, false, ParserStart, [], multiset{}, multiset{}, false)
    ensures s.down == DownSide([], false, DownerStart, [], false)
  {
    s := State(Disk({}, map[]), ParseSide([], false, false, ParserUnborn, [], multiset{}, multiset{}, false),
               DownSide([], false, DownerUnborn, [], false), Prepared, Fresh);
    StartsReachable(c, s);
    s := ThenReachable(c, s, TaskStep);
    s := ThenReachable(c, s, TaskStep);
    s := ThenReachable(c, s, TaskStep);
  }

  /** One step of the parse dispatcher that leaves disk and download side alone. */
  lemma ParserSteps(c: Config, s: State, a: ParserAction) returns (t: State)
    requires Reachable(c, s) && ParserEnabled(c, s.parse, a)
    ensures Reachable(c, t)
    ensures t.parse == ParserApply(c, s.disk.items, s.parse, a) && t.disk == s.disk && t.down == s.down
  {
    hide Reachable, ParserEnabled, ParserApply;
    t := ThenReachable(c, s, ParserAct(a));
  }

  lemma OpensOnEmptyQueue(c: Config, s: State)
    requires Reachable(c, s) && s.parse.at == ParserOpen
    ensures s.parse.queue == []
  {
    ReachableInv(c, s);
  }

  lemma RaisesExit(c: Config, s: State) returns (t: State)
    requires Reachable(c, s) && s.parse.at == ParserFinish
    ensures Reachable(c, t) && t.parse == s.parse.(at := ParserJoin, isFinish := true, exit := true)
    ensures t.disk == s.disk && t.down == s.down
  {
    hide Reachable;
    t := ParserSteps(c, s, ParserAction.Raises);
    t := ParserSteps(c, t, ParserAction.Raises);
  }

  /**
   Wherever a run has the parse dispatcher about to open the seed file, one failed open lets it raise the exit
   flag, whatever items are missing.
   */
  lemma FailedOpenRaisesExit(c: Config, s: State) returns (t: State)
    requires Reachable(c, s) && s.parse.at == ParserOpen
    ensures Reachable(c, t) && t.parse.exit && t.parse.openFailed && t.disk == s.disk && t.down == s.down
  {
    hide Reachable;
    OpensOnEmptyQueue(c, s);
    t := ParserSteps(c, s, ParserAction.Opens(false));
    t := ParserSteps(c, t, ParserAction.SeesEmpty);
    t := ParserSteps(c, t, ParserAction.Decides);
    t := RaisesExit(c, t);
  }

  ghost predicate LacksItem(c: Config, s: State) {
    exists k :: 0 <= k < |c.seed| && c.seed[k].item !in s.disk.items
  }

  /** A run can raise the exit flag with an item missing exactly when there is a seed line at all. */
  lemma ExitWithoutItemIff(c: Config)
    ensures (exists s :: Reachable(c, s) && s.parse.exit && LacksItem(c, s)) <==> c.seed != []
  {
    hide Reachable;
    if c.seed != [] {
      var s := BothStarted(c);
      s := ParserSteps(c, s, ParserAction.Creates);
      s := FailedOpenRaisesExit(c, s);
      assert c.seed[0].item !in s.disk.items;
      assert LacksItem(c, s);
    }
  }

  /** And every such run ended its last scan in a failed open. */
  lemma ExitWithoutItemIsFailedOpen(c: Config, s: State)
    requires Reachable(c, s) && s.parse.exit && LacksItem(c, s)
    ensures s.parse.openFailed
  {
    ReachableInv(c, s);
    hide Reachable;
  }

  // ---- the download dispatcher ----

  lemma DownerSteps(c: Config, s: State, a: DownerAction) returns (t: State)
    requires Reachable(c, s) && DownerEnabled(c, s.down, a)
    ensures Reachable(c, t)
    ensures t.down == DownerApply(c, s.disk.pages, s.parse.exit, s.down, a) && t.parse == s.parse
    ensures t.disk == s.disk.(pages := DownerPages(c, s.disk.pages, s.down, a))
  {
    hide Reachable, DownerEnabled, DownerApply, DownerPages;
    t := ThenReachable(c, s, DownerAct(a));
  }

  lemma DownWorkerSteps(c: Config, s: State, w: nat, a: DownWorkerAction) returns (t: State)
    requires Reachable(c, s) && DownWorkerEnabled(s.down, w, a) && !a.Works?
    ensures Reachable(c, t) && t.down == DownWorkerApply(s.down, w, a) && t.parse == s.parse && t.disk == s.disk
  {
    hide Reachable, DownWorkerEnabled, DownWorkerApply;
    t := ThenReachable(c, s, DownWorkerAct(w, a));
  }

  /** The flag is up too early, and the dispatcher waits for its empty queue. */
  function TooEarly(ws: seq<DownWorker>): DownSide {
    DownSide([], true, DownerDrain(-2), ws, true)
  }

  /** A worker that connects now finds nothing and sees the flag. */
  lemma WorkerLeaves(c: Config, s: State, w: nat) returns (t: State)
    requires Reachable(c, s) && w < |s.down.workers|
    requires s.down == TooEarly(s.down.workers) && s.down.workers[w] == DownConnect
    ensures Reachable(c, t) && t.parse == s.parse && t.disk == s.disk
    ensures t.down == TooEarly(s.down.workers[w := DownLeft])
  {
    hide Reachable;
    t := DownWorkerSteps(c, s, w, DownWorkerAction.Connects(true));
    t := DownWorkerSteps(c, t, w, DownWorkerAction.Gets);
    assert t.down.workers[w] == DownCheck(map[]);
    t := DownWorkerSteps(c, t, w, DownWorkerAction.Checks);
    assert t.down.workers == s.down.workers[w := DownLeft];
  }

  function Leaving(n: nat, gone: nat): (ws: seq<DownWorker>)
    requires gone <= n
    ensures |ws| == n
  {
    seq(n, w => if w < gone then DownLeft else DownConnect)
  }

  lemma EarlyWorkers(s: State, ws: seq<DownWorker>)
    requires s.down == TooEarly(ws)
    ensures s.down.workers == ws
  {
  }

  lemma {:induction false} WorkersLeave(c: Config, s: State, gone: nat) returns (t: State)
    requires gone <= c.downHosts && Reachable(c, s)
    requires s.down == TooEarly(Leaving(c.downHosts, gone))
    ensures Reachable(c, t) && t.parse == s.parse && t.disk == s.disk
    ensures t.down == TooEarly(Leaving(c.downHosts, c.downHosts))
    decreases c.downHosts - gone
  {
    hide Reachable, TooEarly;
    if gone == c.downHosts {
      t := s;
    } else {
      EarlyWorkers(s, Leaving(c.downHosts, gone));
      t := WorkerLeaves(c, s, gone);
      assert Leaving(c.downHosts, gone)[gone := DownLeft] == Leaving(c.downHosts, gone + 1);
      t := WorkersLeave(c, t, gone + 1);
    }
  }

  lemma NoPages(c: Config, pages: map<string, nat>, d: DownSide, proxy: string)
    requires DownerEnabled(c, d, DownerAction.Looks(proxy)) && pages == map[]
    ensures DownerPages(c, pages, d, DownerAction.Looks(proxy)) == map[]
  {
    var none: map<string, nat> := map[];
    assert none - {c.seed[d.at.line].html} == map[];
  }

  /** One line looked at on a disk without pages: it joins the batch in hand, or sends it off. */
  lemma LookAdds(c: Config, s: State, proxy: string) returns (t: State)
    requires Reachable(c, s) && s.disk.pages == map[]
    requires s.down.at.DownerScan? && s.down.at.line < |c.seed|
    ensures Reachable(c, t) && t.disk.pages == map[]
    ensures t.down == s.down.(at := t.down.at)
    ensures t.down.at.DownerOffer?
         || (t.down.at.DownerScan? && t.down.at.line == s.down.at.line + 1 && t.down.at.urls != [])
    ensures t.down.at.DownerOffer? ==> |t.down.at.batch| == 1
  {
    hide Reachable, PageBatch;
    t := DownerSteps(c, s, DownerAction.Looks(proxy));
    NoPages(c, s.disk.pages, s.down, proxy);
  }

  /** A scan on a disk without pages queues a batch. */
  lemma {:induction false} ScanQueues(c: Config, s: State, proxy: string) returns (t: State)
    requires Reachable(c, s) && s.disk.pages == map[] && s.down.queue == []
    requires s.down.at.DownerScan? && s.down.at.line <= |c.seed|
    requires s.down.at.line == |c.seed| ==> s.down.at.urls != []
    ensures Reachable(c, t) && t.down.queue != []
    ensures t.down.workers == s.down.workers && t.down.isFinish == s.down.isFinish
    decreases |c.seed| - s.down.at.line
  {
    hide Reachable;
    if s.down.at.line == |c.seed| {
      t := DownerSteps(c, s, DownerAction.Scanned(proxy));
      t := DownerSteps(c, t, DownerAction.Offers);
    } else {
      t := LookAdds(c, s, proxy);
      if t.down.at.DownerOffer? {
        t := DownerSteps(c, t, DownerAction.Offers);
      } else {
        t := ScanQueues(c, t, proxy);
      }
    }
  }

  lemma FinishDeclared(c: Config) returns (s: State)
    ensures Reachable(c, s) && s.disk == Disk({}, map[]) && !s.parse.exit
    ensures s.down == TooEarly(Leaving(c.downHosts, 0))
  {
    hide Reachable;
    s := BothStarted(c);
    s := DownerSteps(c, s, DownerAction.Creates);
    s := DownerSteps(c, s, DownerAction.Opens(false));
    assert s.down.workers == Leaving(c.downHosts, 0);
  }

  /**
   A failed open by the download dispatcher declares its queue finished while the dispatcher goes on. In every
   configuration with a seed line all workers can leave then, and the next scan queues a batch for nobody.
   */
  lemma FailedOpenStrandsBatch(c: Config, proxy: string) returns (s: State)
    requires c.seed != []
    ensures Reachable(c, s) && s.down.isFinish && s.down.queue != []
    ensures s.down.workers == Leaving(c.downHosts, c.downHosts)
  {
    hide Reachable;
    s := FinishDeclared(c);
    s := WorkersLeave(c, s, 0);
    s := DownerSteps(c, s, DownerAction.SeesEmpty);
    s := DownerSteps(c, s, DownerAction.Decides);
    s := DownerSteps(c, s, DownerAction.Opens(true));
    s := ScanQueues(c, s, proxy);
  }

  /** As many workers as hosts, and without a seed line nothing to queue. */
  ghost predicate DownFacts(c: Config, d: DownSide) {
    && (|d.workers| == 0 || |d.workers| == c.downHosts)
    && (c.seed == [] ==> d.queue == [] && !d.at.DownerOffer? && (d.at.DownerScan? ==> d.at.urls == []))
  }

  lemma DownerFacts(c: Config, pages: map<string, nat>, parseExit: bool, d: DownSide, a: DownerAction)
    requires DownerEnabled(c, d, a) && DownFacts(c, d)
    ensures DownFacts(c, DownerApply(c, pages, parseExit, d, a))
  {
    hide Kept, PageBatch, DownWorkersEnded;
  }

  lemma DownWorkerFacts(c: Config, d: DownSide, w: nat, a: DownWorkerAction)
    requires DownWorkerEnabled(d, w, a) && DownFacts(c, d)
    ensures DownFacts(c, DownWorkerApply(d, w, a))
  {
  }

  lemma DownFactsStep(c: Config, s: State, a: Action)
    requires Enabled(c, s, a) && DownFacts(c, s.down)
    ensures DownFacts(c, Apply(c, s, a).down)
  {
    hide ParserEnabled, ParserApply, ParseWorkerEnabled, ParseWorkerApply, ParseWorkerDisk, DownerEnabled,
      DownerApply, DownerPages, DownWorkerEnabled, DownWorkerApply, DownWorkerPages;
    match a
    case DownerAct(b) => DownerFacts(c, s.disk.pages, s.parse.exit, s.down, b);
    case DownWorkerAct(w, b) => DownWorkerFacts(c, s.down, w, b);
    case _ =>
  }

  lemma DownFactsInit(c: Config, s: State)
    requires Init(s)
    ensures DownFacts(c, s.down)
  {
  }

  lemma {:induction false} DownFactsAlways(c: Config, states: seq<State>, actions: seq<Action>, i: nat)
    requires IsRun(c, states, actions) && i < |states|
    ensures DownFacts(c, states[i].down)
  {
    hide Enabled, Apply, DownFacts;
    if i == 0 {
      DownFactsInit(c, states[0]);
    } else {
      DownFactsAlways(c, states, actions, i - 1);
      DownFactsStep(c, states[i - 1], actions[i - 1]);
    }
  }

  lemma ReachableFacts(c: Config, s: State)
    requires Reachable(c, s)
    ensures DownFacts(c, s.down)
  {
    hide Apply, Enabled, Init, DownFacts;
    var states, actions :| IsRun(c, states, actions) && states[|states| - 1] == s;
    DownFactsAlways(c, states, actions, |states| - 1);
  }

  /** A queue can be declared finished with work in it exactly when there is a seed line. */
  lemma FinishedWithWorkIff(c: Config)
    ensures (exists s :: Reachable(c, s) && s.down.isFinish && s.down.queue != []) <==> c.seed != []
  {
    hide Reachable;
    forall s | Reachable(c, s)
      ensures DownFacts(c, s.down)
    {
      ReachableFacts(c, s);
    }
    if c.seed != [] {
      var s := FailedOpenStrandsBatch(c, "");
    }
  }

  ghost predicate LeftWork(s: State) {
    s.down.queue != [] && exists w :: 0 <= w < |s.down.workers| && s.down.workers[w].DownLeft?
  }

  /** A worker can leave a batch behind exactly when there is a seed line and a host to download from. */
  lemma WorkerLeavesWorkIff(c: Config)
    ensures (exists s :: Reachable(c, s) && LeftWork(s)) <==> c.seed != [] && c.downHosts >= 1
  {
    hide Reachable;
    forall s | Reachable(c, s)
      ensures DownFacts(c, s.down)
    {
      ReachableFacts(c, s);
    }
    if c.seed != [] && c.downHosts >= 1 {
      var s := FailedOpenStrandsBatch(c, "");
      assert s.down.workers[0].DownLeft?;
      assert LeftWork(s);
    }
  }

  // ---- stranded work ----

  /** All workers are gone and a batch is queued. */
  predicate Stranded(s: State) {
    DownWorkersEnded(s.down.workers) && s.down.queue != []
  }

  lemma StrandedStays(c: Config, s: State, a: Action)
    requires Inv(c, s) && Enabled(c, s, a) && Stranded(s)
    ensures Stranded(Apply(c, s, a))
  {
    hide ParserEnabled, ParserApply, ParseWorkerEnabled, ParseWorkerApply, ParseWorkerDisk, ParseInv, DownerLooksAt;
  }

  lemma StrandedIsNoEnd(c: Config, s: State)
    requires Inv(c, s) && Stranded(s)
    ensures !DownerEnded(s.down.at) && s.status != Crawled
  {
    hide ParseInv;
  }

  /** Stranded work is never taken up again: the dispatcher waits for its queue for good, and no task is reported. */
  lemma {:induction false} StrandedForGood(c: Config, states: seq<State>, actions: seq<Action>, i: nat, j: nat)
    requires IsRun(c, states, actions) && i <= j < |states| && Stranded(states[i])
    ensures Stranded(states[j]) && !DownerEnded(states[j].down.at) && states[j].status != Crawled
    decreases j - i
  {
    hide Enabled, Apply, Init, Stranded, Inv, DownerEnded;
    Always(c, states, actions, j);
    if i == j {
      StrandedIsNoEnd(c, states[j]);
    } else {
      StrandedForGood(c, states, actions, i, j - 1);
      Always(c, states, actions, j - 1);
      StrandedStays(c, states[j - 1], actions[j - 1]);
      StrandedIsNoEnd(c, states[j]);
    }
  }
}
