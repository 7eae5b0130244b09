/**
 Safety of the crawl task over every schedule: what the exit and finish flags mean, that no queued work is left
 behind, and when the task may be reported as done.
 */
module PipelineSafety {
  import opened Queues
  import opened Dispatch
  import opened Pipeline

  predicate ItemsThere(c: Config, items: set<string>, n: nat)
    requires n <= |c.seed|
  {
    forall k :: 0 <= k < n ==> c.seed[k].item in items
  }

  /** Either every item file is there, or the last scan could not open the seed file and saw nothing. */
  predicate Settled(c: Config, items: set<string>, p: ParseSide) {
    p.openFailed || ItemsThere(c, items, |c.seed|)
  }

  predicate ParserPoint(c: Config, items: set<string>, p: ParseSide) {
    match p.at
    case ParserScan(line, cur, counter) =>
      && line <= |c.seed| && !p.openFailed
      && (if counter == 0 then cur == [] && ItemsThere(c, items, line) else |cur| == (counter - 1) % PARSE_BATCH)
    case ParserOffer(line, cur, counter, last) =>
      && line <= |c.seed| && !p.openFailed
      && 0 < |cur| <= PARSE_BATCH && counter > 0 && (!last ==> (counter - 1) % PARSE_BATCH == 0)
    case ParserDrain(count) => count == 0 ==> Settled(c, items, p)
    case ParserTest(count) => p.queue == [] && (count == 0 ==> Settled(c, items, p))
    case ParserOpen => p.queue == []
    case ParserUnborn => p.queue == [] && p.workers == []
    case ParserStart => p.queue == [] && p.workers == []
    case ParserGaveUp => p.queue == [] && p.workers == []
    case _ => p.queue == [] && Settled(c, items, p)
  }

  predicate ParserFlags(p: ParseSide) {
    && |p.queue| <= PARSE_CAPACITY
    && (p.isFinish <==> p.at.ParserExit? || p.at.ParserJoin? || p.at.ParserDone?)
    && (p.exit <==> p.at.ParserJoin? || p.at.ParserDone?)
    && (p.at.ParserDone? ==> ParseWorkersEnded(p.workers))
  }

  /** The lines a worker has taken and not yet worked off. */
  function InHand(w: ParseWorker): multiset<SeedLine> {
    match w
    case ParseCheck(got) => multiset(got)
    case ParseWork(todo) => multiset(todo)
    case _ => multiset{}
  }

  function AllInHand(ws: seq<ParseWorker>): multiset<SeedLine> {
    if ws == [] then multiset{} else AllInHand(ws[..|ws| - 1]) + InHand(ws[|ws| - 1])
  }

  predicate Conserved(p: ParseSide) {
    p.added == multiset(p.queue) + AllInHand(p.workers) + p.processed
  }

  predicate ParseInv(c: Config, items: set<string>, p: ParseSide) {
    ParserPoint(c, items, p) && ParserFlags(p) && Conserved(p)
  }

  predicate DownerIdle(d: Downer) {
    || d.DownerUnborn? || d.DownerStart? || d.DownerGaveUp?
    || d.DownerTest? || d.DownerFinish? || d.DownerJoin? || d.DownerDone?
  }

  predicate DownerPastLoop(d: Downer) {
    d.DownerFinish? || d.DownerJoin? || d.DownerDone?
  }

  predicate DownInv(c: Config, parseExit: bool, d: DownSide) {
    && |d.queue| <= DOWN_CAPACITY
    && (DownerIdle(d.at) ==> d.queue == [])
    && (d.at.DownerScan? ==> d.at.line <= |c.seed|)
    && (d.at.DownerOffer? ==> d.at.line <= |c.seed| && |d.at.batch| == 1)
    && (DownerPastLoop(d.at) ==> parseExit)
    && (d.at.DownerJoin? || d.at.DownerDone? ==> d.isFinish)
    && (d.isFinish ==> d.at.DownerJoin? || d.at.DownerDone? || d.openFailed)
    && (d.at.DownerUnborn? || d.at.DownerStart? || d.at.DownerGaveUp? ==> d.workers == [])
    && (d.at.DownerDone? ==> DownWorkersEnded(d.workers))
  }

  predicate TaskInv(s: State) {
    && (s.status == Fresh <==> s.task == Prepared)
    && (s.status == Crawled <==> s.task == Ended)
    && (s.task in {ParseJoined, DownJoined, Imported, Ended} ==> ParserEnded(s.parse.at))
    && (s.task in {DownJoined, Imported, Ended} ==> DownerEnded(s.down.at))
  }

  predicate Inv(c: Config, s: State) {
    ParseInv(c, s.disk.items, s.parse) && DownInv(c, s.parse.exit, s.down) && TaskInv(s)
  }

  lemma Regroup<T>(a: multiset<T>, x: multiset<T>, b: multiset<T>, y: multiset<T>, rest: multiset<T>)
    requires a + x == b + y
    ensures (a + rest) + x == (b + rest) + y
  {
    assert (a + rest) + x == (a + x) + rest;
  }

  lemma {:induction false} InHandAfter(ws: seq<ParseWorker>, w: nat, next: ParseWorker)
    requires w < |ws|
    ensures AllInHand(ws[w := next]) + InHand(ws[w]) == AllInHand(ws) + InHand(next)
  {
    hide InHand;
    var n, vs := |ws| - 1, ws[w := next];
    if w < n {
      assert vs[..n] == ws[..n][w := next] && vs[n] == ws[n];
      InHandAfter(ws[..n], w, next);
      assert ws[..n][w] == ws[w];
      assert AllInHand(vs) == AllInHand(vs[..n]) + InHand(ws[n]);
      assert AllInHand(ws) == AllInHand(ws[..n]) + InHand(ws[n]);
      Regroup(AllInHand(vs[..n]), InHand(ws[w]), AllInHand(ws[..n]), InHand(next), InHand(ws[n]));
    } else {
      assert vs[..n] == ws[..n] && vs[n] == next;
    }
  }

  lemma {:induction false} NoneInHand(ws: seq<ParseWorker>)
    requires forall w :: 0 <= w < |ws| ==> InHand(ws[w]) == multiset{}
    ensures AllInHand(ws) == multiset{}
  {
    if ws == [] {
    } else {
      NoneInHand(ws[..|ws| - 1]);
    }
  }

  lemma InitInv(c: Config, s: State)
    requires Init(s)
    ensures Inv(c, s)
  {
  }

  /** More item files never hurt. */
  lemma ItemsOnlyHelp(c: Config, items: set<string>, more: set<string>, p: ParseSide)
    requires ParseInv(c, items, p) && items <= more
    ensures ParseInv(c, more, p)
  {
    hide AllInHand;
  }

  /** The steps inside a scan. */
  lemma ParserScans(c: Config, items: set<string>, p: ParseSide, a: ParserAction)
    requires ParserPoint(c, items, p) && ParserFlags(p) && ParserEnabled(c, p, a)
    requires a.Opens? || a.Scanned? || a.Offers?
    ensures
      var q := ParserApply(c, items, p, a);
      && ParserPoint(c, items, q) && ParserFlags(q)
      && (ParserEnded(p.at) ==> ParserEnded(q.at)) && (p.exit ==> q.exit)
  {
    hide ParserLooksAt;
  }

  lemma ParserLooks(c: Config, items: set<string>, p: ParseSide, a: ParserAction)
    requires ParserPoint(c, items, p) && ParserFlags(p) && ParserEnabled(c, p, a) && a.Looks?
    ensures
      var q := ParserApply(c, items, p, a);
      && ParserPoint(c, items, q) && ParserFlags(q)
      && (ParserEnded(p.at) ==> ParserEnded(q.at)) && (p.exit ==> q.exit)
  {
  }

  /** The steps around the scans. */
  lemma ParserTurns(c: Config, items: set<string>, p: ParseSide, a: ParserAction)
    requires ParserPoint(c, items, p) && ParserFlags(p) && ParserEnabled(c, p, a)
    requires a.GivesUp? || a.Creates? || a.SeesEmpty? || a.Decides? || a.Raises?
    ensures
      var q := ParserApply(c, items, p, a);
      && ParserPoint(c, items, q) && ParserFlags(q)
      && (ParserEnded(p.at) ==> ParserEnded(q.at)) && (p.exit ==> q.exit)
  {
    hide ParserLooksAt, ItemsThere;
  }

  lemma ParserMoves(c: Config, items: set<string>, p: ParseSide, a: ParserAction)
    requires ParserPoint(c, items, p) && ParserFlags(p) && ParserEnabled(c, p, a)
    ensures
      var q := ParserApply(c, items, p, a);
      && ParserPoint(c, items, q) && ParserFlags(q)
      && (ParserEnded(p.at) ==> ParserEnded(q.at)) && (p.exit ==> q.exit)
  {
    hide ParserPoint, ParserFlags, ParserApply, ParserEnabled;
    if a.Looks? {
      ParserLooks(c, items, p, a);
    } else if a.Opens? || a.Scanned? || a.Offers? {
      ParserScans(c, items, p, a);
    } else {
      ParserTurns(c, items, p, a);
    }
  }

  /** Only creating the workers and offering a batch touch the lines. */
  lemma LinesStay(c: Config, items: set<string>, p: ParseSide, a: ParserAction)
    requires ParserEnabled(c, p, a) && !a.Creates? && !a.Offers?
    ensures
      var q := ParserApply(c, items, p, a);
      q.added == p.added && q.queue == p.queue && q.workers == p.workers && q.processed == p.processed
  {
  }

  lemma CreateConserves(c: Config, items: set<string>, p: ParseSide)
    requires ParserPoint(c, items, p) && Conserved(p) && ParserEnabled(c, p, ParserAction.Creates)
    ensures Conserved(ParserApply(c, items, p, ParserAction.Creates))
  {
    hide AllInHand;
    var q := ParserApply(c, items, p, ParserAction.Creates);
    NoneInHand(p.workers);
    NoneInHand(q.workers);
  }

  lemma OfferConserves(c: Config, items: set<string>, p: ParseSide)
    requires Conserved(p) && ParserEnabled(c, p, ParserAction.Offers)
    ensures Conserved(ParserApply(c, items, p, ParserAction.Offers))
  {
    hide AllInHand;
    var q := ParserApply(c, items, p, ParserAction.Offers);
    assert multiset(q.queue) == multiset(p.at.cur) + multiset(p.queue);
  }

  lemma ParserConserves(c: Config, items: set<string>, p: ParseSide, a: ParserAction)
    requires ParserPoint(c, items, p) && Conserved(p) && ParserEnabled(c, p, a)
    ensures Conserved(ParserApply(c, items, p, a))
  {
    hide AllInHand, ParserApply, ParserPoint, ParserEnabled;
    if a.Creates? {
      CreateConserves(c, items, p);
    } else if a.Offers? {
      OfferConserves(c, items, p);
    } else {
      LinesStay(c, items, p, a);
    }
  }

  lemma ParserKeeps(c: Config, items: set<string>, p: ParseSide, a: ParserAction)
    requires ParseInv(c, items, p) && ParserEnabled(c, p, a)
    ensures ParseInv(c, items, ParserApply(c, items, p, a))
    ensures ParserEnded(p.at) ==> ParserEnded(ParserApply(c, items, p, a).at)
    ensures p.exit ==> ParserApply(c, items, p, a).exit
  {
    ParserConserves(c, items, p, a);
    ParserMoves(c, items, p, a);
    hide Conserved, ParserPoint, ParserFlags, ParserApply;
  }

  /** A worker's step moves no dispatcher and raises no flag; at most it takes lines from the queue. */
  lemma ParseWorkerFrame(p: ParseSide, w: nat, a: ParseWorkerAction)
    requires ParseWorkerEnabled(p, w, a)
    ensures p.workers != [] && !ParseWorkersEnded(p.workers)
    ensures
      var q := ParseWorkerApply(p, w, a);
      && q.at == p.at && q.exit == p.exit && q.isFinish == p.isFinish && q.openFailed == p.openFailed
      && |q.queue| <= |p.queue|
  {
    hide TakeCount;
    assert !(p.workers[w].ParseFailed? || p.workers[w].ParseLeft?);
  }

  lemma PointFrame(c: Config, items: set<string>, p: ParseSide, q: ParseSide)
    requires ParserPoint(c, items, p) && p.workers != []
    requires q.at == p.at && q.openFailed == p.openFailed && |q.queue| <= |p.queue|
    ensures ParserPoint(c, items, q)
  {
    hide ItemsThere;
  }

  lemma ParseWorkerMoves(c: Config, items: set<string>, p: ParseSide, w: nat, a: ParseWorkerAction)
    requires ParserPoint(c, items, p) && ParserFlags(p) && ParseWorkerEnabled(p, w, a)
    ensures
      var q := ParseWorkerApply(p, w, a);
      && ParserPoint(c, items, q) && ParserFlags(q) && q.at == p.at && q.exit == p.exit
  {
    hide ParserPoint, ParseWorkerApply, ParseWorkerEnabled, ParseWorkersEnded;
    ParseWorkerFrame(p, w, a);
    PointFrame(c, items, p, ParseWorkerApply(p, w, a));
  }

  lemma OneWorkerChanges(p: ParseSide, w: nat, a: ParseWorkerAction)
    requires ParseWorkerEnabled(p, w, a)
    ensures w < |p.workers|
    ensures
      var q := ParseWorkerApply(p, w, a);
      q.added == p.added && |q.workers| == |p.workers| && q.workers == p.workers[w := q.workers[w]]
  {
    hide TakeCount;
  }

  /** How often a line is in the queue, in one worker's hands, or worked off. */
  function Count(p: ParseSide, w: nat, x: SeedLine): nat
    requires w < |p.workers|
  {
    multiset(p.queue)[x] + InHand(p.workers[w])[x] + p.processed[x]
  }

  lemma SplitBag<T>(s: seq<T>, k: nat, x: T)
    requires k <= |s|
    ensures multiset(s)[x] == multiset(s[..k])[x] + multiset(s[k..])[x]
  {
    assert s == s[..k] + s[k..];
  }

  lemma GetBalance(p: ParseSide, w: nat, a: ParseWorkerAction, x: SeedLine)
    requires ParseWorkerEnabled(p, w, a) && a.Gets?
    ensures Count(ParseWorkerApply(p, w, a), w, x) == Count(p, w, x)
  {
    SplitBag(p.queue, TakeCount(|p.queue|, PAGES_PER_GET), x);
  }

  /** Working off a line takes it out of the worker's hands; a worker with none left goes back to the queue. */
  lemma WorkStep(p: ParseSide, w: nat, a: ParseWorkerAction)
    requires ParseWorkerEnabled(p, w, a) && a.Works?
    ensures
      var todo, q := p.workers[w].todo, ParseWorkerApply(p, w, a);
      && q.queue == p.queue && |q.workers| == |p.workers|
      && (if todo == [] then q.workers[w] == ParseGet && q.processed == p.processed
          else q.workers[w] == ParseWork(todo[1..]) && q.processed == p.processed + multiset{todo[0]})
  {
    hide TakeCount;
  }

  lemma FirstOff<T>(s: seq<T>, x: T)
    requires s != []
    ensures multiset(s)[x] == multiset(s[1..])[x] + multiset{s[0]}[x]
  {
    assert s == [s[0]] + s[1..];
  }

  lemma WorkBalance(p: ParseSide, w: nat, a: ParseWorkerAction, x: SeedLine)
    requires ParseWorkerEnabled(p, w, a) && a.Works?
    ensures Count(ParseWorkerApply(p, w, a), w, x) == Count(p, w, x)
  {
    hide ParseWorkerApply;
    WorkStep(p, w, a);
    var todo := p.workers[w].todo;
    if todo != [] {
      FirstOff(todo, x);
    }
  }

  lemma ParseWorkerBalance(p: ParseSide, w: nat, a: ParseWorkerAction, x: SeedLine)
    requires ParseWorkerEnabled(p, w, a)
    ensures |ParseWorkerApply(p, w, a).workers| == |p.workers|
    ensures Count(ParseWorkerApply(p, w, a), w, x) == Count(p, w, x)
  {
    if a.Gets? {
      GetBalance(p, w, a, x);
    } else if a.Works? {
      WorkBalance(p, w, a, x);
    }
  }

  lemma ParseWorkerConserves(p: ParseSide, w: nat, a: ParseWorkerAction)
    requires Conserved(p) && ParseWorkerEnabled(p, w, a)
    ensures Conserved(ParseWorkerApply(p, w, a))
  {
    hide AllInHand, InHand, ParseWorkerApply, ParseWorkerEnabled;
    var q := ParseWorkerApply(p, w, a);
    OneWorkerChanges(p, w, a);
    InHandAfter(p.workers, w, q.workers[w]);
    forall x
      ensures q.added[x] == (multiset(q.queue) + AllInHand(q.workers) + q.processed)[x]
    {
      assert (AllInHand(q.workers) + InHand(p.workers[w]))[x] == (AllInHand(p.workers) + InHand(q.workers[w]))[x];
      ParseWorkerBalance(p, w, a, x);
      assert p.added[x] == multiset(p.queue)[x] + AllInHand(p.workers)[x] + p.processed[x];
    }
    assert q.added == multiset(q.queue) + AllInHand(q.workers) + q.processed;
  }

  lemma ParseWorkerKeeps(c: Config, items: set<string>, p: ParseSide, w: nat, a: ParseWorkerAction)
    requires ParseInv(c, items, p) && ParseWorkerEnabled(p, w, a)
    ensures ParseInv(c, items, ParseWorkerApply(p, w, a))
    ensures ParseWorkerApply(p, w, a).at == p.at && ParseWorkerApply(p, w, a).exit == p.exit
  {
    ParseWorkerConserves(p, w, a);
    ParseWorkerMoves(c, items, p, w, a);
    hide Conserved, ParserPoint, ParserFlags, ParseWorkerApply;
  }

  lemma DownerScans(c: Config, pages: map<string, nat>, parseExit: bool, d: DownSide, a: DownerAction)
    requires DownInv(c, parseExit, d) && DownerEnabled(c, d, a)
    requires a.Opens? || a.Looks? || a.Scanned? || a.Offers?
    ensures DownInv(c, parseExit, DownerApply(c, pages, parseExit, d, a))
    ensures DownerEnded(d.at) ==> DownerEnded(DownerApply(c, pages, parseExit, d, a).at)
  {
    hide DownWorkersEnded, Kept, PageOf, PageBatch;
  }

  lemma DownerTurns(c: Config, pages: map<string, nat>, parseExit: bool, d: DownSide, a: DownerAction)
    requires DownInv(c, parseExit, d) && DownerEnabled(c, d, a)
    requires a.GivesUp? || a.Creates? || a.SeesEmpty? || a.Decides? || a.Raises?
    ensures DownInv(c, parseExit, DownerApply(c, pages, parseExit, d, a))
    ensures DownerEnded(d.at) ==> DownerEnded(DownerApply(c, pages, parseExit, d, a).at)
  {
    hide DownerLooksAt;
  }

  lemma DownerKeeps(c: Config, pages: map<string, nat>, parseExit: bool, d: DownSide, a: DownerAction)
    requires DownInv(c, parseExit, d) && DownerEnabled(c, d, a)
    ensures DownInv(c, parseExit, DownerApply(c, pages, parseExit, d, a))
    ensures DownerEnded(d.at) ==> DownerEnded(DownerApply(c, pages, parseExit, d, a).at)
  {
    hide DownInv, DownerApply, DownerEnabled;
    if a.Opens? || a.Looks? || a.Scanned? || a.Offers? {
      DownerScans(c, pages, parseExit, d, a);
    } else {
      DownerTurns(c, pages, parseExit, d, a);
    }
  }

  lemma DownWorkerKeeps(c: Config, parseExit: bool, d: DownSide, w: nat, a: DownWorkerAction)
    requires DownInv(c, parseExit, d) && DownWorkerEnabled(d, w, a)
    ensures DownInv(c, parseExit, DownWorkerApply(d, w, a)) && DownWorkerApply(d, w, a).at == d.at
  {
    assert !(d.workers[w].DownFailed? || d.workers[w].DownLeft?);
  }

  lemma TaskKeeps(c: Config, s: State)
    requires Inv(c, s) && TaskEnabled(s)
    ensures Inv(c, TaskApply(s))
  {
    hide AllInHand, ItemsThere, ParseWorkersEnded, DownWorkersEnded;
  }

  lemma DownExitFrame(c: Config, before: bool, after: bool, d: DownSide)
    requires DownInv(c, before, d) && (before ==> after)
    ensures DownInv(c, after, d)
  {
  }

  lemma StepKeeps(c: Config, s: State, a: Action)
    requires Inv(c, s) && Enabled(c, s, a)
    ensures Inv(c, Apply(c, s, a))
  {
    hide ParseInv, DownInv, TaskEnabled, ParserEnabled, DownerEnabled, ParseWorkerEnabled, DownWorkerEnabled;
    hide TaskApply, ParserApply, DownerApply, ParseWorkerApply, DownWorkerApply;
    var items, t := s.disk.items, Apply(c, s, a);
    match a
    case TaskStep => TaskKeeps(c, s);
    case ParserAct(b) =>
      ParserKeeps(c, items, s.parse, b);
      DownExitFrame(c, s.parse.exit, t.parse.exit, s.down);
    case DownerAct(b) => DownerKeeps(c, s.disk.pages, s.parse.exit, s.down, b);
    case ParseWorkerAct(w, b) =>
      ParseWorkerKeeps(c, items, s.parse, w, b);
      ItemsOnlyHelp(c, items, t.disk.items, t.parse);
    case DownWorkerAct(w, b) => DownWorkerKeeps(c, s.parse.exit, s.down, w, b);
    case ItemAppears(_) => ItemsOnlyHelp(c, items, t.disk.items, s.parse);
    case PageAppears(_, _) =>
  }

  /** The invariant holds in every state of every schedule. */
  lemma {:induction false} Always(c: Config, states: seq<State>, actions: seq<Action>, i: nat)
    requires IsRun(c, states, actions) && i < |states|
    ensures Inv(c, states[i])
  {
    hide Inv, Apply, Enabled, Init;
    if i == 0 {
      InitInv(c, states[0]);
    } else {
      Always(c, states, actions, i - 1);
      StepKeeps(c, states[i - 1], actions[i - 1]);
    }
  }
}
