/**
 What one scan of the parse dispatcher does in a run, while the disk changes under it: which lines it queues, in
 which batches, and what it counts.
 */
module PipelineScans {
  import opened Basics
  import opened Queues
  import opened Dispatch
  import opened Pipeline

  predicate InScan(p: ParseSide) {
    p.at.ParserScan? || p.at.ParserOffer?
  }

  /** From state `i` to state `j` the dispatcher is in one scan, which begins at `i` with opening the seed file. */
  ghost predicate OneScan(states: seq<State>, actions: seq<Action>, i: nat, j: nat)
    requires |states| == |actions| + 1
  {
    && 0 < i <= j < |states| && actions[i - 1] == ParserAct(ParserAction.Opens(true))
    && forall m :: i <= m <= j ==> InScan(states[m].parse)
  }

  predicate LooksForItem(c: Config, s: State, a: Action) {
    a == ParserAct(ParserAction.Looks) && s.parse.at.ParserScan? && s.parse.at.line < |c.seed|
  }

  /** One answer for each line looked at: was its item there in the state it was looked at? */
  function Answers(c: Config, states: seq<State>, actions: seq<Action>, i: nat, j: nat): seq<bool>
    requires i <= j < |states| == |actions| + 1
    decreases j - i
  {
    if i == j then []
    else
      var s := states[j - 1];
      Answers(c, states, actions, i, j - 1)
      + if LooksForItem(c, s, actions[j - 1]) then [c.seed[s.parse.at.line].item in s.disk.items] else []
  }

  predicate QueuesBatch(s: State, a: Action) {
    a == ParserAct(ParserAction.Offers) && s.parse.at.ParserOffer?
  }

  /** The batches put in the queue from state `i` to state `j`. */
  function Queued(states: seq<State>, actions: seq<Action>, i: nat, j: nat): seq<seq<SeedLine>>
    requires i <= j < |states| == |actions| + 1
    decreases j - i
  {
    if i == j then []
    else
      var s := states[j - 1];
      Queued(states, actions, i, j - 1) + if QueuesBatch(s, actions[j - 1]) then [s.parse.at.cur] else []
  }

  /** Everything the scan has let go so far, and the batch on offer if there is one. */
  function OutOf(p: ParseSide, batches: seq<seq<SeedLine>>): seq<seq<SeedLine>> {
    if p.at.ParserOffer? then batches + [p.at.cur] else batches
  }

  function InHandOf(p: ParseSide): seq<SeedLine> {
    if p.at.ParserScan? then p.at.cur else []
  }

  /**
   What a scan has done: the lines without item so far are those in the batches it queued, the one on offer and
   those in hand, in order, and it counts them; the first batch is one line and the others are of twenty.
   */
  ghost predicate ScanState(c: Config, p: ParseSide, there: seq<bool>, batches: seq<seq<SeedLine>>) {
    && InScan(p)
    && |there| == p.at.line <= |c.seed|
    && var missing := Missing(c.seed[..p.at.line], there);
    && p.at.counter == |missing|
    && (if p.at.ParserOffer? && p.at.last then
          && p.at.line == |c.seed|
          && Flatten(OutOf(p, batches)) == missing && Cut(OutOf(p, batches), 1, PARSE_BATCH)
        else Dispatch.Scanned(OutOf(p, batches), InHandOf(p), missing, 1, PARSE_BATCH))
  }

  /** Everything a finished scan did: all lines looked at, and those without item queued and counted. */
  ghost predicate ScanIsOver(c: Config, there: seq<bool>, batches: seq<seq<SeedLine>>, count: nat) {
    && |there| == |c.seed|
    && count == |Missing(c.seed, there)|
    && Flatten(batches) == Missing(c.seed, there)
    && Cut(batches, 1, 20)
  }

  lemma LongerMissing<T>(lines: seq<T>, there: seq<bool>, line: T, answer: bool)
    requires |lines| == |there|
    ensures Missing(lines + [line], there + [answer]) == Missing(lines, there) + if answer then [] else [line]
  {
    assert (lines + [line])[..|lines|] == lines && (there + [answer])[..|lines|] == there;
  }

  // ---- one step ----

  /** Looking at a line moves on by one; without its item the line joins those in hand, or fills the batch. */
  lemma LookIs(c: Config, items: set<string>, p: ParseSide)
    requires ParserEnabled(c, p, ParserAction.Looks)
    ensures
      var at, q := p.at, ParserApply(c, items, p, ParserAction.Looks).at;
      var line := c.seed[at.line];
      if line.item in items then q == ParserScan(at.line + 1, at.cur, at.counter)
      else if at.counter % PARSE_BATCH == 0 then q == ParserOffer(at.line + 1, at.cur + [line], at.counter + 1, false)
      else q == ParserScan(at.line + 1, at.cur + [line], at.counter + 1)
  {
  }

  lemma LookScans(c: Config, items: set<string>, p: ParseSide, there: seq<bool>, batches: seq<seq<SeedLine>>)
    requires ScanState(c, p, there, batches) && ParserEnabled(c, p, ParserAction.Looks)
    ensures ScanState(c, ParserApply(c, items, p, ParserAction.Looks),
                      there + [c.seed[p.at.line].item in items], batches)
  {
    hide Missing, ParserApply, Dispatch.Scanned, Flatten, Cut, Due;
    LookIs(c, items, p);
    var ParserScan(line, cur, counter) := p.at;
    var seen, answer := c.seed[..line], c.seed[line].item in items;
    assert c.seed[..line + 1] == seen + [c.seed[line]];
    LongerMissing(seen, there, c.seed[line], answer);
    var missing := Missing(seen, there);
    if answer {
      assert missing + [] == missing;
    } else {
      ParseDue(batches, cur, missing);
      LineScanned(batches, cur, missing, 1, PARSE_BATCH, c.seed[line]);
    }
  }

  /** At the end of the file the lines in hand go on offer. */
  lemma LastLinesScan(c: Config, items: set<string>, p: ParseSide, there: seq<bool>, batches: seq<seq<SeedLine>>)
    requires ScanState(c, p, there, batches) && ParserEnabled(c, p, ParserAction.Scanned)
    ensures
      var q := ParserApply(c, items, p, ParserAction.Scanned);
      if p.at.cur != [] then ScanState(c, q, there, batches)
      else q.at == ParserDrain(p.at.counter) && ScanIsOver(c, there, batches, p.at.counter)
  {
    hide Missing, Dispatch.Scanned, Flatten, Cut;
    assert c.seed[..|c.seed|] == c.seed;
    ScanEnds(batches, p.at.cur, Missing(c.seed, there), 1, PARSE_BATCH);
  }

  /** The batch on offer is in the queue; the scan goes on with nothing in hand, or is over. */
  lemma OfferScans(c: Config, items: set<string>, p: ParseSide, there: seq<bool>, batches: seq<seq<SeedLine>>)
    requires ScanState(c, p, there, batches) && ParserEnabled(c, p, ParserAction.Offers)
    ensures
      var q := ParserApply(c, items, p, ParserAction.Offers);
      var batches' := batches + [p.at.cur];
      if p.at.last then q.at == ParserDrain(p.at.counter) && ScanIsOver(c, there, batches', p.at.counter)
      else ScanState(c, q, there, batches')
  {
    hide Missing, Dispatch.Scanned, Flatten, Cut;
    assert c.seed[..|c.seed|] == c.seed;
  }

  /** Other threads do not move the dispatcher. */
  lemma OthersLeaveScan(c: Config, s: State, a: Action)
    requires Enabled(c, s, a) && !a.ParserAct? && InScan(s.parse)
    ensures Apply(c, s, a).parse.at == s.parse.at && Apply(c, s, a).parse.added == s.parse.added
  {
    hide ParserEnabled, ParserApply, DownerEnabled, DownerApply, DownWorkerEnabled, DownWorkerApply, TakeCount;
  }

  function ThereAfter(c: Config, s: State, a: Action, there: seq<bool>): seq<bool> {
    there + if LooksForItem(c, s, a) then [c.seed[s.parse.at.line].item in s.disk.items] else []
  }

  function QueuedAfter(s: State, a: Action, batches: seq<seq<SeedLine>>): seq<seq<SeedLine>> {
    batches + if QueuesBatch(s, a) then [s.parse.at.cur] else []
  }

  lemma InScanIs(c: Config, p: ParseSide, there: seq<bool>, batches: seq<seq<SeedLine>>)
    requires ScanState(c, p, there, batches)
    ensures InScan(p)
  {
  }

  lemma SamePoint(c: Config, p: ParseSide, q: ParseSide, there: seq<bool>, batches: seq<seq<SeedLine>>)
    requires ScanState(c, p, there, batches) && q.at == p.at
    ensures ScanState(c, q, there, batches)
  {
    hide Missing, Dispatch.Scanned, Flatten, Cut;
  }

  lemma ParserStepScans(c: Config, s: State, a: ParserAction, there: seq<bool>, batches: seq<seq<SeedLine>>)
    requires ParserEnabled(c, s.parse, a) && ScanState(c, s.parse, there, batches)
    ensures
      var q := ParserApply(c, s.disk.items, s.parse, a);
      var there', batches' := ThereAfter(c, s, ParserAct(a), there), QueuedAfter(s, ParserAct(a), batches);
      if InScan(q) then ScanState(c, q, there', batches')
      else q.at.ParserDrain? && ScanIsOver(c, there', batches', q.at.count)
  {
    hide ScanState, ScanIsOver, ParserApply;
    var items := s.disk.items;
    InScanIs(c, s.parse, there, batches);
    match a
    case Looks =>
      LookScans(c, items, s.parse, there, batches);
      InScanIs(c, ParserApply(c, items, s.parse, a), there + [c.seed[s.parse.at.line].item in items], batches);
      assert batches + [] == batches;
    case Scanned =>
      LastLinesScan(c, items, s.parse, there, batches);
      assert batches + [] == batches && there + [] == there;
      if s.parse.at.cur != [] {
        InScanIs(c, ParserApply(c, items, s.parse, a), there, batches);
      }
    case Offers =>
      OfferScans(c, items, s.parse, there, batches);
      assert there + [] == there;
      if !s.parse.at.last {
        InScanIs(c, ParserApply(c, items, s.parse, a), there, batches + [s.parse.at.cur]);
      }
    case _ =>
  }

  lemma StepScans(c: Config, s: State, a: Action, there: seq<bool>, batches: seq<seq<SeedLine>>)
    requires Enabled(c, s, a) && ScanState(c, s.parse, there, batches)
    ensures
      var q := Apply(c, s, a).parse;
      var there', batches' := ThereAfter(c, s, a, there), QueuedAfter(s, a, batches);
      if InScan(q) then ScanState(c, q, there', batches')
      else q.at.ParserDrain? && ScanIsOver(c, there', batches', q.at.count)
  {
    hide ScanState, ScanIsOver, ParserApply, ParserEnabled;
    InScanIs(c, s.parse, there, batches);
    if a.ParserAct? {
      ParserStepScans(c, s, a.parser, there, batches);
    } else {
      OthersLeaveScan(c, s, a);
      SamePoint(c, s.parse, Apply(c, s, a).parse, there, batches);
      assert batches + [] == batches && there + [] == there;
    }
  }

  lemma OtherQueuesNothing(c: Config, s: State, a: Action)
    requires Enabled(c, s, a) && !QueuesBatch(s, a)
    ensures Apply(c, s, a).parse.added == s.parse.added
  {
    hide DownerEnabled, DownerApply, DownWorkerEnabled, DownWorkerApply, TakeCount, ParserLooksAt;
  }

  lemma OfferQueues(c: Config, s: State, a: Action)
    requires Enabled(c, s, a) && QueuesBatch(s, a)
    ensures Apply(c, s, a).parse.added == s.parse.added + multiset(s.parse.at.cur)
    ensures Apply(c, s, a).parse.queue == s.parse.at.cur + s.parse.queue
  {
    hide ParserLooksAt;
  }

  // ---- runs ----

  lemma OpenBeginsScan(c: Config, s: State)
    requires Enabled(c, s, ParserAct(ParserAction.Opens(true)))
    ensures ScanState(c, Apply(c, s, ParserAct(ParserAction.Opens(true))).parse, [], [])
  {
    NothingScanned<SeedLine>(1, PARSE_BATCH);
  }

  /** All through a scan, what it queued and has in hand are the lines it found without item, and it counts them. */
  lemma {:induction false} ScanQueuesMissing(c: Config, states: seq<State>, actions: seq<Action>, i: nat, j: nat)
    requires IsRun(c, states, actions) && OneScan(states, actions, i, j)
    ensures ScanState(c, states[j].parse, Answers(c, states, actions, i, j), Queued(states, actions, i, j))
    decreases j - i
  {
    hide ScanState, ScanIsOver, Apply, Enabled, Init;
    assert Enabled(c, states[j - 1], actions[j - 1]) && states[j] == Apply(c, states[j - 1], actions[j - 1]);
    if i == j {
      OpenBeginsScan(c, states[i - 1]);
    } else {
      ScanQueuesMissing(c, states, actions, i, j - 1);
      StepScans(c, states[j - 1], actions[j - 1], Answers(c, states, actions, i, j - 1),
                Queued(states, actions, i, j - 1));
      assert InScan(states[j].parse);
    }
  }

  lemma NoneFlat()
    ensures Flatten<SeedLine>([]) == []
  {
  }

  /** The lines ever added grow by the batches queued. */
  lemma {:induction false} AddedAreQueued(c: Config, states: seq<State>, actions: seq<Action>, i: nat, j: nat)
    requires IsRun(c, states, actions) && i <= j < |states|
    ensures states[j].parse.added == states[i].parse.added + multiset(Flatten(Queued(states, actions, i, j)))
    decreases j - i
  {
    hide Apply, Enabled, Init, Flatten;
    NoneFlat();
    if i == j {
    } else {
      AddedAreQueued(c, states, actions, i, j - 1);
      var s, before := states[j - 1], Queued(states, actions, i, j - 1);
      assert Enabled(c, s, actions[j - 1]) && states[j] == Apply(c, s, actions[j - 1]);
      if QueuesBatch(s, actions[j - 1]) {
        OfferQueues(c, s, actions[j - 1]);
        FlattenNext(before, s.parse.at.cur);
      } else {
        OtherQueuesNothing(c, s, actions[j - 1]);
        assert before + [] == before;
      }
    }
  }

  lemma AnswersNext(c: Config, states: seq<State>, actions: seq<Action>, i: nat, j: nat)
    requires i < j < |states| == |actions| + 1
    ensures Answers(c, states, actions, i, j)
         == ThereAfter(c, states[j - 1], actions[j - 1], Answers(c, states, actions, i, j - 1))
    ensures Queued(states, actions, i, j)
         == QueuedAfter(states[j - 1], actions[j - 1], Queued(states, actions, i, j - 1))
  {
  }

  lemma OverMeans(c: Config, there: seq<bool>, batches: seq<seq<SeedLine>>, count: nat)
    requires ScanIsOver(c, there, batches, count)
    ensures |there| == |c.seed| && Flatten(batches) == Missing(c.seed, there)
  {
    hide Missing, Flatten, Cut;
  }

  /**
   In every run, when a scan is through it has looked at every seed line, has queued exactly the lines whose item
   was not there when they were looked at, in order, one alone and then twenty at a time, and returns their number.
   */
  lemma ScanAddsWhatItMissed(c: Config, states: seq<State>, actions: seq<Action>, i: nat, j: nat)
    requires IsRun(c, states, actions) && j < |actions|
    requires OneScan(states, actions, i, j) && !InScan(states[j + 1].parse)
    ensures
      var there, at := Answers(c, states, actions, i, j + 1), states[j + 1].parse.at;
      && at.ParserDrain? && ScanIsOver(c, there, Queued(states, actions, i, j + 1), at.count)
      && |there| == |c.seed|
      && states[j + 1].parse.added == states[i].parse.added + multiset(Missing(c.seed, there))
  {
    hide ScanState, ScanIsOver, Apply, Enabled, Init, Missing, Flatten, ThereAfter, QueuedAfter, Answers, Queued;
    AddedAreQueued(c, states, actions, i, j + 1);
    ScanQueuesMissing(c, states, actions, i, j);
    StepScans(c, states[j], actions[j], Answers(c, states, actions, i, j), Queued(states, actions, i, j));
    AnswersNext(c, states, actions, i, j + 1);
    OverMeans(c, Answers(c, states, actions, i, j + 1), Queued(states, actions, i, j + 1),
              states[j + 1].parse.at.count);
  }

  lemma ParserOpensScan(c: Config, items: set<string>, p: ParseSide, a: ParserAction)
    requires ParserEnabled(c, p, a) && !InScan(p) && InScan(ParserApply(c, items, p, a))
    ensures a == ParserAction.Opens(true)
  {
    hide ParserLooksAt;
  }

  lemma OthersOpenNoScan(c: Config, s: State, a: Action)
    requires Enabled(c, s, a) && !a.ParserAct? && !InScan(s.parse)
    ensures !InScan(Apply(c, s, a).parse)
  {
    hide DownerEnabled, DownerApply, DownWorkerEnabled, DownWorkerApply, TakeCount, ParserEnabled, ParserApply,
      DownerPages, DownWorkerPages, ParseWorkerDisk;
  }

  lemma OpenedBefore(c: Config, s: State, a: Action)
    requires Enabled(c, s, a) && !InScan(s.parse) && InScan(Apply(c, s, a).parse)
    ensures a == ParserAct(ParserAction.Opens(true))
  {
    hide ParserEnabled, ParserApply, DownerEnabled, DownWorkerEnabled, ParseWorkerEnabled, InScan;
    if a.ParserAct? {
      ParserOpensScan(c, s.disk.items, s.parse, a.parser);
    } else {
      OthersOpenNoScan(c, s, a);
    }
  }

  /** Wherever a run finds the dispatcher in a scan, that scan began with opening the file. */
  lemma {:induction false} EveryScanBegins(c: Config, states: seq<State>, actions: seq<Action>, j: nat)
    requires IsRun(c, states, actions) && j < |states| && InScan(states[j].parse)
    ensures exists i :: OneScan(states, actions, i, j)
  {
    hide Apply, Enabled;
    if j == 0 {
    } else {
      assert Enabled(c, states[j - 1], actions[j - 1]) && states[j] == Apply(c, states[j - 1], actions[j - 1]);
      if InScan(states[j - 1].parse) {
        EveryScanBegins(c, states, actions, j - 1);
        var i :| OneScan(states, actions, i, j - 1);
        assert OneScan(states, actions, i, j);
      } else {
        OpenedBefore(c, states[j - 1], actions[j - 1]);
        assert OneScan(states, actions, j, j);
      }
    }
  }
}
