/**
 One crawl task as atomic steps: the task thread, the download and the parse dispatcher, their workers, the two
 queues, the flags they share, and the files. A run is any interleaving of them; what the remote services and the
 disk do is in the actions themselves.
 */
module Pipeline {
  import opened Queues
  import opened Dispatch

  type Batch = map<string, seq<SeedLine>>

  const PAGES_PER_GET: nat := 5

  datatype Config = Config(seed: seq<SeedLine>, parseHosts: nat, downHosts: nat, pageLimit: int, pagesPerProxy: int)

  datatype Status = Fresh | Crawling | Crawled

  datatype Task = Prepared | Marked | DownStarted | ParseStarted | ParseJoined | DownJoined | Imported | Ended

  /** Program points of `start_parse` and of the scan it calls. */
  datatype Parser =
    | ParserUnborn | ParserStart | ParserGaveUp
    | ParserOpen
    | ParserScan(line: nat, cur: seq<SeedLine>, counter: nat)
    | ParserOffer(line: nat, cur: seq<SeedLine>, counter: nat, last: bool)
    | ParserDrain(count: nat)
    | ParserTest(count: nat)
    | ParserFinish | ParserExit | ParserJoin | ParserDone

  /** Program points of `start_down`; the count is -2 after a failed open. */
  datatype Downer =
    | DownerUnborn | DownerStart | DownerGaveUp
    | DownerOpen
    | DownerScan(line: nat, urls: seq<SeedLine>, counter: nat)
    | DownerOffer(line: nat, batch: Batch, counter: nat, last: bool)
    | DownerDrain(count: int)
    | DownerTest(count: int)
    | DownerFinish | DownerJoin | DownerDone

  datatype ParseWorker = ParseConnect | ParseFailed | ParseGet | ParseCheck(got: seq<SeedLine>)
                       | ParseWork(todo: seq<SeedLine>) | ParseLeft

  datatype DownWorker = DownConnect | DownFailed | DownGet | DownCheck(got: Batch) | DownWork(todo: Batch) | DownLeft

  /** The files: which item files exist, and the size of every page file that exists. */
  datatype Disk = Disk(items: set<string>, pages: map<string, nat>)

  /**
   Everything the parse dispatcher and its workers share. `added` and `processed` count the lines ever queued and
   worked off; `openFailed` says that the last scan could not open the seed file.
   */
  datatype ParseSide = ParseSide(
    queue: seq<SeedLine>, isFinish: bool, exit: bool, at: Parser, workers: seq<ParseWorker>,
    added: multiset<SeedLine>, processed: multiset<SeedLine>, openFailed: bool)

  /** Everything the download dispatcher and its workers share; `openFailed` says that some scan ever failed. */
  datatype DownSide = DownSide(
    queue: seq<Batch>, isFinish: bool, at: Downer, workers: seq<DownWorker>, openFailed: bool)

  datatype State = State(disk: Disk, parse: ParseSide, down: DownSide, task: Task, status: Status)

  ghost predicate Init(s: State) {
    && s.parse == ParseSide([], false, false, ParserUnborn, [], multiset{}, multiset{}, false)
    && s.down == DownSide([], false, DownerUnborn, [], false)
    && s.task == Prepared && s.status == Fresh
  }

  datatype ParserAction = GivesUp | Creates | Opens(ok: bool) | Looks | Scanned | Offers | SeesEmpty | Decides | Raises

  datatype DownerAction = GivesUp | Creates | Opens(ok: bool) | Looks(proxy: string) | Scanned(proxy: string)
                        | Offers | SeesEmpty | Decides | Raises

  datatype ParseWorkerAction = Connects(ok: bool) | Gets | Checks | Works(answered: bool, removePage: bool)

  datatype DownWorkerAction = Connects(ok: bool) | Gets | Checks | Works(proxy: string, fetched: map<string, nat>)

  datatype Action =
    | TaskStep
    | ParserAct(parser: ParserAction) | DownerAct(downer: DownerAction)
    | ParseWorkerAct(w: nat, parseWork: ParseWorkerAction) | DownWorkerAct(w: nat, downWork: DownWorkerAction)
    | ItemAppears(path: string) | PageAppears(path: string, size: nat)

  predicate ParserEnded(p: Parser) {
    p.ParserDone? || p.ParserGaveUp?
  }

  predicate DownerEnded(d: Downer) {
    d.DownerDone? || d.DownerGaveUp?
  }

  predicate ParseWorkersEnded(ws: seq<ParseWorker>) {
    forall w :: 0 <= w < |ws| ==> ws[w].ParseFailed? || ws[w].ParseLeft?
  }

  predicate DownWorkersEnded(ws: seq<DownWorker>) {
    forall w :: 0 <= w < |ws| ==> ws[w].DownFailed? || ws[w].DownLeft?
  }

  // ---- the task thread ----

  predicate TaskEnabled(s: State) {
    match s.task
    case Marked => s.down.at.DownerUnborn?
    case DownStarted => s.parse.at.ParserUnborn?
    case ParseStarted => ParserEnded(s.parse.at)
    case ParseJoined => DownerEnded(s.down.at)
    case Ended => false
    case _ => true
  }

  function TaskApply(s: State): State {
    match s.task
    case Prepared => s.(task := Marked, status := Crawling)
    case Marked => s.(task := DownStarted, down := s.down.(at := DownerStart))
    case DownStarted => s.(task := ParseStarted, parse := s.parse.(at := ParserStart))
    case ParseStarted => s.(task := ParseJoined)
    case ParseJoined => s.(task := DownJoined)
    case DownJoined => s.(task := Imported)
    case Imported => s.(task := Ended, status := Crawled)
    case Ended => s
  }

  // ---- the parse dispatcher ----

  predicate ParserEnabled(c: Config, p: ParseSide, a: ParserAction) {
    match a
    case GivesUp => p.at.ParserStart?
    case Creates => p.at.ParserStart?
    case Opens(_) => p.at.ParserOpen?
    case Looks => p.at.ParserScan? && p.at.line < |c.seed|
    case Scanned => p.at.ParserScan? && p.at.line == |c.seed|
    case Offers => p.at.ParserOffer? && |p.at.cur| + |p.queue| <= PARSE_CAPACITY
    case SeesEmpty => p.at.ParserDrain? && p.queue == []
    case Decides => p.at.ParserTest?
    case Raises => p.at.ParserFinish? || p.at.ParserExit? || (p.at.ParserJoin? && ParseWorkersEnded(p.workers))
  }

  /** One seed line: nothing if its item file is there, otherwise it joins the batch in hand. */
  function ParserLooksAt(c: Config, items: set<string>, at: Parser): Parser
    requires at.ParserScan? && at.line < |c.seed|
  {
    var ParserScan(line, cur, counter) := at;
    if c.seed[line].item in items then ParserScan(line + 1, cur, counter)
    else if counter % PARSE_BATCH == 0 then ParserOffer(line + 1, cur + [c.seed[line]], counter + 1, false)
    else ParserScan(line + 1, cur + [c.seed[line]], counter + 1)
  }

  function ParserApply(c: Config, items: set<string>, p: ParseSide, a: ParserAction): ParseSide
    requires ParserEnabled(c, p, a)
  {
    match a
    case GivesUp => p.(at := ParserGaveUp)
    case Creates => p.(at := ParserOpen, workers := seq(c.parseHosts, i => ParseConnect))
    case Opens(ok) =>
      if ok then p.(at := ParserScan(0, [], 0), openFailed := false)
      else p.(at := ParserDrain(0), openFailed := true)
    case Looks => p.(at := ParserLooksAt(c, items, p.at))
    case Scanned =>
      var ParserScan(line, cur, counter) := p.at;
      p.(at := if |cur| > 0 then ParserOffer(line, cur, counter, true) else ParserDrain(counter))
    case Offers =>
      var ParserOffer(line, cur, counter, last) := p.at;
      p.(queue := cur + p.queue, added := p.added + multiset(cur),
         at := if last then ParserDrain(counter) else ParserScan(line, [], counter))
    case SeesEmpty => p.(at := ParserTest(p.at.count))
    case Decides => p.(at := if p.at.count > 0 then ParserOpen else ParserFinish)
    case Raises =>
      if p.at.ParserFinish? then p.(at := ParserExit, isFinish := true)
      else if p.at.ParserExit? then p.(at := ParserJoin, exit := true)
      else p.(at := ParserDone)
  }

  // ---- the download dispatcher ----

  predicate DownerEnabled(c: Config, d: DownSide, a: DownerAction) {
    match a
    case GivesUp => d.at.DownerStart?
    case Creates => d.at.DownerStart?
    case Opens(_) => d.at.DownerOpen?
    case Looks(_) => d.at.DownerScan? && d.at.line < |c.seed|
    case Scanned(_) => d.at.DownerScan? && d.at.line == |c.seed|
    case Offers => d.at.DownerOffer? && |d.at.batch| + |d.queue| <= DOWN_CAPACITY
    case SeesEmpty => d.at.DownerDrain? && d.queue == []
    case Decides => d.at.DownerTest?
    case Raises => d.at.DownerFinish? || (d.at.DownerJoin? && DownWorkersEnded(d.workers))
  }

  function PageOf(pages: map<string, nat>, line: SeedLine): PageFile {
    if line.html in pages then Present(pages[line.html]) else Absent
  }

  function DownerLooksAt(c: Config, pages: map<string, nat>, at: Downer, proxy: string): Downer
    requires at.DownerScan? && at.line < |c.seed|
  {
    var DownerScan(line, urls, counter) := at;
    if Kept(PageOf(pages, c.seed[line]), c.pageLimit) then DownerScan(line + 1, urls, counter)
    else if counter > 0 && counter % PageBatch(c.pagesPerProxy) == 0 then
      DownerOffer(line + 1, map[proxy := urls + [c.seed[line]]], counter + 1, false)
    else DownerScan(line + 1, urls + [c.seed[line]], counter + 1)
  }

  function DownerApply(c: Config, pages: map<string, nat>, parseExit: bool, d: DownSide, a: DownerAction): DownSide
    requires DownerEnabled(c, d, a)
  {
    match a
    case GivesUp => d.(at := DownerGaveUp)
    case Creates => d.(at := DownerOpen, workers := seq(c.downHosts, i => DownConnect))
    case Opens(ok) =>
      if ok then d.(at := DownerScan(0, [], 0))
      else d.(at := DownerDrain(-2), isFinish := true, openFailed := true)
    case Looks(proxy) => d.(at := DownerLooksAt(c, pages, d.at, proxy))
    case Scanned(proxy) =>
      var DownerScan(line, urls, counter) := d.at;
      d.(at := if |urls| > 0 then DownerOffer(line, map[proxy := urls], counter, true) else DownerDrain(counter))
    case Offers =>
      var DownerOffer(line, batch, counter, last) := d.at;
      d.(queue := d.queue + [batch], at := if last then DownerDrain(counter) else DownerScan(line, [], counter))
    case SeesEmpty => d.(at := DownerTest(d.at.count))
    case Decides => d.(at := if d.at.count > 0 || !parseExit then DownerOpen else DownerFinish)
    case Raises => if d.at.DownerFinish? then d.(at := DownerJoin, isFinish := true) else d.(at := DownerDone)
  }

  /** Looking at a line removes its page file when it is too small to keep. */
  function DownerPages(c: Config, pages: map<string, nat>, d: DownSide, a: DownerAction): map<string, nat>
    requires DownerEnabled(c, d, a)
  {
    if a.Looks? && !Kept(PageOf(pages, c.seed[d.at.line]), c.pageLimit) then pages - {c.seed[d.at.line].html} else pages
  }

  // ---- the workers ----

  predicate ParseWorkerEnabled(p: ParseSide, w: nat, a: ParseWorkerAction) {
    && w < |p.workers|
    && match a
       case Connects(_) => p.workers[w].ParseConnect?
       case Gets => p.workers[w].ParseGet?
       case Checks => p.workers[w].ParseCheck?
       case Works(_, _) => p.workers[w].ParseWork?
  }

  function ParseWorkerApply(p: ParseSide, w: nat, a: ParseWorkerAction): ParseSide
    requires ParseWorkerEnabled(p, w, a)
  {
    match a
    case Connects(ok) => p.(workers := p.workers[w := if ok then ParseGet else ParseFailed])
    case Gets =>
      var k := TakeCount(|p.queue|, PAGES_PER_GET);
      p.(queue := p.queue[k..], workers := p.workers[w := ParseCheck(p.queue[..k])])
    case Checks =>
      var got := p.workers[w].got;
      p.(workers := p.workers[w := if got != [] then ParseWork(got) else if p.isFinish then ParseLeft else ParseGet])
    case Works(_, _) =>
      var todo := p.workers[w].todo;
      if todo == [] then p.(workers := p.workers[w := ParseGet])
      else p.(workers := p.workers[w := ParseWork(todo[1..])], processed := p.processed + multiset{todo[0]})
  }

  /** A page's length is compared without sign, which makes a negative limit larger than any page. */
  function SizeLimit(limit: int): nat {
    limit % 0x1_0000_0000_0000_0000
  }

  /** `do_send_parse`: the page may be too small, or the remote parser may answer with an item file. */
  function ParseWorkerDisk(c: Config, disk: Disk, p: ParseSide, w: nat, a: ParseWorkerAction): Disk
    requires ParseWorkerEnabled(p, w, a)
  {
    if !a.Works? || p.workers[w].todo == [] then disk
    else
      var line := p.workers[w].todo[0];
      if line.html !in disk.pages || line.item in disk.items then disk
      else if disk.pages[line.html] < SizeLimit(c.pageLimit) then disk.(pages := disk.pages - {line.html})
      else Disk(if a.answered then disk.items + {line.item} else disk.items,
                if a.removePage then disk.pages - {line.html} else disk.pages)
  }

  predicate DownWorkerEnabled(d: DownSide, w: nat, a: DownWorkerAction) {
    && w < |d.workers|
    && match a
       case Connects(_) => d.workers[w].DownConnect?
       case Gets => d.workers[w].DownGet?
       case Checks => d.workers[w].DownCheck?
       case Works(proxy, _) => d.workers[w].DownWork? && (d.workers[w].todo == map[] || proxy in d.workers[w].todo)
  }

  function DownWorkerApply(d: DownSide, w: nat, a: DownWorkerAction): DownSide
    requires DownWorkerEnabled(d, w, a)
  {
    match a
    case Connects(ok) => d.(workers := d.workers[w := if ok then DownGet else DownFailed])
    case Gets => d.(queue := [], workers := d.workers[w := DownCheck(MergeFirst(d.queue))])
    case Checks =>
      var got := d.workers[w].got;
      d.(workers := d.workers[w := if got != map[] then DownWork(got) else if d.isFinish then DownLeft else DownGet])
    case Works(proxy, _) =>
      var todo := d.workers[w].todo;
      d.(workers := d.workers[w := if todo == map[] then DownGet else DownWork(todo - {proxy})])
  }

  function DownWorkerPages(pages: map<string, nat>, d: DownSide, w: nat, a: DownWorkerAction): map<string, nat>
    requires DownWorkerEnabled(d, w, a)
  {
    if a.Works? && d.workers[w].todo != map[] then pages + a.fetched else pages
  }

  // ---- the whole task ----

  predicate Enabled(c: Config, s: State, a: Action) {
    match a
    case TaskStep => TaskEnabled(s)
    case ParserAct(b) => ParserEnabled(c, s.parse, b)
    case DownerAct(b) => DownerEnabled(c, s.down, b)
    case ParseWorkerAct(w, b) => ParseWorkerEnabled(s.parse, w, b)
    case DownWorkerAct(w, b) => DownWorkerEnabled(s.down, w, b)
    case _ => true
  }

  function Apply(c: Config, s: State, a: Action): State
    requires Enabled(c, s, a)
  {
    match a
    case TaskStep => TaskApply(s)
    case ParserAct(b) => s.(parse := ParserApply(c, s.disk.items, s.parse, b))
    case DownerAct(b) =>
      s.(down := DownerApply(c, s.disk.pages, s.parse.exit, s.down, b),
         disk := s.disk.(pages := DownerPages(c, s.disk.pages, s.down, b)))
    case ParseWorkerAct(w, b) =>
      s.(parse := ParseWorkerApply(s.parse, w, b), disk := ParseWorkerDisk(c, s.disk, s.parse, w, b))
    case DownWorkerAct(w, b) =>
      s.(down := DownWorkerApply(s.down, w, b), disk := s.disk.(pages := DownWorkerPages(s.disk.pages, s.down, w, b)))
    case ItemAppears(path) => s.(disk := s.disk.(items := s.disk.items + {path}))
    case PageAppears(path, size) => s.(disk := s.disk.(pages := s.disk.pages[path := size]))
  }

  /** `states[i + 1]` is what `actions[i]` makes of `states[i]`. */
  ghost predicate IsRun(c: Config, states: seq<State>, actions: seq<Action>) {
    && |states| == |actions| + 1
    && Init(states[0])
    && forall i :: 0 <= i < |actions| ==>
         Enabled(c, states[i], actions[i]) && states[i + 1] == Apply(c, states[i], actions[i])
  }
}
