/**
 The writer of the seed file, its readers and the task's protocol together: what a finished crawl leaves on disk.
 */
module Crawl {
  import opened Basics
  import opened Text
  import opened Paths
  import opened SeedFile
  import opened SeedWriter
  import Dispatch
  import Pipeline
  import PipelineTheorems

  /** The line both scans see: an item path that cannot be read out of the page path stays empty. */
  function LineOf(p: Page, taskDir: string): Dispatch.SeedLine {
    var found := EngineItem(p.html, taskDir);
    Dispatch.SeedLine(p.url, p.html, p.query, if found == None then "" else found.value.1)
  }

  function LinesOf(pages: seq<Page>, taskDir: string): (lines: seq<Dispatch.SeedLine>)
    ensures |lines| == |pages|
  {
    seq(|pages|, k requires 0 <= k < |pages| => LineOf(pages[k], taskDir))
  }

  /** The task works on the seed file that was generated for these queries and engines. */
  ghost predicate SeededWith(c: Pipeline.Config, site: Site, engines: seq<Engine>, queries: seq<string>) {
    && UsualSite(site)
    && (forall e <- engines :: HasAnchor(e) && UsualEngine(e))
    && (forall q <- queries :: Bytes(q) && Survives(q))
    && (forall e <- engines, q <- queries :: |SeedFile.Printed(PageOf(site, e, q))| < LINE_BUFFER)
    && c.seed == LinesOf(ReadAll(PrintedAll(AllPages(site, engines, queries))), site.taskDir)
  }

  lemma LineOfPage(site: Site, e: Engine, q: string)
    requires UsualSite(site) && HasAnchor(e) && UsualEngine(e) && Bytes(q)
    ensures LineOf(PageOf(site, e, q), site.taskDir).item
         == ItemPath(site.taskDir, site.taskId, e.eid, StemOf(q))
  {
    hide EngineItem, ItemPath, StemOf, PageOf;
    PageHas(site, e, q);
  }

  /** Each query under each engine has its line, and its item is the one that the retry and the import name. */
  lemma EveryItemHasALine(c: Pipeline.Config, site: Site, engines: seq<Engine>, queries: seq<string>,
                          e: Engine, q: string)
    requires SeededWith(c, site, engines, queries) && e in engines && q in queries
    ensures exists k :: 0 <= k < |c.seed| && c.seed[k].item == ItemPath(site.taskDir, site.taskId, e.eid, StemOf(q))
  {
    hide ReadAll, PrintedAll, AllPages, PageOf, LineOf, ItemPath, StemOf, EngineItem, UsualSite, UsualEngine, Survives;
    ScansSeeEveryPage(site, engines, queries);
    var pages := ReadAll(PrintedAll(AllPages(site, engines, queries)));
    assert PageOf(site, e, q) in pages;
    var k :| 0 <= k < |pages| && pages[k] == PageOf(site, e, q);
    LineOfPage(site, e, q);
    assert c.seed[k] == LineOf(pages[k], site.taskDir);
  }

  lemma QueriesAreBytes(c: Pipeline.Config, site: Site, engines: seq<Engine>, queries: seq<string>, q: string)
    requires SeededWith(c, site, engines, queries) && q in queries
    ensures Bytes(q)
  {
  }

  lemma SeedSize(c: Pipeline.Config, site: Site, engines: seq<Engine>, queries: seq<string>)
    requires SeededWith(c, site, engines, queries)
    ensures |c.seed| == |queries| * |engines|
  {
    hide ReadAll, PrintedAll, AllPages, PageOf, LineOf;
    ScansSeeEveryPage(site, engines, queries);
  }

  /**
   In every run of a task on its generated seed file: when the parse side says stop, and its last scan opened the
   file, every query under every engine has its item on disk, under the path that
   the retry and the import print.
   */
  lemma CrawlBringsEveryItem(c: Pipeline.Config, site: Site, engines: seq<Engine>, queries: seq<string>,
                             states: seq<Pipeline.State>, actions: seq<Pipeline.Action>, i: nat)
    requires SeededWith(c, site, engines, queries)
    requires Pipeline.IsRun(c, states, actions) && i < |states|
    requires states[i].parse.exit && !states[i].parse.openFailed
    ensures |c.seed| == |queries| * |engines|
    ensures forall e <- engines, q <- queries ::
      (Bytes(q) && ItemPath(site.taskDir, site.taskId, e.eid, StemOf(q)) in states[i].disk.items)
  {
    SeedSize(c, site, engines, queries);
    hide SeededWith, Pipeline.IsRun, ItemPath, StemOf;
    PipelineTheorems.ExitMeansAllItems(c, states, actions, i);
    forall e, q | e in engines && q in queries
      ensures Bytes(q) && ItemPath(site.taskDir, site.taskId, e.eid, StemOf(q)) in states[i].disk.items
    {
      QueriesAreBytes(c, site, engines, queries, q);
      EveryItemHasALine(c, site, engines, queries, e, q);
    }
  }
}
