/**
 How `generateInfo` writes the seed file, and what every later scan makes of it.
 */
module SeedWriter {
  import opened Basics
  import opened Machine
  import opened Rfc1321
  import opened Md5
  import opened Md5Streaming
  import opened Text
  import opened SeedFile
  import opened Paths

  const ANCHOR := "__QUERY__"

  datatype Engine = Engine(url: string, eid: string)

  /** The site of one task: where pages go, and the task's own name. */
  datatype Site = Site(snapshot: string, taskDir: string, taskId: string)

  function BytesOf(s: string): (b: seq<Byte>)
    requires Bytes(s)
    ensures |b| == |s|
  {
    seq(|s|, k requires 0 <= k < |s| => s[k] as int)
  }

  /** `replace` throws when there is no anchor to replace. */
  predicate HasAnchor(e: Engine) {
    Find(e.url, ANCHOR) >= 0
  }

  function UrlFor(e: Engine, query: string): string
    requires HasAnchor(e) && Bytes(query)
  {
    var p := Find(e.url, ANCHOR);
    e.url[..p] + UrlEncoded(query) + e.url[p + |ANCHOR|..]
  }

  function StemOf(query: string): string
    requires Bytes(query)
  {
    Hex(Digest(BytesOf(query)))
  }

  function PageOf(site: Site, e: Engine, query: string): Page
    requires HasAnchor(e) && Bytes(query)
  {
    Page(UrlFor(e, query), HtmlPath(site.snapshot, site.taskId, e.eid, StemOf(query)), query)
  }

  function PagesOf(site: Site, engines: seq<Engine>, query: string): (ps: seq<Page>)
    requires Bytes(query) && forall e <- engines :: HasAnchor(e)
    ensures |ps| == |engines|
  {
    seq(|engines|, k requires 0 <= k < |engines| => PageOf(site, engines[k], query))
  }

  function AllPages(site: Site, engines: seq<Engine>, queries: seq<string>): seq<Page>
    requires forall q <- queries :: Bytes(q)
    requires forall e <- engines :: HasAnchor(e)
  {
    if queries == [] then []
    else AllPages(site, engines, queries[..|queries| - 1]) + PagesOf(site, engines, queries[|queries| - 1])
  }

  ghost predicate IsPageOf(p: Page, site: Site, engines: seq<Engine>, queries: seq<string>)
    requires forall q <- queries :: Bytes(q)
    requires forall e <- engines :: HasAnchor(e)
  {
    exists q, e :: q in queries && e in engines && p == PageOf(site, e, q)
  }

  lemma PagesOfAre(site: Site, engines: seq<Engine>, query: string, p: Page)
    requires Bytes(query) && forall e <- engines :: HasAnchor(e)
    ensures p in PagesOf(site, engines, query) <==> IsPageOf(p, site, engines, [query])
  {
    hide PageOf;
    var pages := PagesOf(site, engines, query);
    if p in pages {
      var k :| 0 <= k < |engines| && p == pages[k];
      assert engines[k] in engines && query in [query];
    }
    if q, e :| q in [query] && e in engines && p == PageOf(site, e, q) {
      var k :| 0 <= k < |engines| && engines[k] == e;
      assert pages[k] == p;
    }
  }

  /** A page for every query under every engine, and no other. */
  lemma {:induction false} AllPagesAre(site: Site, engines: seq<Engine>, queries: seq<string>, p: Page)
    requires forall q <- queries :: Bytes(q)
    requires forall e <- engines :: HasAnchor(e)
    ensures p in AllPages(site, engines, queries) <==> IsPageOf(p, site, engines, queries)
  {
    hide PageOf, PagesOf;
    if queries == [] {
    } else {
      var n := |queries| - 1;
      AllPagesAre(site, engines, queries[..n], p);
      PagesOfAre(site, engines, queries[n], p);
      assert queries == queries[..n] + [queries[n]];
    }
  }

  lemma Times(n: nat, k: nat)
    ensures n * k + k == (n + 1) * k
  {
  }

  lemma {:induction false} AllPagesCount(site: Site, engines: seq<Engine>, queries: seq<string>)
    requires forall q <- queries :: Bytes(q)
    requires forall e <- engines :: HasAnchor(e)
    ensures |AllPages(site, engines, queries)| == |queries| * |engines|
  {
    if queries == [] {
    } else {
      var n := |queries| - 1;
      AllPagesCount(site, engines, queries[..n]);
      Times(n, |engines|);
    }
  }

  lemma {:induction false} PrintedTogether(a: seq<Page>, b: seq<Page>)
    ensures PrintedAll(a + b) == PrintedAll(a) + PrintedAll(b)
  {
    hide Printed;
    if a == [] {
      assert a + b == b;
    } else {
      assert (a + b)[1..] == a[1..] + b;
      PrintedTogether(a[1..], b);
    }
  }

  lemma PrintedNext(done: seq<Page>, p: Page)
    ensures PrintedAll(done + [p]) == PrintedAll(done) + Printed(p)
  {
    PrintedTogether(done, [p]);
    assert PrintedAll([p]) == Printed(p) + PrintedAll([]);
  }

  lemma NothingPrinted(site: Site, engines: seq<Engine>)
    requires forall e <- engines :: HasAnchor(e)
    ensures AllPages(site, engines, []) == [] && PrintedAll([]) == ""
  {
  }

  lemma PagesNext(site: Site, engines: seq<Engine>, queries: seq<string>, i: nat)
    requires i < |queries|
    requires forall q <- queries :: Bytes(q)
    requires forall e <- engines :: HasAnchor(e)
    ensures AllPages(site, engines, queries[..i + 1])
         == AllPages(site, engines, queries[..i]) + PagesOf(site, engines, queries[i])
  {
    assert queries[..i + 1][..i] == queries[..i];
  }

  /** The page of engine `j`, with the anchor replaced in its url. */
  lemma PageAt(site: Site, engines: seq<Engine>, query: string, j: nat)
    requires Bytes(query) && forall e <- engines :: HasAnchor(e)
    requires j < |engines|
    ensures
      var eurl := engines[j].url;
      var p := Find(eurl, ANCHOR);
      && 0 <= p <= p + |ANCHOR| <= |eurl|
      && PagesOf(site, engines, query)[j]
         == Page(eurl[..p] + UrlEncoded(query) + eurl[p + |ANCHOR|..],
                 HtmlPath(site.snapshot, site.taskId, engines[j].eid, Hex(Digest(BytesOf(query)))), query)
  {
    hide Find, UrlEncoded, Hex, Digest, BytesOf, HtmlPath;
    assert HasAnchor(engines[j]);
  }

  /** Writes a line for every query under every engine and counts them. */
  method GenerateSeeds(md5: MD5, site: Site, engines: seq<Engine>, queries: seq<string>)
    returns (text: string, pageCounter: nat)
    requires md5.Valid()
    requires forall q <- queries :: Bytes(q) && |q| <= WORD_SPAN - 64
    requires forall e <- engines :: HasAnchor(e)
    modifies md5, md5.state, md5.count, md5.buffer, md5.digest
    ensures text == PrintedAll(AllPages(site, engines, queries))
    ensures pageCounter == |AllPages(site, engines, queries)|
  {
    hide PrintedAll, Printed, UrlEncoded, Hex, Digest, Find, HtmlPath, PagesOf, AllPages, BytesOf, HasAnchor;
    text, pageCounter := "", 0;
    NothingPrinted(site, engines);
    for i := 0 to |queries|
      invariant md5.Valid()
      invariant text == PrintedAll(AllPages(site, engines, queries[..i]))
      invariant pageCounter == |AllPages(site, engines, queries[..i])|
    {
      var query := queries[i];
      ghost var before := AllPages(site, engines, queries[..i]);
      ghost var pages := PagesOf(site, engines, query);
      assert before + pages[..0] == before;
      for j := 0 to |engines|
        invariant md5.Valid()
        invariant text == PrintedAll(before + pages[..j])
        invariant pageCounter == |before| + j
      {
        var eurl := engines[j].url;
        var encodeQuery := UrlEncode(query, "");
        var p := Find(eurl, ANCHOR);
        PageAt(site, engines, query, j);
        eurl := eurl[..p] + encodeQuery + eurl[p + |ANCHOR|..];
        var stem := HexDigestOf(md5, BytesOf(query));
        var snap := HtmlPath(site.snapshot, site.taskId, engines[j].eid, stem);
        text := text + Printed(Page(eurl, snap, query));
        pageCounter := pageCounter + 1;
        assert Page(eurl, snap, query) == pages[j];
        PrintedNext(before + pages[..j], pages[j]);
        assert (before + pages[..j]) + [pages[j]] == before + pages[..j + 1];
      }
      assert pages[..|engines|] == pages;
      PagesNext(site, engines, queries, i);
    }
    assert queries[..|queries|] == queries;
  }

  // ---- what the scans read ----

  /** Engine urls and directories of the usual kind: no tab or line end, and something before the anchor. */
  predicate Plain(s: string) {
    '\t' !in s && '\n' !in s
  }

  predicate UsualEngine(e: Engine) {
    && HasAnchor(e) && Find(e.url, ANCHOR) > 0 && e.url[0] !in BLANKS && Plain(e.url)
    && Plain(e.eid) && '/' !in e.eid && '_' !in e.eid
  }

  predicate UsualSite(site: Site) {
    Plain(site.snapshot) && Plain(site.taskId) && '/' !in site.taskId && '_' !in site.taskId
  }

  lemma StemIs(query: string)
    requires Bytes(query)
    ensures IsStem(StemOf(query)) && Plain(StemOf(query))
  {
    hide Hex, Digest, BytesOf;
    DigestIsStem(BytesOf(query));
  }

  lemma PlainParts(a: string, b: string, c: string)
    requires Plain(a) && Plain(b) && Plain(c)
    ensures Plain(a + b + c)
  {
  }

  lemma UrlIsPlain(e: Engine, query: string)
    requires UsualEngine(e) && Bytes(query)
    ensures var url := UrlFor(e, query); url != "" && url[0] == e.url[0] && Plain(url)
  {
    hide Find, IsCoded, UrlEncoded;
    var p := Find(e.url, ANCHOR);
    var coded := UrlEncoded(query);
    UrlEncodeAlphabet(query);
    if '\t' in coded {
      CodedIsOneField(coded, '\t');
    }
    if '\n' in coded {
      CodedIsOneField(coded, '\n');
    }
    PlainParts(e.url[..p], coded, e.url[p + |ANCHOR|..]);
  }

  lemma HtmlIsPlain(site: Site, eid: string, query: string)
    requires UsualSite(site) && Plain(eid) && Bytes(query)
    ensures
      var html := HtmlPath(site.snapshot, site.taskId, eid, StemOf(query));
      html != "" && html[|html| - 1] == 'l' && Plain(html)
  {
    hide StemOf;
    StemIs(query);
    PlainParts(site.snapshot, "/", site.taskId);
    PlainParts(site.snapshot + "/" + site.taskId, "_", eid);
    PlainParts(site.snapshot + "/" + site.taskId + "_" + eid, "/", StemOf(query));
    PlainParts(site.snapshot + "/" + site.taskId + "_" + eid + "/" + StemOf(query), PAGE_SUFFIX, "");
  }

  lemma PageIsAddressed(site: Site, e: Engine, query: string)
    requires UsualSite(site) && UsualEngine(e) && Bytes(query)
    requires |Printed(PageOf(site, e, query))| < LINE_BUFFER
    ensures Addressed(PageOf(site, e, query))
  {
    hide UrlFor, HtmlPath, StemOf, Printed;
    UrlIsPlain(e, query);
    HtmlIsPlain(site, e.eid, query);
  }

  lemma PageHas(site: Site, e: Engine, q: string)
    requires UsualSite(site) && UsualEngine(e) && Bytes(q)
    ensures
      var p := PageOf(site, e, q);
      && p.query == q
      && EngineItem(p.html, site.taskDir)
         == Some((e.eid, ItemPath(site.taskDir, site.taskId, e.eid, StemOf(q))))
  {
    hide EngineItem, ItemPath, HtmlPath, Hex, Digest, BytesOf, UrlFor;
    PathsAgreeIff(site.snapshot, site.taskDir, site.taskId, e.eid, BytesOf(q));
  }

  /**
   Every scan of the generated seed file sees one page for each query under each engine, `page_counter` of them,
   and finds behind each the engine and the very item path that the retry and the import print.
   */
  lemma ScansSeeEveryPage(site: Site, engines: seq<Engine>, queries: seq<string>)
    requires UsualSite(site)
    requires forall e <- engines :: HasAnchor(e) && UsualEngine(e)
    requires forall q <- queries :: Bytes(q) && Survives(q)
    requires forall e <- engines, q <- queries :: |Printed(PageOf(site, e, q))| < LINE_BUFFER
    ensures
      var pages := ReadAll(PrintedAll(AllPages(site, engines, queries)));
      && |pages| == |queries| * |engines|
      && (forall q <- queries, e <- engines :: PageOf(site, e, q) in pages)
      && (forall p <- pages :: exists q, e ::
            && q in queries && e in engines && p == PageOf(site, e, q)
            && EngineItem(p.html, site.taskDir)
               == Some((e.eid, ItemPath(site.taskDir, site.taskId, e.eid, StemOf(q)))))
  {
    hide PageOf, AllPages, ReadAll, PrintedAll, Printed, Addressed, EngineItem, ItemPath, StemOf;
    var pages := AllPages(site, engines, queries);
    AllPagesCount(site, engines, queries);
    forall p | p in pages
      ensures Addressed(p) && Survives(p.query)
      ensures exists q, e ::
            && q in queries && e in engines && p == PageOf(site, e, q)
            && EngineItem(p.html, site.taskDir)
               == Some((e.eid, ItemPath(site.taskDir, site.taskId, e.eid, StemOf(q))))
    {
      AllPagesAre(site, engines, queries, p);
      var q, e :| q in queries && e in engines && p == PageOf(site, e, q);
      PageIsAddressed(site, e, q);
      PageHas(site, e, q);
    }
    forall q, e | q in queries && e in engines
      ensures PageOf(site, e, q) in pages
    {
      AllPagesAre(site, engines, queries, PageOf(site, e, q));
    }
    ReadBack(pages);
  }

  /** The coded query stands where the first "__QUERY__" of the engine's address was. */
  lemma UrlForIs(e: Engine, query: string)
    requires HasAnchor(e) && Bytes(query)
    ensures exists front, back ::
      && e.url == front + "__QUERY__" + back && UrlFor(e, query) == front + UrlEncoded(query) + back
      && forall i: nat :: OccursAt(e.url, "__QUERY__", i) ==> |front| <= i
  {
    hide Find, UrlEncoded;
    var p := Find(e.url, ANCHOR);
    var front, back := e.url[..p], e.url[p + |ANCHOR|..];
    forall i: nat | OccursAt(e.url, "__QUERY__", i)
      ensures |front| <= i
    {
      FindIsFirst(e.url, ANCHOR, i);
    }
    assert e.url == front + "__QUERY__" + back;
  }
}
