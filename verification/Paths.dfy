/**
 The page and item paths of a task. Three functions print the item path on their own, and `get_engine_item`
 recovers it from the page path by splitting and trimming; here they are shown to agree, and exactly when.
 */
module Paths {
  import opened Basics
  import opened Machine
  import opened Rfc1321
  import opened Md5
  import opened Md5Streaming
  import opened Text

  const PAGE_SUFFIX := ".html"
  const ITEM_SUFFIX := ".item"

  /** As the seed file names the page: `stem` is the printed digest of the query. */
  function HtmlPath(snapshot: string, taskId: string, eid: string, stem: string): string {
    snapshot + "/" + taskId + "_" + eid + "/" + stem + PAGE_SUFFIX
  }

  /** As `check_parse_fail` and `import_db` name the item. */
  function ItemPath(taskDir: string, taskId: string, eid: string, stem: string): string {
    taskDir + "/" + taskId + "_" + eid + "/" + stem + ITEM_SUFFIX
  }

  /** The engine and the item path that `get_engine_item` reads out of a page path. */
  function EngineItem(html: string, taskDir: string): Option<(string, string)> {
    var tmp := Exploded(html, "/");
    if |tmp| < 3 then None
    else
      var dir := tmp[|tmp| - 2];
      var eng := Exploded(dir, "_");
      if |eng| != 2 then None
      else Some((eng[1], taskDir + "/" + dir + "/" + TrimRight(tmp[|tmp| - 1], PAGE_SUFFIX) + ITEM_SUFFIX))
  }

  /** Trimming runs off the front of a file name that has none but the characters of ".html". */
  predicate NameSurvives(html: string) {
    var tmp := Exploded(html, "/");
    EngineItem(html, "") == None || tmp[|tmp| - 1] == "" || KeepsSome(tmp[|tmp| - 1], PAGE_SUFFIX)
  }

  method GetEngineItem(htmlFile: string, taskDir: string, engineId: string, itemFile: string)
    returns (engineId': string, itemFile': string)
    requires NameSurvives(htmlFile)
    ensures EngineItem(htmlFile, taskDir) == None ==> engineId' == engineId && itemFile' == itemFile
    ensures EngineItem(htmlFile, taskDir) != None ==> EngineItem(htmlFile, taskDir) == Some((engineId', itemFile'))
  {
    hide Exploded, TrimRight, KeepsSome;
    engineId', itemFile' := engineId, itemFile;
    var tmp := Explode(htmlFile, "/", []);
    assert tmp == Exploded(htmlFile, "/");
    if |tmp| < 3 {
      return;
    }
    var eng := Explode(tmp[|tmp| - 2], "_", []);
    assert eng == Exploded(tmp[|tmp| - 2], "_");
    if |eng| != 2 {
      return;
    }
    engineId' := eng[1];
    var stem := Rtrim(tmp[|tmp| - 1], PAGE_SUFFIX);
    itemFile' := taskDir;
    itemFile' := itemFile' + "/" + tmp[|tmp| - 2] + "/" + stem + ITEM_SUFFIX;
  }

  lemma OnePiece(s: string, c: char)
    ensures |Pieces(s, [c])| == 1 <==> c !in s
  {
    hide Find;
    FindChar(s, c);
  }

  /** The last piece of a path has no separator, and is the whole path when that has none. */
  lemma LastPiece(dir: string, c: char)
    ensures
      var ps := Pieces(dir, [c]);
      c !in ps[|ps| - 1] && (c !in dir ==> ps[|ps| - 1] == dir)
  {
    hide Find, Pieces;
    var ps := Pieces(dir, [c]);
    PiecesAvoid(dir, [c]);
    FindChar(ps[|ps| - 1], c);
    if c !in dir {
      PieceWithout(dir, c);
    }
  }

  /** The pieces of a page path end in those of its directory and the file name. */
  lemma HtmlPieces(snapshot: string, dir: string, file: string)
    requires '/' !in file
    ensures Exploded(snapshot + "/" + dir + "/" + file, "/") == Pieces(snapshot, "/") + Pieces(dir, "/") + [file]
  {
    hide Find, Pieces;
    var html := snapshot + ['/'] + (dir + ['/'] + file);
    assert html == snapshot + "/" + dir + "/" + file;
    PiecesAround(snapshot, '/', dir + ['/'] + file);
    PiecesAround(dir, '/', file);
    PieceWithout(file, '/');
    var s, d := Pieces(snapshot, ['/']), Pieces(dir, ['/']);
    assert s + (d + [file]) == s + d + [file];
  }

  /** Lower-case hex digits: none is a separator, and none is trimmed with ".html". */
  predicate IsStem(stem: string) {
    stem != "" && forall k :: 0 <= k < |stem| ==> stem[k] in "0123456789abcdef"
  }

  lemma EngineItemOf(snapshot: string, dir: string, stem: string, taskDir: string)
    requires IsStem(stem)
    ensures
      var ps := Pieces(dir, "/");
      var d := ps[|ps| - 1];
      var eng := Exploded(d, "_");
      EngineItem(snapshot + "/" + dir + "/" + (stem + PAGE_SUFFIX), taskDir)
      == if |eng| != 2 then None else Some((eng[1], taskDir + "/" + d + "/" + stem + ITEM_SUFFIX))
  {
    hide Exploded, Pieces, TrimRight;
    var file := stem + PAGE_SUFFIX;
    HtmlPieces(snapshot, dir, file);
    TrimRightOf(stem, PAGE_SUFFIX, PAGE_SUFFIX);
    var s, ps := Pieces(snapshot, "/"), Pieces(dir, "/");
    assert (s + ps + [file])[|s| + |ps| - 1] == ps[|ps| - 1];
  }

  lemma DigestLength(query: seq<Byte>)
    ensures |Digest(query)| == 16
  {
  }

  lemma DigestIsStem(query: seq<Byte>)
    ensures IsStem(Hex(Digest(query))) && |Hex(Digest(query))| == 32
  {
    hide Hex, Digest;
    DigestLength(query);
    HexIsLowerCase(Digest(query));
  }

  lemma Between(a: string, x: string, y: string, b: string)
    requires a + x + b == a + y + b
    ensures x == y
  {
    assert |a + x + b| == |a| + |x| + |b|;
    assert x == (a + x + b)[|a|..|a| + |x|];
    assert y == (a + y + b)[|a|..|a| + |y|];
  }

  /** The two names that a task directory is built of, cut at '_'. */
  lemma EngineOf(taskId: string, eid: string)
    ensures
      var eng := Exploded(taskId + "_" + eid, "_");
      (|eng| == 2 <==> '_' !in taskId && '_' !in eid) && (|eng| == 2 ==> eng[1] == eid)
  {
    hide Find, Pieces;
    assert taskId + "_" + eid == taskId + ['_'] + eid;
    PiecesAround(taskId, '_', eid);
    OnePiece(taskId, '_');
    OnePiece(eid, '_');
    if '_' !in eid {
      PieceWithout(eid, '_');
    }
  }

  /**
   For every task, engine, directories and query: the page path in the seed file leads back to the engine and
   to the very item path the other functions print, exactly when neither name has a '/' or a '_'.
   */
  lemma PathsAgreeIff(snapshot: string, taskDir: string, taskId: string, eid: string, query: seq<Byte>)
    ensures
      var stem := Hex(Digest(query));
      EngineItem(HtmlPath(snapshot, taskId, eid, stem), taskDir) == Some((eid, ItemPath(taskDir, taskId, eid, stem)))
      <==> '/' !in taskId && '/' !in eid && '_' !in taskId && '_' !in eid
  {
    hide EngineItem, Exploded, Pieces, Hex, Digest;
    DigestIsStem(query);
    var stem := Hex(Digest(query));
    var dir := taskId + "_" + eid;
    assert HtmlPath(snapshot, taskId, eid, stem) == snapshot + "/" + dir + "/" + (stem + PAGE_SUFFIX);
    EngineItemOf(snapshot, dir, stem, taskDir);
    LastPiece(dir, '/');
    var ps := Pieces(dir, "/");
    var d := ps[|ps| - 1];
    var front, back := taskDir + "/", "/" + stem + ITEM_SUFFIX;
    assert ItemPath(taskDir, taskId, eid, stem) == front + dir + back;
    assert taskDir + "/" + d + "/" + stem + ITEM_SUFFIX == front + d + back;
    if front + d + back == front + dir + back {
      Between(front, d, dir, back);
    }
    assert '/' in dir <==> '/' in taskId || '/' in eid;
    EngineOf(taskId, eid);
  }

  /** A task id with an underscore in it: the page path does not lead back. */
  lemma UnderscoreLosesThePath(snapshot: string, taskDir: string, query: seq<Byte>)
    ensures
      var stem := Hex(Digest(query));
      EngineItem(HtmlPath(snapshot, "7_1", "3", stem), taskDir) != Some(("3", ItemPath(taskDir, "7_1", "3", stem)))
  {
    hide EngineItem, HtmlPath, ItemPath, Hex, Digest;
    assert "7_1"[1] == '_';
    PathsAgreeIff(snapshot, taskDir, "7_1", "3", query);
  }

  /** Pages of different engines or of queries with different digests never share an item. */
  lemma ItemPathIsInjective(taskDir: string, taskId: string, e0: string, q0: seq<Byte>, e1: string, q1: seq<Byte>)
    requires ItemPath(taskDir, taskId, e0, Hex(Digest(q0))) == ItemPath(taskDir, taskId, e1, Hex(Digest(q1)))
    ensures e0 == e1 && Digest(q0) == Digest(q1)
  {
    hide Hex, Digest;
    DigestIsStem(q0);
    DigestIsStem(q1);
    var s0, s1 := Hex(Digest(q0)), Hex(Digest(q1));
    var front := taskDir + "/" + taskId + "_";
    var p := ItemPath(taskDir, taskId, e0, s0);
    assert p == front + e0 + "/" + s0 + ITEM_SUFFIX == front + e1 + "/" + s1 + ITEM_SUFFIX;
    assert e0 == p[|front|..|front| + |e0|] && e1 == p[|front|..|front| + |e1|];
    assert s0 == p[|p| - 37..|p| - 5] && s1 == p[|p| - 37..|p| - 5];
    HexIsInjective(Digest(q0), Digest(q1));
  }

  /** The items of some queries under some engines. */
  ghost function ItemsOf(taskDir: string, taskId: string, queries: seq<seq<Byte>>, eids: seq<string>): set<string> {
    set q, e | q in queries && e in eids :: ItemPath(taskDir, taskId, e, Hex(Digest(q)))
  }

  lemma ItemsOfNext(taskDir: string, taskId: string, queries: seq<seq<Byte>>, eids: seq<string>, i: nat)
    requires i < |queries|
    ensures ItemsOf(taskDir, taskId, queries[..i + 1], eids)
         == ItemsOf(taskDir, taskId, queries[..i], eids) + ItemsOf(taskDir, taskId, [queries[i]], eids)
  {
    hide ItemPath, Hex, Digest;
    assert queries[..i + 1] == queries[..i] + [queries[i]];
  }

  lemma ItemsOfQueryNext(taskDir: string, taskId: string, query: seq<Byte>, eids: seq<string>, j: nat)
    requires j < |eids|
    ensures ItemsOf(taskDir, taskId, [query], eids[..j + 1])
         == ItemsOf(taskDir, taskId, [query], eids[..j]) + {ItemPath(taskDir, taskId, eids[j], Hex(Digest(query)))}
  {
    hide ItemPath, Hex, Digest;
    var item := ItemPath(taskDir, taskId, eids[j], Hex(Digest(query)));
    var front, longer := eids[..j], eids[..j + 1];
    assert longer == front + [eids[j]];
    var before, after := ItemsOf(taskDir, taskId, [query], front), ItemsOf(taskDir, taskId, [query], longer);
    assert query in [query] && eids[j] in longer && item in after;
    forall x | x in after
      ensures x in before + {item}
    {
      var q, e :| q in [query] && e in longer && x == ItemPath(taskDir, taskId, e, Hex(Digest(q)));
      assert q == query;
      assert e in front || e == eids[j];
    }
    forall x | x in before
      ensures x in after
    {
      var q, e :| q in [query] && e in front && x == ItemPath(taskDir, taskId, e, Hex(Digest(q)));
      assert e in longer;
    }
  }

  /** Removes the items of the queries the database has no rows for; `disk` is the set of readable files. */
  method CheckParseFail(md5: MD5, taskDir: string, taskId: string, failed: seq<seq<Byte>>, eids: seq<string>,
                        disk: set<string>)
    returns (disk': set<string>)
    requires md5.Valid()
    requires forall q <- failed :: |q| <= WORD_SPAN - 64
    modifies md5, md5.state, md5.count, md5.buffer, md5.digest
    ensures disk' == disk - ItemsOf(taskDir, taskId, failed, eids)
  {
    hide Hex, Digest, ItemPath, MD5.View;
    disk' := disk;
    for i := 0 to |failed|
      invariant md5.Valid()
      invariant disk' == disk - ItemsOf(taskDir, taskId, failed[..i], eids)
    {
      var stem := HexDigestOf(md5, failed[i]);
      ghost var before := disk';
      for j := 0 to |eids|
        invariant disk' == before - ItemsOf(taskDir, taskId, [failed[i]], eids[..j])
      {
        disk' := disk' - {ItemPath(taskDir, taskId, eids[j], stem)};
        ItemsOfQueryNext(taskDir, taskId, failed[i], eids, j);
      }
      assert eids[..|eids|] == eids;
      ItemsOfNext(taskDir, taskId, failed, eids, i);
    }
    assert failed[..|failed|] == failed;
  }

  /** What a retry is for: the parse scan finds no item behind the page of a failed query, and keeps the others. */
  lemma FailedPagesAreParsedAgain(snapshot: string, taskDir: string, taskId: string, failed: seq<seq<Byte>>,
                                  eids: seq<string>, disk: set<string>, query: seq<Byte>, eid: string)
    requires '/' !in taskId && '/' !in eid && '_' !in taskId && '_' !in eid && eid in eids
    requires ItemPath(taskDir, taskId, eid, Hex(Digest(query))) in disk
    ensures
      var found := EngineItem(HtmlPath(snapshot, taskId, eid, Hex(Digest(query))), taskDir);
      && found != None
      && (found.value.1 !in disk - ItemsOf(taskDir, taskId, failed, eids)
          <==> exists q <- failed :: Digest(q) == Digest(query))
  {
    hide EngineItem, HtmlPath, ItemPath, Hex, Digest;
    PathsAgreeIff(snapshot, taskDir, taskId, eid, query);
    var item := ItemPath(taskDir, taskId, eid, Hex(Digest(query)));
    if item in ItemsOf(taskDir, taskId, failed, eids) {
      var q, e :| q in failed && e in eids && item == ItemPath(taskDir, taskId, e, Hex(Digest(q)));
      ItemPathIsInjective(taskDir, taskId, e, q, eid, query);
    }
    forall q | q in failed && Digest(q) == Digest(query)
      ensures item in ItemsOf(taskDir, taskId, failed, eids)
    {
      assert item == ItemPath(taskDir, taskId, eid, Hex(Digest(q)));
    }
    assert item in ItemsOf(taskDir, taskId, failed, eids) <==> exists q <- failed :: Digest(q) == Digest(query);
  }

  /** A page and its item, spelled out. */
  lemma PathFormats()
    ensures HtmlPath("/snap", "7", "3", "d41d8cd9") == "/snap/7_3/d41d8cd9.html"
    ensures ItemPath("/task", "7", "3", "d41d8cd9") == "/task/7_3/d41d8cd9.item"
  {
  }
}
