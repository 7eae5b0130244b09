/**
 The seed file: one printed line a page, read back by every scan with `fgets`, `trim` and `explode`.
 */
module SeedFile {
  import opened Basics
  import opened Text

  datatype Page = Page(url: string, html: string, query: string)

  const BLANKS := "\t\n\r "
  const LINE_BUFFER := 4096

  function Printed(p: Page): string {
    p.url + "\t" + p.html + "\t" + p.query + "\n"
  }

  function PrintedAll(pages: seq<Page>): string {
    if pages == [] then "" else Printed(pages[0]) + PrintedAll(pages[1..])
  }

  /** What one `fgets` takes: up to and with the first line end, and no more than the buffer holds. */
  function LineLength(text: string, room: nat): (n: nat)
    ensures n <= |text| && n <= room
    ensures room > 0 && text != "" ==> n > 0
  {
    if text == "" || room == 0 then 0
    else if text[0] == '\n' then 1
    else 1 + LineLength(text[1..], room - 1)
  }

  function Trimmed(line: string): string {
    TrimRight(TrimLeft(line, BLANKS), BLANKS)
  }

  function Fields(line: string): Option<Page> {
    var l := Trimmed(line);
    var items := Exploded(l, "\t");
    if '\t' !in l || |items| < 3 then None else Some(Page(items[0], items[1], items[2]))
  }

  function Listed(p: Option<Page>): seq<Page> {
    if p == None then [] else [p.value]
  }

  function ReadAll(text: string): seq<Page>
    decreases |text|
  {
    if text == "" then []
    else
      var n := LineLength(text, LINE_BUFFER - 1);
      Listed(Fields(text[..n])) + ReadAll(text[n..])
  }

  lemma ReadNothing(rest: string, pages: seq<Page>)
    requires rest == ""
    ensures pages + ReadAll(rest) == pages
  {
  }

  lemma FieldsSteps(tmp: string)
    ensures
      var line := TrimRight(TrimLeft(tmp, BLANKS), BLANKS);
      var items := Exploded(line, "\t");
      Listed(Fields(tmp)) == if Find(line, "\t") == -1 || |items| < 3 then []
                             else [Page(items[0], items[1], items[2])]
  {
    hide Exploded, TrimLeft, TrimRight, Find;
    FindChar(Trimmed(tmp), '\t');
  }

  lemma ReadStep(done: seq<Page>, rest: string)
    ensures
      var n := LineLength(rest, LINE_BUFFER - 1);
      done + ReadAll(rest) == if rest == "" then done + ReadAll(rest[n..])
                              else (done + Listed(Fields(rest[..n]))) + ReadAll(rest[n..])
  {
    hide Fields, LineLength;
    var n := LineLength(rest, LINE_BUFFER - 1);
    if rest == "" {
      assert rest[n..] == "";
    } else {
      var one, more := Listed(Fields(rest[..n])), ReadAll(rest[n..]);
      assert ReadAll(rest) == one + more;
      assert done + (one + more) == (done + one) + more;
    }
  }

  /** The reading loop that all scans share. The read after the last line finds nothing and is skipped. */
  method ReadSeeds(text: string) returns (pages: seq<Page>)
    ensures pages == ReadAll(text)
  {
    hide Exploded, Trimmed, LineLength, Fields, Listed, ReadAll, TrimLeft, TrimRight, Find;
    pages := [];
    var rest, eof := text, false;
    while !eof
      invariant pages + ReadAll(rest) == ReadAll(text)
      invariant eof ==> rest == ""
      decreases !eof, |rest|
    {
      var n := LineLength(rest, LINE_BUFFER - 1);
      var tmp := rest[..n];
      ReadStep(pages, rest);
      FieldsSteps(tmp);
      eof := n == |rest| && (n == 0 || (n < LINE_BUFFER - 1 && rest[n - 1] != '\n'));
      rest := rest[n..];
      if |tmp| <= 0 {
        continue;
      }
      var line := Trim(tmp, BLANKS);
      if Find(line, "\t") == -1 {
        continue;
      }
      var items := Explode(line, "\t", []);
      assert items == Exploded(line, "\t");
      if |items| < 3 {
        continue;
      }
      pages := pages + [Page(items[0], items[1], items[2])];
    }
    ReadNothing(rest, pages);
  }

  // ---- what can be read back ----

  /** What the writer sees to: a coded url and a page path, and a line that fits the buffer. */
  predicate Addressed(p: Page) {
    && p.url != "" && p.url[0] !in BLANKS && '\t' !in p.url && '\n' !in p.url
    && p.html != "" && p.html[|p.html| - 1] !in BLANKS && '\t' !in p.html && '\n' !in p.html
    && |Printed(p)| < LINE_BUFFER
  }

  /** What a query needs to come back. */
  predicate Survives(query: string) {
    query != "" && query[|query| - 1] !in BLANKS && '\t' !in query && '\n' !in query
  }

  lemma {:induction false} LineEnd(line: string, rest: string, room: nat)
    requires '\n' !in line && |line| < room
    ensures LineLength(line + "\n" + rest, room) == |line| + 1
  {
    var text := line + "\n" + rest;
    if line == "" {
    } else {
      assert text[1..] == line[1..] + "\n" + rest;
      LineEnd(line[1..], rest, room - 1);
    }
  }

  /** A line with a kept character at both ends, as `fgets` hands it over. */
  lemma TrimmedLine(kept: string, tail: string)
    requires kept != "" && kept[0] !in BLANKS && kept[|kept| - 1] !in BLANKS && AllIn(tail, BLANKS)
    ensures Trimmed(kept + tail) == kept
  {
    hide TrimLeft, TrimRight;
    TrimLeftOf("", kept + tail, BLANKS);
    assert "" + (kept + tail) == kept + tail;
    TrimRightOf(kept, tail, BLANKS);
  }

  lemma LinePieces(url: string, html: string, query: string)
    requires '\t' !in url && '\t' !in html
    ensures Pieces(url + "\t" + html + "\t" + query, "\t") == [url, html] + Pieces(query, "\t")
  {
    hide Find, Pieces;
    assert url + "\t" + html + "\t" + query == url + ['\t'] + (html + ['\t'] + query);
    PiecesAround(url, '\t', html + ['\t'] + query);
    PiecesAround(html, '\t', query);
    PieceWithout(url, '\t');
    PieceWithout(html, '\t');
    var ps := Pieces(query, "\t");
    assert [url] + ([html] + ps) == [url, html] + ps;
  }

  lemma FieldsOfSurvivor(p: Page)
    requires Addressed(p) && Survives(p.query)
    ensures Fields(Printed(p)) == Some(p)
  {
    hide Pieces, Trimmed;
    var l := p.url + "\t" + p.html + "\t" + p.query;
    assert l[|p.url|] == '\t';
    TrimmedLine(l, "\n");
    assert Printed(p) == l + "\n";
    LinePieces(p.url, p.html, p.query);
    PieceWithout(p.query, '\t');
  }

  /** Every page whose query survives comes back, in order and as it was. */
  lemma {:induction false} ReadBack(pages: seq<Page>)
    requires forall p <- pages :: Addressed(p) && Survives(p.query)
    ensures ReadAll(PrintedAll(pages)) == pages
  {
    hide Fields, LineLength;
    if pages == [] {
    } else {
      var p, rest := pages[0], PrintedAll(pages[1..]);
      var l := p.url + "\t" + p.html + "\t" + p.query;
      assert Printed(p) + rest == l + "\n" + rest && Printed(p) == l + "\n";
      LineEnd(l, rest, LINE_BUFFER - 1);
      FieldsOfSurvivor(p);
      ReadBack(pages[1..]);
      assert (Printed(p) + rest)[..|l| + 1] == Printed(p) && (Printed(p) + rest)[|l| + 1..] == rest;
    }
  }

  // ---- what cannot ----

  /** Trimming keeps a stretch of the line that ends in a kept character. */
  lemma {:induction false} TrimRightEnds(s: string, chars: string)
    ensures TrimRight(s, chars) != "" ==> TrimRight(s, chars)[|TrimRight(s, chars)| - 1] !in chars
  {
    if s == "" || s[|s| - 1] !in chars {
    } else {
      TrimRightEnds(s[..|s| - 1], chars);
    }
  }

  lemma {:induction false} TrimLeftIsSuffix(s: string, chars: string)
    ensures exists k :: 0 <= k <= |s| && TrimLeft(s, chars) == s[k..]
  {
    if s != "" && s[0] in chars {
      TrimLeftIsSuffix(s[1..], chars);
      var k :| 0 <= k <= |s[1..]| && TrimLeft(s[1..], chars) == s[1..][k..];
      assert s[1..][k..] == s[k + 1..];
    } else {
      assert s[0..] == s;
    }
  }

  /** A line end can only be the last character. */
  predicate OneEnd(line: string) {
    forall k :: 0 <= k < |line| - 1 ==> line[k] != '\n'
  }

  lemma CutHasNoLineEnd(line: string, k: nat, l: string)
    requires OneEnd(line) && k <= |line| && l <= line[k..]
    requires l != "" ==> l[|l| - 1] != '\n'
    ensures '\n' !in l
  {
    forall i | 0 <= i < |l|
      ensures l[i] != '\n'
    {
      assert l[i] == line[k..][i] == line[k + i];
    }
  }

  lemma TrimmedHasNoLineEnd(line: string)
    requires OneEnd(line)
    ensures '\n' !in Trimmed(line)
  {
    hide TrimLeft, TrimRight, OneEnd;
    TrimLeftIsSuffix(line, BLANKS);
    var k :| 0 <= k <= |line| && TrimLeft(line, BLANKS) == line[k..];
    TrimRightEnds(line[k..], BLANKS);
    CutHasNoLineEnd(line, k, TrimRight(line[k..], BLANKS));
  }

  lemma {:induction false} PiecesAreParts(s: string, d: string, k: nat, c: char)
    requires d != "" && k < |Pieces(s, d)| && c in Pieces(s, d)[k]
    ensures c in s
    decreases |s|
  {
    var p := Find(s, d);
    if p == -1 || k == 0 {
    } else {
      PiecesAreParts(s[p + |d|..], d, k - 1, c);
    }
  }

  lemma {:induction false} LineHasOneEnd(text: string, room: nat)
    ensures OneEnd(text[..LineLength(text, room)])
  {
    if text == "" || room == 0 || text[0] == '\n' {
    } else {
      LineHasOneEnd(text[1..], room - 1);
      var more := text[1..][..LineLength(text[1..], room - 1)];
      var line := text[..LineLength(text, room)];
      assert line == [text[0]] + more;
      forall k | 0 <= k < |line| - 1
        ensures line[k] != '\n'
      {
        assert k > 0 ==> line[k] == more[k - 1];
      }
    }
  }

  lemma FieldsArePlain(line: string)
    requires Fields(line) != None && OneEnd(line)
    ensures '\t' !in Fields(line).value.query && '\n' !in Fields(line).value.query
  {
    hide Find, Pieces, Trimmed;
    var l := Trimmed(line);
    TrimmedHasNoLineEnd(line);
    PiecesAvoid(l, "\t");
    var q := Pieces(l, "\t")[2];
    FindChar(q, '\t');
    if '\n' in q {
      PiecesAreParts(l, "\t", 2, '\n');
    }
  }

  /** No scan ever sees a query with a tab or a line end in it. */
  lemma {:induction false} QueriesReadArePlain(text: string)
    ensures forall p <- ReadAll(text) :: '\t' !in p.query && '\n' !in p.query
    decreases |text|
  {
    hide LineLength, Fields;
    if text == "" {
    } else {
      var n := LineLength(text, LINE_BUFFER - 1);
      LineHasOneEnd(text, LINE_BUFFER - 1);
      QueriesReadArePlain(text[n..]);
      var f := Fields(text[..n]);
      if f != None {
        FieldsArePlain(text[..n]);
      }
    }
  }

  /** Trimming on the right takes a run of trimmed characters. */
  lemma {:induction false} TrimRightTakes(s: string, chars: string)
    ensures AllIn(s[|TrimRight(s, chars)|..], chars)
  {
    if s == "" || s[|s| - 1] !in chars {
    } else {
      TrimRightTakes(s[..|s| - 1], chars);
      var n := |TrimRight(s, chars)|;
      assert s[n..] == s[..|s| - 1][n..] + [s[|s| - 1]];
    }
  }

  lemma BlankIsLost(p: Page)
    requires Addressed(p) && AllIn(p.query, BLANKS)
    ensures Fields(Printed(p)) == None
  {
    hide Find, Pieces, Trimmed, TrimRight;
    var l := p.url + "\t" + p.html;
    TrimmedLine(l, "\t" + p.query + "\n");
    assert Printed(p) == l + ("\t" + p.query + "\n");
    assert l == p.url + ['\t'] + p.html;
    PiecesAround(p.url, '\t', p.html);
    PieceWithout(p.url, '\t');
    PieceWithout(p.html, '\t');
  }

  lemma BlankEndIsCut(p: Page, kept: string, tail: string)
    requires Addressed(p) && p.query == kept + tail && '\t' !in kept
    requires kept != "" && kept[|kept| - 1] !in BLANKS && AllIn(tail, BLANKS)
    ensures Fields(Printed(p)) == Some(Page(p.url, p.html, kept))
  {
    hide Find, Pieces, Trimmed, TrimRight;
    var l := p.url + "\t" + p.html + "\t" + kept;
    assert l[|p.url|] == '\t';
    TrimmedLine(l, tail + "\n");
    assert Printed(p) == l + (tail + "\n");
    LinePieces(p.url, p.html, kept);
    PieceWithout(kept, '\t');
  }

  /** A query that is blank is lost, and one that ends in a blank comes back shorter. */
  lemma BlankEndIsLost(p: Page)
    requires Addressed(p) && '\t' !in p.query && '\n' !in p.query && !Survives(p.query)
    ensures Fields(Printed(p)) != Some(p)
  {
    hide Fields, Addressed, TrimRight;
    var kept := TrimRight(p.query, BLANKS);
    var tail := p.query[|kept|..];
    TrimRightTakes(p.query, BLANKS);
    TrimRightEnds(p.query, BLANKS);
    assert p.query == kept + tail;
    if kept == "" {
      assert tail == p.query;
      BlankIsLost(p);
    } else {
      BlankEndIsCut(p, kept, tail);
    }
  }

  lemma OneLine(text: string)
    requires text != "" && LineLength(text, LINE_BUFFER - 1) == |text|
    ensures ReadAll(text) == Listed(Fields(text))
  {
    hide Fields, LineLength;
    assert text[..|text|] == text && text[|text|..] == "";
    assert ReadAll(text[|text|..]) == [];
  }

  /** A printed page is read back as it was exactly when its query survives. */
  lemma ReadBackIff(p: Page)
    requires Addressed(p)
    ensures ReadAll(Printed(p)) == [p] <==> Survives(p.query)
  {
    hide Fields, LineLength;
    QueriesReadArePlain(Printed(p));
    assert PrintedAll([p]) == Printed(p) + PrintedAll([]) == Printed(p);
    if Survives(p.query) {
      ReadBack([p]);
    } else if '\t' !in p.query && '\n' !in p.query {
      var l := p.url + "\t" + p.html + "\t" + p.query;
      assert Printed(p) == l + "\n" + "";
      LineEnd(l, "", LINE_BUFFER - 1);
      BlankEndIsLost(p);
      OneLine(Printed(p));
    } else {
      assert p in [p];
    }
  }

  /** A query with one blank at its end: no page with it comes back. */
  lemma BlankEndDoesNotComeBack(p: Page)
    requires Addressed(p) && p.query == "a "
    ensures ReadAll(Printed(p)) != [p]
  {
    hide ReadAll, Addressed, Printed;
    assert p.query[|p.query| - 1] == ' ';
    ReadBackIff(p);
  }

  // ---- the characters and lines, spelled out ----

  /** The blanks are tab, line feed, carriage return and space. */
  lemma BlanksAre(c: char)
    ensures c in BLANKS <==> c == '\t' || c == '\n' || c == '\r' || c == ' '
  {
    assert BLANKS[0] == '\t' && BLANKS[1] == '\n' && BLANKS[2] == '\r' && BLANKS[3] == ' ';
  }

  /** A read stops behind the first line end, or at the end of the buffer or of the text. */
  lemma {:induction false} LineLengthIs(text: string, room: nat)
    ensures
      var n := LineLength(text, room);
      && (forall k :: 0 <= k < n - 1 ==> text[k] != '\n')
      && (n == |text| || n == room || (n > 0 && text[n - 1] == '\n'))
  {
    if text == "" || room == 0 || text[0] == '\n' {
    } else {
      LineLengthIs(text[1..], room - 1);
    }
  }
}
