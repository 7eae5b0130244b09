/**
 Which rows a built condition selects: the filled text is read back, its operators are given their meaning on two
 values, and the answer is compared with what the name in the caller's key stands for.
 */
module SqlLaws {
  import opened Text
  import opened SqlText
  import opened SqlMeaning

  // ---- what the server does with a condition ----

  /** How the type of a column compares two texts: negative for less, zero for equal, positive for greater. */
  type Order = (string, string) -> int

  predicate Says(op: string, a: string, b: string, order: Order) {
    if op == "<" then order(a, b) < 0
    else if op == ">" then order(a, b) > 0
    else if op == "<=" then order(a, b) <= 0
    else if op == ">=" then order(a, b) >= 0
    else if op == "!=" then order(a, b) != 0
    else op == "=" && order(a, b) == 0
  }

  /** `LIKE`: '%' stands for any text, '_' for any character, every other character for itself. */
  predicate Matches(x: string, p: string)
    decreases |p|, |x|
  {
    if p == "" then x == ""
    else if p[0] == '%' then Matches(x, p[1..]) || (x != "" && Matches(x[1..], p))
    else x != "" && (p[0] == '_' || p[0] == x[0]) && Matches(x[1..], p[1..])
  }

  /** The characters in front of the first value. */
  function Lead(ts: seq<Token>): (lead: string)
    ensures |lead| <= |ts|
  {
    if ts == [] || ts[0].Value? then "" else [ts[0].c] + Lead(ts[1..])
  }

  /** The characters between the first value and the next. */
  function LeadBehind(ts: seq<Token>): string {
    if |Lead(ts)| < |ts| then Lead(ts[|Lead(ts)| + 1..]) else ""
  }

  function ValuesIn(ts: seq<Token>): seq<string> {
    if ts == [] then [] else (if ts[0].Value? then [ts[0].value] else []) + ValuesIn(ts[1..])
  }

  /** What stands behind the first backtick. */
  function Opened(text: string): string {
    text[Find(text, "`") + 1..]
  }

  /** The name between the first two backticks. */
  function NameIn(text: string): string {
    var e := Find(Opened(text), "`");
    if e == -1 then Opened(text) else Opened(text)[..e]
  }

  function BehindName(text: string): string {
    Opened(text)[Find(Opened(text), "`") + 1..]
  }

  /** The elements of a column that holds a list; an empty one has none. */
  function Elements(list: string): seq<string> {
    if list == "" then [] else Pieces(list, ",")
  }

  const FIND_OPEN := " FIND_IN_SET("
  const LIKE_OPEN := " LIKE '"

  /** Whether a row, given by its columns, is one a filled condition selects. */
  predicate Selects(ts: seq<Token>, row: string -> string, order: Order) {
    var text, vs := Lead(ts), ValuesIn(ts);
    if text == FIND_OPEN then |vs| == 1 && vs[0] in Elements(row(NameIn(LeadBehind(ts))))
    else
      var x, op := row(NameIn(text)), BehindName(text);
      if op == " IN (" then exists k :: 0 <= k < |vs| && order(x, vs[k]) == 0
      else if LIKE_OPEN < op then vs == [] && Matches(x, op[|LIKE_OPEN|..|op| - 1])
      else |vs| == 1 && Says(op, x, vs[0], order)
  }

  // ---- reading the texts ----

  lemma CharsHead(s: string, rest: seq<Token>)
    requires s != ""
    ensures Chars(s) + rest == [Char(s[0])] + (Chars(s[1..]) + rest)
  {
  }

  lemma {:induction false} LeadIs(s: string, rest: seq<Token>)
    requires rest == [] || rest[0].Value?
    ensures Lead(Chars(s) + rest) == s
  {
    if s == "" {
      assert Chars(s) + rest == rest;
    } else {
      CharsHead(s, rest);
      LeadIs(s[1..], rest);
    }
  }

  lemma {:induction false} NoValuesIn(s: string, rest: seq<Token>)
    ensures ValuesIn(Chars(s) + rest) == ValuesIn(rest)
  {
    if s == "" {
      assert Chars(s) + rest == rest;
    } else {
      CharsHead(s, rest);
      NoValuesIn(s[1..], rest);
    }
  }

  lemma NameAt(before: string, column: string, behind: string)
    requires '`' !in before && '`' !in column
    ensures
      var text := before + "`" + column + "`" + behind;
      NameIn(text) == column && BehindName(text) == behind
  {
    hide Find;
    var text := before + "`" + column + "`" + behind;
    assert text[..|before|] == before;
    FindCharAt(text, '`', |before|);
    assert Opened(text) == column + "`" + behind;
    assert Opened(text)[..|column|] == column;
    FindCharAt(Opened(text), '`', |column|);
  }

  lemma KeyParts(column: string, name: string)
    requires column != "" && ':' !in column
    ensures ColumnOf(column + ":" + name) == column && OperatorName(column + ":" + name) == name
  {
    hide Find;
    var key := column + ":" + name;
    assert key[..|column|] == column;
    FindCharAt(key, ':', |column|);
  }

  lemma WholeKey(key: string)
    requires ':' !in key || key[0] == ':'
    ensures ColumnOf(key) == key && OperatorName(key) == "="
  {
    hide Find;
    FindChar(key, ':');
    if ':' in key {
      FindCharAt(key, ':', 0);
    }
  }

  // ---- comparisons ----

  lemma OneValue(value: string)
    ensures ValuesIn([Value(value)]) == [value]
  {
  }

  lemma CompareReads(column: string, op: string, value: string, row: string -> string, order: Order)
    requires '`' !in column && op != " IN (" && !(LIKE_OPEN < op)
    ensures Selects(CondTokens(Compare(column, op, value)), row, order) <==> Says(op, row(column), value, order)
  {
    hide Says, Lead, ValuesIn, NameIn, BehindName, Matches, Chars;
    var text := "`" + column + "`" + op;
    LeadIs(text, [Value(value)]);
    NoValuesIn(text, [Value(value)]);
    OneValue(value);
    assert "" + "`" + column + "`" + op == text;
    NameAt("", column, op);
    assert text[0] == '`' && FIND_OPEN[0] == ' ';
  }

  const OTHER_NAMES := ["in", "llike", "like", "rlike", "find"]

  /** What a name makes of a comparison: the named relation, and equality for any name that is not one of these. */
  lemma SymbolSays(name: string, a: string, b: string, order: Order)
    requires name !in OTHER_NAMES
    ensures Says(SqlSymbol(name), a, b, order) <==>
      var sign := order(a, b);
      if name == "lt" then sign < 0
      else if name == "gt" then sign > 0
      else if name == "lte" then sign <= 0
      else if name == "gte" then sign >= 0
      else if name == "neq" then sign != 0
      else sign == 0
    ensures SqlSymbol(name) != " IN (" && !(LIKE_OPEN < SqlSymbol(name))
  {
    assert OTHER_NAMES[0] == "in" && OTHER_NAMES[1] == "llike" && OTHER_NAMES[2] == "like";
    assert OTHER_NAMES[3] == "rlike" && OTHER_NAMES[4] == "find";
  }

  /** A name none of the branches knows makes a comparison. */
  lemma CompareIs(key: string, values: seq<string>)
    requires OperatorName(key) !in OTHER_NAMES && values != []
    ensures ConditionOf(key, values) == Compare(ColumnOf(key), SqlSymbol(OperatorName(key)), values[0])
  {
    hide OperatorName, ColumnOf, SqlSymbol;
    assert OTHER_NAMES[0] == "in" && OTHER_NAMES[1] == "llike" && OTHER_NAMES[2] == "like";
    assert OTHER_NAMES[3] == "rlike" && OTHER_NAMES[4] == "find";
  }

  /** "column:lt" selects exactly the rows below the first value, ":gt" those above it, and so on. */
  lemma CompareSelects(column: string, name: string, values: seq<string>, row: string -> string, order: Order)
    requires column != "" && ':' !in column && '`' !in column && values != []
    requires name !in OTHER_NAMES
    ensures Selects(CondTokens(ConditionOf(column + ":" + name, values)), row, order) <==>
      var sign := order(row(column), values[0]);
      if name == "lt" then sign < 0
      else if name == "gt" then sign > 0
      else if name == "lte" then sign <= 0
      else if name == "gte" then sign >= 0
      else if name == "neq" then sign != 0
      else sign == 0
  {
    hide Selects, CondTokens, SqlSymbol, Says;
    KeyParts(column, name);
    SymbolSays(name, row(column), values[0], order);
    CompareReads(column, SqlSymbol(name), values[0], row, order);
    CompareIs(column + ":" + name, values);
  }

  /** A key without a name, or one that begins with the colon, is a column to be equal to the first value. */
  lemma BareKeySelects(key: string, values: seq<string>, row: string -> string, order: Order)
    requires ':' !in key || key[0] == ':'
    requires '`' !in key && values != []
    ensures Selects(CondTokens(ConditionOf(key, values)), row, order) <==> order(row(key), values[0]) == 0
  {
    hide Selects, CondTokens, SqlSymbol, Says;
    WholeKey(key);
    SymbolSays("=", row(key), values[0], order);
    CompareReads(key, SqlSymbol("="), values[0], row, order);
    CompareIs(key, values);
  }

  // ---- lists ----

  lemma {:induction false} ValuesTogether(a: seq<Token>, b: seq<Token>)
    ensures ValuesIn(a + b) == ValuesIn(a) + ValuesIn(b)
  {
    if a == [] {
      assert a + b == b;
    } else {
      assert (a + b)[1..] == a[1..] + b;
      ValuesTogether(a[1..], b);
    }
  }

  function Singles(values: seq<string>): seq<seq<Token>> {
    seq(|values|, k requires 0 <= k < |values| => [Value(values[k])])
  }

  lemma NoneIn()
    ensures ValuesIn([]) == []
  {
  }

  lemma {:induction false} ListValues(values: seq<string>)
    requires values != []
    ensures
      var ts := JoinTokens(Singles(values), Chars(","));
      ts != [] && ts[0] == Value(values[0]) && ValuesIn(ts) == values
  {
    hide ValuesIn, Chars;
    var n := |values| - 1;
    OneValue(values[n]);
    if n == 0 {
    } else {
      ListValues(values[..n]);
      assert Singles(values)[..n] == Singles(values[..n]);
      var front := JoinTokens(Singles(values[..n]), Chars(","));
      var none: seq<Token> := [];
      assert Chars(",") + none == Chars(",");
      NoValuesIn(",", none);
      NoneIn();
      ValuesTogether(front, Chars(","));
      ValuesTogether(front + Chars(","), [Value(values[n])]);
    }
  }

  lemma MemberReads(column: string, values: seq<string>, row: string -> string, order: Order)
    requires '`' !in column && values != []
    ensures Selects(CondTokens(Member(column, values)), row, order) <==>
      exists k :: 0 <= k < |values| && order(row(column), values[k]) == 0
  {
    hide Says, Lead, ValuesIn, NameIn, BehindName, Matches, Chars, JoinTokens;
    var text, list := "`" + column + "` IN (", JoinTokens(Singles(values), Chars(","));
    ListValues(values);
    assert ValueTokens(values) == list;
    assert Chars(text) + list + Chars(")") == Chars(text) + (list + Chars(")"));
    LeadIs(text, list + Chars(")"));
    NoValuesIn(text, list + Chars(")"));
    ValuesTogether(list, Chars(")"));
    var none: seq<Token> := [];
    assert Chars(")") + none == Chars(")");
    NoValuesIn(")", none);
    NoneIn();
    assert "" + "`" + column + "`" + " IN (" == text;
    NameAt("", column, " IN (");
    assert text[0] == '`' && FIND_OPEN[0] == ' ';
    var ts := CondTokens(Member(column, values));
    assert ts == Chars(text) + (list + Chars(")"));
    assert Lead(ts) == text;
    assert ValuesIn(ts) == values;
  }

  /** "column:in" selects exactly the rows that hold one of the values. */
  lemma MemberSelects(column: string, values: seq<string>, row: string -> string, order: Order)
    requires column != "" && ':' !in column && '`' !in column && values != []
    ensures Selects(CondTokens(ConditionOf(column + ":in", values)), row, order) <==>
      exists k :: 0 <= k < |values| && order(row(column), values[k]) == 0
  {
    hide Selects, CondTokens, SqlSymbol, ColumnOf, OperatorName;
    assert column + ":" + "in" == column + ":in";
    KeyParts(column, "in");
    MemberReads(column, values, row, order);
  }

  lemma CharsLength(s: string)
    ensures |Chars(s)| == |s|
  {
  }

  lemma InSetReads(column: string, value: string, row: string -> string, order: Order)
    requires '`' !in column
    ensures Selects(CondTokens(InSet(column, value)), row, order) <==> value in Elements(row(column))
  {
    hide Says, Lead, ValuesIn, NameIn, BehindName, Matches, Chars, Elements;
    var close := ",`" + column + "`)";
    var rest := [Value(value)] + Chars(close);
    assert CondTokens(InSet(column, value)) == Chars(FIND_OPEN) + rest;
    LeadIs(FIND_OPEN, rest);
    NoValuesIn(FIND_OPEN, rest);
    CharsLength(FIND_OPEN);
    assert (Chars(FIND_OPEN) + rest)[|FIND_OPEN| + 1..] == Chars(close);
    var none: seq<Token> := [];
    assert Chars(close) + none == Chars(close);
    LeadIs(close, none);
    NoValuesIn(close, none);
    NoneIn();
    ValuesTogether([Value(value)], Chars(close));
    OneValue(value);
    assert "," + "`" + column + "`" + ")" == close;
    NameAt(",", column, ")");
  }

  /** "column:find" selects exactly the rows whose list has the value as an element. */
  lemma InSetSelects(column: string, values: seq<string>, row: string -> string, order: Order)
    requires column != "" && ':' !in column && '`' !in column && values != []
    ensures Selects(CondTokens(ConditionOf(column + ":find", values)), row, order) <==>
      values[0] in Elements(row(column))
  {
    hide Selects, CondTokens, SqlSymbol, ColumnOf, OperatorName;
    assert column + ":" + "find" == column + ":find";
    KeyParts(column, "find");
    InSetReads(column, values[0], row, order);
  }

  // ---- patterns ----

  predicate Literal(v: string) {
    '%' !in v && '_' !in v && '\\' !in v
  }

  /** A pattern with a value where its '?' is, as the comment in the source means it. */
  function Put(p: string, v: string): string {
    if p == "" then "" else (if p[0] == '?' then v else [p[0]]) + Put(p[1..], v)
  }

  /** Characters that stand for themselves come off both sides. */
  lemma {:induction false} LiteralMatches(x: string, v: string, p: string)
    requires Literal(v)
    ensures Matches(x, v + p) <==> v <= x && Matches(x[|v|..], p)
  {
    if v == "" {
      assert v + p == p && x[|v|..] == x;
    } else {
      assert (v + p)[1..] == v[1..] + p && (v + p)[0] == v[0];
      if x != "" {
        LiteralMatches(x[1..], v[1..], p);
        assert v[0] in v;
        assert v <= x <==> v[0] == x[0] && v[1..] <= x[1..];
      }
    }
  }

  lemma {:induction false} AnyMatches(x: string)
    ensures Matches(x, "%")
  {
    assert "%"[1..] == "";
    if x == "" {
    } else {
      AnyMatches(x[1..]);
    }
  }

  lemma {:induction false} AnyThen(x: string, p: string)
    ensures Matches(x, "%" + p) <==> exists k :: 0 <= k <= |x| && Matches(x[k..], p)
  {
    var q := "%" + p;
    assert q[0] == '%' && q[1..] == p && x[0..] == x;
    if x == "" {
    } else {
      AnyThen(x[1..], p);
      forall k | 0 < k <= |x|
        ensures x[k..] == x[1..][k - 1..]
      {
      }
      if Matches(x[1..], q) {
        var k :| 0 <= k <= |x[1..]| && Matches(x[1..][k..], p);
        assert Matches(x[k + 1..], p);
      }
    }
  }

  lemma PrefixPattern(x: string, v: string)
    requires Literal(v)
    ensures Matches(x, v + "%") <==> v <= x
  {
    hide Matches;
    LiteralMatches(x, v, "%");
    if v <= x {
      AnyMatches(x[|v|..]);
    }
  }

  lemma AnywherePattern(x: string, v: string)
    requires Literal(v)
    ensures Matches(x, "%" + v + "%") <==> exists k: nat :: OccursAt(x, v, k)
  {
    hide Matches;
    assert "%" + v + "%" == "%" + (v + "%");
    AnyThen(x, v + "%");
    forall k | 0 <= k <= |x|
      ensures Matches(x[k..], v + "%") <==> OccursAt(x, v, k)
    {
      PrefixPattern(x[k..], v);
    }
  }

  lemma OnlyEmpty(x: string)
    ensures Matches(x, "") <==> x == ""
  {
  }

  lemma SuffixPattern(x: string, v: string)
    requires Literal(v)
    ensures Matches(x, "%" + v) <==> |v| <= |x| && x[|x| - |v|..] == v
  {
    hide Matches;
    AnyThen(x, v);
    forall k | 0 <= k <= |x|
      ensures Matches(x[k..], v) <==> x[k..] == v
    {
      assert v + "" == v;
      LiteralMatches(x[k..], v, "");
      if v <= x[k..] {
        OnlyEmpty(x[k..][|v|..]);
      }
    }
    if |v| <= |x| && x[|x| - |v|..] == v {
      assert Matches(x[|x| - |v|..], v);
    }
  }

  /** What the pattern of each kind selects with a value in its place. */
  ghost predicate Fits(name: string, x: string, v: string) {
    if name == "llike" then v <= x
    else if name == "like" then exists k: nat :: OccursAt(x, v, k)
    else |v| <= |x| && x[|x| - |v|..] == v
  }

  lemma PutPatterns(v: string)
    ensures Put("?%", v) == v + "%" && Put("%?%", v) == "%" + v + "%" && Put("%?", v) == "%" + v
  {
    assert "?%"[1..] == "%" && "%?%"[1..] == "?%" && "%?"[1..] == "?";
    assert "%"[1..] == "" && "?"[1..] == "";
    assert Put("%", v) == "%" && Put("?", v) == v;
  }

  lemma PatternFits(name: string, column: string, values: seq<string>, x: string, v: string)
    requires name in ["llike", "like", "rlike"] && values != [] && Literal(v)
    requires OperatorName(column + ":" + name) == name
    ensures
      var c := ConditionOf(column + ":" + name, values);
      c.Like? && (Matches(x, Put(PatternText(c.pattern), v)) <==> Fits(name, x, v))
  {
    hide Matches, Find, OperatorName, ColumnOf, SqlSymbol;
    PutPatterns(v);
    PrefixPattern(x, v);
    AnywherePattern(x, v);
    SuffixPattern(x, v);
  }

  lemma LikeReads(column: string, pattern: Pattern, value: string, row: string -> string, order: Order)
    requires '`' !in column
    ensures Selects(CondTokens(Like(column, pattern, value)), row, order) <==>
      Matches(row(column), PatternText(pattern))
  {
    hide Says, Lead, ValuesIn, NameIn, BehindName, Matches, Chars, CondText;
    var p := PatternText(pattern);
    var text, op := CondText(Like(column, pattern, value)), " LIKE " + (['\''] + p + ['\'']);
    var none: seq<Token> := [];
    LikeTextIs(column, pattern, value);
    assert text == "" + "`" + column + "`" + op;
    assert Chars(text) + none == Chars(text);
    LeadIs(text, none);
    NoValuesIn(text, none);
    NoneIn();
    NameAt("", column, op);
    assert text[0] == '`' && FIND_OPEN[0] == ' ';
    assert op[1] == 'L' && " IN ("[1] == 'I';
    assert op == LIKE_OPEN + p + ['\''];
    assert op[|LIKE_OPEN|..|op| - 1] == p;
  }

  /**
   With the value where its '?' is, the pattern of "column:llike" selects what begins with the value, that of
   ":like" what contains it, and that of ":rlike" what ends with it. As built, the '?' stays and is the value.
   */
  lemma PatternSelects(column: string, name: string, values: seq<string>, v: string, row: string -> string,
                       order: Order)
    requires column != "" && ':' !in column && '`' !in column && values != []
    requires name in ["llike", "like", "rlike"] && Literal(v)
    ensures
      var c := ConditionOf(column + ":" + name, values);
      && c.Like?
      && (Matches(row(column), Put(PatternText(c.pattern), v)) <==> Fits(name, row(column), v))
      && (Selects(CondTokens(c), row, order) <==> Fits(name, row(column), "?"))
  {
    hide Selects, CondTokens, SqlSymbol, Matches, Fits, ColumnOf, OperatorName;
    KeyParts(column, name);
    PatternFits(name, column, values, row(column), v);
    PatternFits(name, column, values, row(column), "?");
    var c := ConditionOf(column + ":" + name, values);
    LikeReads(column, c.pattern, values[0], row, order);
    PutPatterns("?");
    assert "?" + "%" == "?%" && "%" + "?" + "%" == "%?%" && "%" + "?" == "%?";
  }

  // ---- all conditions together ----

  /** The conditions stand side by side with " AND " between each two, so a row has to satisfy all of them. */
  lemma AllConditions(cs: seq<Condition>)
    ensures WhereText(cs) == Join(CondTexts(cs), " AND ")
    ensures WhereTokens(cs) == JoinTokens(seq(|cs|, k requires 0 <= k < |cs| => CondTokens(cs[k])), Chars(" AND "))
  {
  }

  ghost predicate SelectsAll(cs: seq<Condition>, row: string -> string, order: Order) {
    forall c <- cs :: Selects(CondTokens(c), row, order)
  }

  /** Every entry with values restricts the rows, and one without does not. */
  lemma {:induction false} EveryEntryRestricts(param: seq<Entry<seq<string>>>, row: string -> string, order: Order)
    ensures SelectsAll(Conditions(param), row, order) <==>
      forall e <- param :: e.value == [] || Selects(CondTokens(ConditionOf(e.key, e.value)), row, order)
  {
    hide Selects, CondTokens, ConditionOf;
    if param == [] {
    } else {
      var front, last := param[..|param| - 1], param[|param| - 1];
      EveryEntryRestricts(front, row, order);
      assert param == front + [last];
      if last.value != [] {
        var c := ConditionOf(last.key, last.value);
        assert Conditions(param) == Conditions(front) + [c];
        assert SelectsAll(Conditions(param), row, order) <==>
          SelectsAll(Conditions(front), row, order) && Selects(CondTokens(c), row, order);
      }
    }
  }
}
