/**
 The SQL text builder: column lists and conditions, each appended with a separator behind it that is trimmed
 off at the end, and a vector of the values. A map parameter is the sequence of its entries in map order.
 */
module SqlText {
  import opened Basics
  import opened Text

  datatype Entry<T> = Entry(key: string, value: T)

  // ---- lists with a separator behind each piece ----

  function Trailing(ps: seq<string>, d: string): string {
    if ps == [] then "" else Trailing(ps[..|ps| - 1], d) + ps[|ps| - 1] + d
  }

  lemma TrailingNext(ps: seq<string>, p: string, d: string)
    ensures Trailing(ps + [p], d) == Trailing(ps, d) + p + d
  {
    assert (ps + [p])[..|ps|] == ps;
  }

  lemma Append(a: string, b: string, c: string, e: string)
    ensures a + (b + c + e) == a + b + c + e
  {
  }

  lemma {:induction false} JoinLast(ps: seq<string>, p: string, d: string)
    requires ps != []
    ensures Join(ps + [p], d) == Join(ps, d) + d + p
  {
    if |ps| == 1 {
      assert (ps + [p])[1..] == [p];
    } else {
      assert (ps + [p])[1..] == ps[1..] + [p];
      JoinLast(ps[1..], p, d);
      Append(ps[0] + d, Join(ps[1..], d), d, p);
    }
  }

  lemma {:induction false} TrailingIsJoin(ps: seq<string>, d: string)
    requires ps != []
    ensures Trailing(ps, d) == Join(ps, d) + d
  {
    var n := |ps| - 1;
    assert ps == ps[..n] + [ps[n]];
    if n == 0 {
      assert Trailing(ps[..0], d) == "";
    } else {
      TrailingIsJoin(ps[..n], d);
      JoinLast(ps[..n], ps[n], d);
    }
  }

  /** A piece that ends in a character outside `chars`. */
  predicate EndsKept(p: string, chars: string) {
    p != "" && p[|p| - 1] !in chars
  }

  lemma {:induction false} JoinEndsKept(ps: seq<string>, d: string, chars: string)
    requires ps != [] && EndsKept(ps[|ps| - 1], chars)
    ensures EndsKept(Join(ps, d), chars)
  {
    if |ps| == 1 {
    } else {
      JoinEndsKept(ps[1..], d, chars);
    }
  }

  lemma JoinStarts(ps: seq<string>, d: string)
    requires ps != [] && ps[0] != ""
    ensures Join(ps, d) != "" && Join(ps, d)[0] == ps[0][0]
  {
  }

  /** Trimming by a set of characters takes exactly the last separator. */
  lemma TrimTakesLast(ps: seq<string>, d: string, chars: string)
    requires ps != [] && EndsKept(ps[|ps| - 1], chars) && AllIn(d, chars)
    ensures TrimRight(Trailing(ps, d), chars) == Join(ps, d)
    ensures KeepsSome(Trailing(ps, d), chars)
  {
    hide Trailing, Join, TrimRight;
    TrailingIsJoin(ps, d);
    JoinEndsKept(ps, d, chars);
    var j := Join(ps, d);
    TrimRightOf(j, d, chars);
    assert (j + d)[|j| - 1] !in chars;
  }

  lemma LeftStays(s: string, chars: string)
    requires s != "" && s[0] !in chars
    ensures TrimLeft(s, chars) == s && KeepsSome(s, chars)
  {
  }

  // ---- assignments ----

  function Assignment(column: string): string {
    "`" + column + "`=?"
  }

  function Assignments(param: seq<Entry<string>>): (ps: seq<string>)
    ensures |ps| == |param|
  {
    seq(|param|, k requires 0 <= k < |param| => Assignment(param[k].key))
  }

  function Values(param: seq<Entry<string>>): (vs: seq<string>)
    ensures |vs| == |param|
  {
    seq(|param|, k requires 0 <= k < |param| => param[k].value)
  }

  lemma NoTrailing(d: string)
    ensures Trailing([], d) == ""
  {
  }

  lemma AssignmentsNext(param: seq<Entry<string>>, i: nat)
    requires i < |param|
    ensures Trailing(Assignments(param)[..i + 1], ",")
         == Trailing(Assignments(param)[..i], ",") + "`" + param[i].key + "`=?,"
  {
    hide Trailing;
    var ps := Assignments(param);
    assert ps[..i + 1] == ps[..i] + [ps[i]];
    TrailingNext(ps[..i], ps[i], ",");
    assert "`=?" + "," == "`=?,";
  }

  lemma TrimAssignments(param: seq<Entry<string>>)
    requires param != []
    ensures
      var sql := Trailing(Assignments(param), ",");
      KeepsSome(sql, [',']) && TrimRight(TrimLeft(sql, [',']), [',']) == Join(Assignments(param), ",")
  {
    hide Trailing, Join, TrimRight, TrimLeft;
    var ps := Assignments(param);
    TrimTakesLast(ps, ",", [',']);
    TrailingIsJoin(ps, ",");
    JoinStarts(ps, ",");
    LeftStays(Trailing(ps, ","), [',']);
  }

  /** The assignments with a comma between each two, and the values in the same order. */
  method FormatSql(param: seq<Entry<string>>, sql: string, data: seq<string>)
    returns (status: int, sql': string, data': seq<string>)
    ensures param == [] ==> status == -1 && sql' == sql && data' == data
    ensures param != [] ==> status == 0 && sql' == Join(Assignments(param), ",") && data' == Values(param)
  {
    hide Trailing, Join, TrimRight, TrimLeft, KeepsSome;
    sql', data' := sql, data;
    if |param| <= 0 {
      return -1, sql', data';
    }
    sql', data' := "", [];
    assert Trailing([], ",") == "" by {
      NoTrailing(",");
    }
    for i := 0 to |param|
      invariant sql' == Trailing(Assignments(param)[..i], ",")
      invariant data' == Values(param)[..i]
    {
      AssignmentsNext(param, i);
      sql' := sql' + "`" + param[i].key + "`=?,";
      data' := data' + [param[i].value];
    }
    var ps := Assignments(param);
    assert ps[..|param|] == ps && Values(param)[..|param|] == Values(param);
    TrimAssignments(param);
    sql' := TrimChar(sql', ',');
    status := 0;
  }

  // ---- conditions ----

  datatype Pattern = Prefix | Anywhere | Suffix

  /** A condition as the caller means it. */
  datatype Condition =
    | Member(column: string, values: seq<string>)
    | Like(column: string, pattern: Pattern, value: string)
    | InSet(column: string, value: string)
    | Compare(column: string, op: string, value: string)

  /** The operator names that `paramMap` knows; any other name stands for equality. */
  function SqlSymbol(name: string): string {
    if name == "lt" then "<"
    else if name == "gt" then ">"
    else if name == "neq" then "!="
    else if name == "lte" then "<="
    else if name == "gte" then ">="
    else if name == "in" then "IN"
    else if name == "llike" || name == "rlike" || name == "like" then "LIKE"
    else if name == "find" then "FIND_IN_SET"
    else "="
  }

  /** The name behind the first ':', unless that is the first character. */
  function OperatorName(key: string): string {
    var pos := Find(key, ":");
    if pos > 0 then key[pos + 1..] else "="
  }

  function ColumnOf(key: string): string {
    var pos := Find(key, ":");
    if pos > 0 then key[..pos] else key
  }

  function ConditionOf(key: string, values: seq<string>): Condition
    requires values != []
  {
    var name := OperatorName(key);
    var column := ColumnOf(key);
    if name == "in" then Member(column, values)
    else if name == "llike" then Like(column, Prefix, values[0])
    else if name == "like" then Like(column, Anywhere, values[0])
    else if name == "rlike" then Like(column, Suffix, values[0])
    else if name == "find" then InSet(column, values[0])
    else Compare(column, SqlSymbol(name), values[0])
  }

  function Marks(n: nat): seq<string> {
    seq(n, k => "?")
  }

  function CondText(c: Condition): string {
    match c
    case Member(column, values) => "`" + column + "` IN (" + Join(Marks(|values|), ",") + ")"
    case Like(column, Prefix, _) => "`" + column + "` LIKE '?%'"
    case Like(column, Anywhere, _) => "`" + column + "` LIKE '%?%'"
    case Like(column, Suffix, _) => "`" + column + "` LIKE '%?'"
    case InSet(column, _) => " FIND_IN_SET(?,`" + column + "`)"
    case Compare(column, op, _) => "`" + column + "`" + op + "?"
  }

  function Params(c: Condition): seq<string> {
    match c
    case Member(_, values) => values
    case Like(_, _, value) => [value]
    case InSet(_, value) => [value]
    case Compare(_, _, value) => [value]
  }

  /** The conditions with values, in map order; an entry without any says nothing. */
  function Conditions(param: seq<Entry<seq<string>>>): seq<Condition> {
    if param == [] then []
    else
      var n := |param| - 1;
      Conditions(param[..n]) + if param[n].value == [] then [] else [ConditionOf(param[n].key, param[n].value)]
  }

  function CondTexts(cs: seq<Condition>): (ts: seq<string>)
    ensures |ts| == |cs|
  {
    seq(|cs|, k requires 0 <= k < |cs| => CondText(cs[k]))
  }

  function AllParams(cs: seq<Condition>): seq<string> {
    if cs == [] then [] else AllParams(cs[..|cs| - 1]) + Params(cs[|cs| - 1])
  }

  const AND := " AND "
  const AND_CHARS := "AND "

  function WhereText(cs: seq<Condition>): string {
    Join(CondTexts(cs), AND)
  }

  lemma CondEndsKept(c: Condition)
    ensures EndsKept(CondText(c), AND_CHARS)
    ensures CondText(c)[0] != ','
  {
    hide Join;
  }

  lemma CondNext(cs: seq<Condition>, c: Condition)
    ensures Trailing(CondTexts(cs + [c]), AND) == Trailing(CondTexts(cs), AND) + CondText(c) + AND
    ensures AllParams(cs + [c]) == AllParams(cs) + Params(c)
  {
    hide CondText, Params, Trailing;
    assert (cs + [c])[..|cs|] == cs;
    assert CondTexts(cs + [c]) == CondTexts(cs) + [CondText(c)];
    TrailingNext(CondTexts(cs), CondText(c), AND);
  }

  lemma NoConditions()
    ensures Trailing(CondTexts([]), AND) == "" && AllParams([]) == [] && WhereText([]) == ""
  {
  }

  lemma ConditionsNext(param: seq<Entry<seq<string>>>, i: nat)
    requires i < |param|
    ensures param[i].value == [] ==> Conditions(param[..i + 1]) == Conditions(param[..i])
    ensures param[i].value != [] ==>
      Conditions(param[..i + 1]) == Conditions(param[..i]) + [ConditionOf(param[i].key, param[i].value)]
  {
    assert param[..i + 1][..i] == param[..i];
  }

  lemma NothingToTrim()
    ensures TrimRight("", AND_CHARS) == ""
  {
  }

  /** Trimming the finished text by the set "AND " leaves the conditions with " AND " between each two. */
  lemma TrimWhere(cs: seq<Condition>)
    ensures TrimRight(Trailing(CondTexts(cs), AND), AND_CHARS) == WhereText(cs)
    ensures cs != [] ==> KeepsSome(Trailing(CondTexts(cs), AND), AND_CHARS)
  {
    hide Trailing, Join, CondText, TrimRight;
    if cs == [] {
      NoConditions();
      assert TrimRight("", AND_CHARS) == "" by {
        NothingToTrim();
      }
    } else {
      CondEndsKept(cs[|cs| - 1]);
      TrimTakesLast(CondTexts(cs), AND, AND_CHARS);
    }
  }

  /** No text begins with a comma, so trimming commas on both sides only takes the one behind the marks. */
  predicate NoCommaFirst(where: string) {
    where == "" || where[0] != ','
  }

  lemma TrimMarks(where: string, column: string, n: nat)
    requires NoCommaFirst(where) && n > 0
    ensures
      var open := where + "`" + column + "` IN (";
      var text := open + Trailing(Marks(n), ",");
      && KeepsSome(text, [','])
      && TrimRight(TrimLeft(text, [',']), [',']) == open + Join(Marks(n), ",")
  {
    hide Trailing, Join, TrimRight, TrimLeft;
    var open := where + "`" + column + "` IN (";
    var marks := Join(Marks(n), ",");
    TrailingIsJoin(Marks(n), ",");
    JoinEndsKept(Marks(n), ",", [',']);
    assert open + (marks + ",") == (open + marks) + ",";
    assert (open + marks)[|open + marks| - 1] == marks[|marks| - 1];
    TrimRightOf(open + marks, ",", [',']);
    LeftStays(open + marks + ",", [',']);
  }

  lemma MarksNext(n: nat, i: nat, open: string)
    requires i < n
    ensures open + Trailing(Marks(n)[..i + 1], ",") == open + Trailing(Marks(n)[..i], ",") + "?,"
  {
    hide Trailing;
    var ps := Marks(n);
    assert ps[..i + 1] == ps[..i] + [ps[i]];
    TrailingNext(ps[..i], ps[i], ",");
  }

  lemma MemberText(where: string, column: string, values: seq<string>)
    ensures where + "`" + column + "` IN (" + Join(Marks(|values|), ",") + ") AND "
         == where + CondText(Member(column, values)) + AND
  {
    hide Join;
    assert ") AND " == ")" + AND;
  }

  /** One pass of the loop in the `IN` branch: a mark and a value for each element. */
  method AppendMember(where: string, column: string, values: seq<string>, data: seq<string>)
    returns (where': string, data': seq<string>)
    requires values != [] && NoCommaFirst(where)
    ensures where' == where + CondText(Member(column, values)) + AND
    ensures data' == data + values
  {
    hide Trailing, Join, TrimRight, TrimLeft, KeepsSome;
    where', data' := where + "`" + column + "` IN (", data;
    ghost var open := where';
    assert open + "" == open;
    assert Trailing(Marks(|values|)[..0], ",") == "" by {
      NoTrailing(",");
    }
    for i := 0 to |values|
      invariant where' == open + Trailing(Marks(|values|)[..i], ",")
      invariant data' == data + values[..i]
    {
      MarksNext(|values|, i, open);
      where' := where' + "?,";
      data' := data' + [values[i]];
    }
    assert Marks(|values|)[..|values|] == Marks(|values|);
    TrimMarks(where, column, |values|);
    where' := TrimChar(where', ',');
    MemberText(where, column, values);
    where' := where' + ") AND ";
  }

  lemma PrefixText(where: string, column: string, value: string)
    ensures where + "`" + column + "` LIKE '?%' AND " == where + CondText(Like(column, Prefix, value)) + AND
  {
    assert "` LIKE '?%' AND " == "` LIKE '?%'" + AND;
  }

  lemma AnywhereText(where: string, column: string, value: string)
    ensures where + "`" + column + "` LIKE '%?%' AND " == where + CondText(Like(column, Anywhere, value)) + AND
  {
    assert "` LIKE '%?%' AND " == "` LIKE '%?%'" + AND;
  }

  lemma SuffixText(where: string, column: string, value: string)
    ensures where + "`" + column + "` LIKE '%?' AND " == where + CondText(Like(column, Suffix, value)) + AND
  {
    assert "` LIKE '%?' AND " == "` LIKE '%?'" + AND;
  }

  lemma InSetText(where: string, column: string, value: string)
    ensures where + " FIND_IN_SET(?,`" + column + "`) AND " == where + CondText(InSet(column, value)) + AND
  {
    assert "`) AND " == "`)" + AND;
  }

  lemma CompareText(where: string, column: string, op: string, value: string)
    ensures where + "`" + column + "`" + op + "? AND " == where + CondText(Compare(column, op, value)) + AND
  {
    assert "? AND " == "?" + AND;
  }

  /** One entry with values: its condition, and " AND " behind it. */
  method AppendCondition(where: string, data: seq<string>, entryKey: string, value: seq<string>)
    returns (where': string, data': seq<string>)
    requires value != [] && NoCommaFirst(where)
    ensures where' == where + CondText(ConditionOf(entryKey, value)) + AND
    ensures data' == data + Params(ConditionOf(entryKey, value))
  {
    hide CondText, Find;
    var key, sqlCompareSymbol, compareSymbol := entryKey, "=", "=";
    var pos := Find(key, ":");
    if pos > 0 {
      compareSymbol := key[pos + 1..];
      key := key[..pos];
      sqlCompareSymbol := SqlSymbol(compareSymbol);
    }
    if sqlCompareSymbol == "IN" {
      where', data' := AppendMember(where, key, value, data);
    } else if sqlCompareSymbol == "LIKE" {
      where', data' := where, data;
      if compareSymbol == "llike" {
        PrefixText(where, key, value[0]);
        where' := where' + "`" + key + "` LIKE '?%' AND ";
        data' := data' + [value[0]];
      } else if compareSymbol == "like" {
        AnywhereText(where, key, value[0]);
        where' := where' + "`" + key + "` LIKE '%?%' AND ";
        data' := data' + [value[0]];
      } else if compareSymbol == "rlike" {
        SuffixText(where, key, value[0]);
        where' := where' + "`" + key + "` LIKE '%?' AND ";
        data' := data' + [value[0]];
      }
    } else if sqlCompareSymbol == "FIND_IN_SET" {
      InSetText(where, key, value[0]);
      where' := where + " FIND_IN_SET(?,`" + key + "`) AND ";
      data' := data + [value[0]];
    } else {
      CompareText(where, key, sqlCompareSymbol, value[0]);
      where' := where + "`" + key + "`" + sqlCompareSymbol + "? AND ";
      data' := data + [value[0]];
    }
  }

  lemma NothingListed(param: seq<Entry<seq<string>>>)
    ensures Conditions(param[..0]) == []
  {
  }

  /** The where text is the join of the conditions, and the values follow those already in `data`. */
  method FormatWhereCond(param: seq<Entry<seq<string>>>, where: string, data: seq<string>)
    returns (status: int, where': string, data': seq<string>)
    ensures param == [] ==> status == -1 && where' == where && data' == data
    ensures param != [] ==>
      && status == 0
      && where' == WhereText(Conditions(param))
      && data' == data + AllParams(Conditions(param))
  {
    hide Trailing, Join, TrimRight, KeepsSome, CondText, ConditionOf, Conditions, CondTexts, AllParams, WhereText;
    where', data' := where, data;
    if |param| <= 0 {
      return -1, where', data';
    }
    where' := "";
    NoConditions();
    NothingListed(param);
    for i := 0 to |param|
      invariant where' == Trailing(CondTexts(Conditions(param[..i])), AND)
      invariant data' == data + AllParams(Conditions(param[..i]))
      invariant NoCommaFirst(where')
    {
      ConditionsNext(param, i);
      var value := param[i].value;
      if |value| <= 0 {
        continue;
      }
      ghost var c := ConditionOf(param[i].key, value);
      ghost var was := where';
      CondNext(Conditions(param[..i]), c);
      where', data' := AppendCondition(where', data', param[i].key, value);
      CondEndsKept(c);
      assert where'[0] == if was == "" then CondText(c)[0] else was[0];
    }
    assert param[..|param|] == param;
    TrimWhere(Conditions(param));
    if Conditions(param) == [] {
      assert where' == "";
    }
    where' := Rtrim(where', AND_CHARS);
    status := 0;
  }

  // ---- statements ----

  /** What is handed to `execute`: the statement and its parameters. */
  datatype Statement = Statement(sql: string, data: seq<string>)

  function SetText(param: seq<Entry<string>>): string {
    Join(Assignments(param), ",")
  }

  /** Without any condition there is no `WHERE` at all. */
  function WhereClause(cs: seq<Condition>): string {
    if WhereText(cs) == "" then "" else " WHERE " + WhereText(cs)
  }

  lemma NothingSet()
    ensures SetText([]) == ""
  {
  }

  method Update(table: string, updateData: seq<Entry<string>>, where: seq<Entry<seq<string>>>)
    returns (st: Statement)
    ensures st.sql == "UPDATE `" + table + "` SET " + SetText(updateData) + WhereClause(Conditions(where))
    ensures st.data == Values(updateData) + AllParams(Conditions(where))
  {
    hide Join, Conditions, WhereText, AllParams;
    NoConditions();
    NothingListed(where);
    assert SetText([]) == "" by {
      NothingSet();
    }
    var status, uSql, uData := FormatSql(updateData, "", []);
    var wSql, wData;
    status, wSql, wData := FormatWhereCond(where, "", []);
    assert where[..0] == [];
    assert wSql == WhereText(Conditions(where)) && wData == AllParams(Conditions(where));
    if |wSql| > 0 {
      wSql := " WHERE " + wSql;
    }
    wData := uData + wData;
    var sql := "UPDATE `";
    sql := sql + table + "` SET " + uSql + wSql;
    st := Statement(sql, wData);
  }

  /** `None` when either map is empty; the source then returns -1 without building anything. */
  method InsertUpdate(table: string, insertData: seq<Entry<string>>, updateData: seq<Entry<string>>)
    returns (st: Option<Statement>)
    ensures st == None <==> insertData == [] || updateData == []
    ensures st != None ==>
      && st.value.sql == "INSERT INTO `" + table + "` SET " + SetText(insertData)
                         + " ON DUPLICATE KEY UPDATE " + SetText(updateData)
      && st.value.data == Values(insertData) + Values(updateData)
  {
    hide Join;
    if |insertData| <= 0 || |updateData| <= 0 {
      return None;
    }
    var status, iSql, iData := FormatSql(insertData, "", []);
    var uSql, uData;
    status, uSql, uData := FormatSql(updateData, "", []);
    uData := iData + uData;
    var sql := "INSERT INTO `";
    sql := sql + table + "` SET " + iSql + " ON DUPLICATE KEY UPDATE " + uSql;
    st := Some(Statement(sql, uData));
  }
}
