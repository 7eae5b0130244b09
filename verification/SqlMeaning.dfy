/**
 What the server makes of a built statement: a '?' outside quotes and backticks is a placeholder, and the
 parameters take the placeholders' places in order. Against that reading the built texts say what was asked.
 */
module SqlMeaning {
  import opened Basics
  import opened Text
  import opened SqlText

  datatype Mode = Plain | Name | Quoted

  function Next(m: Mode, c: char): Mode {
    match m
    case Plain => if c == '`' then Name else if c == '\'' then Quoted else Plain
    case Name => if c == '`' then Plain else Name
    case Quoted => if c == '\'' then Plain else Quoted
  }

  function After(s: string, m: Mode): Mode {
    if s == "" then m else After(s[1..], Next(m, s[0]))
  }

  /** The number of placeholders, as the prepared statement reports it. */
  function Holes(s: string, m: Mode): nat {
    if s == "" then 0
    else (if m == Plain && s[0] == '?' then 1 else 0) + Holes(s[1..], Next(m, s[0]))
  }

  datatype Token = Char(c: char) | Value(value: string)

  function Chars(s: string): seq<Token> {
    seq(|s|, k requires 0 <= k < |s| => Char(s[k]))
  }

  /** The text with the i-th placeholder replaced by the i-th value. */
  function Filled(s: string, m: Mode, vs: seq<string>): seq<Token>
    requires |vs| == Holes(s, m)
    decreases |s|
  {
    if s == "" then []
    else if m == Plain && s[0] == '?' then [Value(vs[0])] + Filled(s[1..], m, vs[1..])
    else [Char(s[0])] + Filled(s[1..], Next(m, s[0]), vs)
  }

  /** A text that closes its quotes, with a value for every placeholder, and what it says when they are filled in. */
  ghost predicate Fills(text: string, vs: seq<string>, ts: seq<Token>) {
    After(text, Plain) == Plain && Holes(text, Plain) == |vs| && Filled(text, Plain, vs) == ts
  }

  lemma HolesHead(s: string, m: Mode)
    requires s != ""
    ensures After(s, m) == After(s[1..], Next(m, s[0]))
    ensures Holes(s, m) == (if m == Plain && s[0] == '?' then 1 else 0) + Holes(s[1..], Next(m, s[0]))
  {
  }

  lemma FilledHead(s: string, m: Mode, vs: seq<string>)
    requires s != "" && |vs| == Holes(s, m)
    requires Holes(s, m) == (if m == Plain && s[0] == '?' then 1 else 0) + Holes(s[1..], Next(m, s[0]))
    ensures Filled(s, m, vs)
         == if m == Plain && s[0] == '?' then [Value(vs[0])] + Filled(s[1..], Next(m, s[0]), vs[1..])
            else [Char(s[0])] + Filled(s[1..], Next(m, s[0]), vs)
  {
    hide Holes, After;
  }

  lemma EmptyHasNone(m: Mode)
    ensures After("", m) == m && Holes("", m) == 0 && Filled("", m, []) == []
  {
  }

  lemma {:induction false} CountsTogether(a: string, b: string, m: Mode)
    ensures After(a + b, m) == After(b, After(a, m))
    ensures Holes(a + b, m) == Holes(a, m) + Holes(b, After(a, m))
  {
    if a == "" {
      assert a + b == b;
    } else {
      assert (a + b)[1..] == a[1..] + b && (a + b)[0] == a[0];
      CountsTogether(a[1..], b, Next(m, a[0]));
    }
  }

  lemma Cons(t: Token, x: seq<Token>, y: seq<Token>)
    ensures [t] + (x + y) == [t] + x + y
  {
  }

  lemma FirstIsHole(a: string, va: seq<string>, b: string, vb: seq<string>)
    requires a != "" && a[0] == '?' && Holes(a, Plain) == |va| && Holes(b, After(a, Plain)) == |vb|
    requires Holes(a[1..], Plain) == |va| - 1 && Holes(a[1..] + b, Plain) == |va| - 1 + |vb|
    requires Holes(a + b, Plain) == |va| + |vb|
    requires Filled(a[1..] + b, Plain, va[1..] + vb)
          == Filled(a[1..], Plain, va[1..]) + Filled(b, After(a, Plain), vb)
    ensures Filled(a + b, Plain, va + vb) == Filled(a, Plain, va) + Filled(b, After(a, Plain), vb)
  {
    hide After, Holes, Filled;
    assert (a + b)[1..] == a[1..] + b && (va + vb)[1..] == va[1..] + vb;
    FilledHead(a, Plain, va);
    FilledHead(a + b, Plain, va + vb);
    Cons(Value(va[0]), Filled(a[1..], Plain, va[1..]), Filled(b, After(a, Plain), vb));
  }

  lemma FirstIsChar(a: string, va: seq<string>, b: string, vb: seq<string>, m: Mode)
    requires a != "" && !(m == Plain && a[0] == '?') && Holes(a, m) == |va| && Holes(b, After(a, m)) == |vb|
    requires Holes(a[1..], Next(m, a[0])) == |va| && Holes(a[1..] + b, Next(m, a[0])) == |va| + |vb|
    requires Holes(a + b, m) == |va| + |vb|
    requires Filled(a[1..] + b, Next(m, a[0]), va + vb)
          == Filled(a[1..], Next(m, a[0]), va) + Filled(b, After(a, m), vb)
    ensures Filled(a + b, m, va + vb) == Filled(a, m, va) + Filled(b, After(a, m), vb)
  {
    hide After, Holes, Filled, Next;
    assert (a + b)[1..] == a[1..] + b;
    FilledHead(a, m, va);
    FilledHead(a + b, m, va + vb);
    Cons(Char(a[0]), Filled(a[1..], Next(m, a[0]), va), Filled(b, After(a, m), vb));
  }

  lemma StaysPlain()
    ensures Next(Plain, '?') == Plain
  {
  }

  /** Two texts filled in one after the other; the values come apart where the first text's placeholders end. */
  lemma {:induction false} FilledTogether(a: string, va: seq<string>, b: string, vb: seq<string>, m: Mode)
    requires Holes(a, m) == |va| && Holes(b, After(a, m)) == |vb| && Holes(a + b, m) == |va| + |vb|
    ensures Filled(a + b, m, va + vb) == Filled(a, m, va) + Filled(b, After(a, m), vb)
    decreases |a|
  {
    hide After, Holes, Filled, Next;
    if a == "" {
      EmptyHasNone(m);
      assert va == [] && a + b == b && va + vb == vb;
    } else {
      assert (a + b)[1..] == a[1..] + b && (a + b)[0] == a[0];
      HolesHead(a, m);
      HolesHead(a + b, m);
      if m == Plain && a[0] == '?' {
        StaysPlain();
        FilledTogether(a[1..], va[1..], b, vb, Plain);
        FirstIsHole(a, va, b, vb);
      } else {
        FilledTogether(a[1..], va, b, vb, Next(m, a[0]));
        FirstIsChar(a, va, b, vb, m);
      }
    }
  }

  lemma Concatenated(a: string, va: seq<string>, b: string, vb: seq<string>, m: Mode)
    requires Holes(a, m) == |va| && Holes(b, After(a, m)) == |vb|
    ensures After(a + b, m) == After(b, After(a, m))
    ensures Holes(a + b, m) == |va| + |vb|
    ensures Filled(a + b, m, va + vb) == Filled(a, m, va) + Filled(b, After(a, m), vb)
  {
    hide After, Holes, Filled;
    CountsTogether(a, b, m);
    FilledTogether(a, va, b, vb, m);
  }

  lemma Glue(a: string, va: seq<string>, ta: seq<Token>, b: string, vb: seq<string>, tb: seq<Token>)
    requires Fills(a, va, ta) && Fills(b, vb, tb)
    ensures Fills(a + b, va + vb, ta + tb)
  {
    hide After, Holes, Filled;
    Concatenated(a, va, b, vb, Plain);
  }

  /** In every mode, a stretch that neither leaves it nor holds a placeholder stands for itself. */
  predicate Inert(s: string, m: Mode) {
    forall k :: 0 <= k < |s| ==> Next(m, s[k]) == m && (m == Plain ==> s[k] != '?')
  }

  lemma {:induction false} InertStays(s: string, m: Mode)
    requires Inert(s, m)
    ensures After(s, m) == m && Holes(s, m) == 0 && Filled(s, m, []) == Chars(s)
  {
    if s == "" {
    } else {
      assert forall k :: 0 <= k < |s[1..]| ==> s[1..][k] == s[k + 1];
      InertStays(s[1..], m);
      assert Chars(s) == [Char(s[0])] + Chars(s[1..]);
    }
  }

  lemma WordsFill(s: string)
    requires Inert(s, Plain)
    ensures Fills(s, [], Chars(s))
  {
    InertStays(s, Plain);
  }

  lemma HoleFills(v: string)
    ensures Fills("?", [v], [Value(v)])
  {
    assert "?"[1..] == "";
    assert Filled("?", Plain, [v]) == [Value(v)] + Filled("", Plain, []);
  }

  lemma CharsTogether(a: string, b: string)
    ensures Chars(a + b) == Chars(a) + Chars(b)
  {
  }

  lemma {:induction false} NoHoleStays(s: string, m: Mode)
    requires Holes(s, m) == 0
    ensures Filled(s, m, []) == Chars(s)
  {
    if s == "" {
    } else {
      NoHoleStays(s[1..], Next(m, s[0]));
      assert Chars(s) == [Char(s[0])] + Chars(s[1..]);
    }
  }

  lemma OneChar(c: char, m: Mode)
    requires c != '?'
    ensures After([c], m) == Next(m, c) && Holes([c], m) == 0 && Filled([c], m, []) == Chars([c])
  {
    assert [c][1..] == "";
    assert After([c], m) == After("", Next(m, c));
    assert Holes([c], m) == 0 + Holes("", Next(m, c));
  }

  /** A stretch without placeholders between two marks that open and close a mode: backticks or quotes. */
  lemma Enclosed(mark: char, s: string, m: Mode)
    requires Next(Plain, mark) == m != Plain && Next(m, mark) == Plain && After(s, m) == m && Holes(s, m) == 0
    ensures Fills([mark] + s + [mark], [], Chars([mark] + s + [mark]))
  {
    hide After, Holes, Filled, Chars;
    NoHoleStays(s, m);
    OneChar(mark, Plain);
    OneChar(mark, m);
    Concatenated([mark], [], s, [], Plain);
    Concatenated([mark] + s, [], [mark], [], Plain);
    CharsTogether([mark], s);
    CharsTogether([mark] + s, [mark]);
    var none: seq<string> := [];
    assert none + none == none;
  }

  /** A name may leave its backticks (a doubled one is how a backtick is written), but not for good. */
  predicate IsName(s: string) {
    After(s, Name) == Name && Holes(s, Name) == 0
  }

  /** In particular every name without a backtick, whatever else is in it. */
  lemma PlainIsName(s: string)
    requires '`' !in s
    ensures IsName(s)
  {
    InertStays(s, Name);
  }

  lemma NameFills(name: string)
    requires IsName(name)
    ensures Fills("`" + name + "`", [], Chars("`" + name + "`"))
  {
    hide Fills, After, Holes;
    Enclosed('`', name, Name);
  }

  lemma GlueWords(a: string, va: seq<string>, ta: seq<Token>, s: string)
    requires Fills(a, va, ta) && Inert(s, Plain)
    ensures Fills(a + s, va, ta + Chars(s))
  {
    hide Fills, Inert;
    WordsFill(s);
    Glue(a, va, ta, s, [], Chars(s));
    assert va + [] == va;
  }

  // ---- joins ----

  function JoinTokens(ts: seq<seq<Token>>, sep: seq<Token>): seq<Token> {
    if ts == [] then [] else if |ts| == 1 then ts[0]
    else JoinTokens(ts[..|ts| - 1], sep) + sep + ts[|ts| - 1]
  }

  lemma NothingFills()
    ensures Fills("", [], [])
  {
  }

  lemma {:induction false} JoinFills(ps: seq<string>, vs: seq<seq<string>>, ts: seq<seq<Token>>, sep: string)
    requires |ps| == |vs| == |ts| && Inert(sep, Plain)
    requires forall k :: 0 <= k < |ps| ==> Fills(ps[k], vs[k], ts[k])
    ensures Fills(Join(ps, sep), Flatten(vs), JoinTokens(ts, Chars(sep)))
  {
    hide Fills, Inert, Chars;
    if |ps| == 0 {
      NothingFills();
    } else if |ps| == 1 {
      assert Flatten(vs) == Flatten(vs[..0]) + vs[0] == vs[0];
      assert ps[0] == Join(ps, sep) && ts[0] == JoinTokens(ts, Chars(sep));
    } else {
      var n := |ps| - 1;
      JoinFills(ps[..n], vs[..n], ts[..n], sep);
      assert ps == ps[..n] + [ps[n]];
      JoinLast(ps[..n], ps[n], sep);
      var front, vf, tf := Join(ps[..n], sep), Flatten(vs[..n]), JoinTokens(ts[..n], Chars(sep));
      GlueWords(front, vf, tf, sep);
      Glue(front + sep, vf, tf + Chars(sep), ps[n], vs[n], ts[n]);
    }
  }

  // ---- assignments ----

  function AssignTokens(e: Entry<string>): seq<Token> {
    Chars("`" + e.key + "`=") + [Value(e.value)]
  }

  function SetTokens(param: seq<Entry<string>>): seq<Token> {
    JoinTokens(seq(|param|, k requires 0 <= k < |param| => AssignTokens(param[k])), Chars(","))
  }

  lemma AssignFills(e: Entry<string>)
    requires IsName(e.key)
    ensures Fills(Assignment(e.key), [e.value], AssignTokens(e))
  {
    hide Fills, IsName, Chars;
    var column := "`" + e.key + "`";
    NameFills(e.key);
    GlueWords(column, [], Chars(column), "=");
    CharsTogether(column, "=");
    assert column + "=" == "`" + e.key + "`=";
    HoleFills(e.value);
    Glue(column + "=", [], Chars(column + "="), "?", [e.value], [Value(e.value)]);
    assert column + "=" + "?" == Assignment(e.key);
    assert [] + [e.value] == [e.value];
  }

  lemma ClosingText(m: Mode)
    ensures After("`=?", m) == Plain <==> m == Name
    ensures m == Name ==> Holes("`=?", m) == 1
  {
    assert "`=?"[1..] == "=?" && "=?"[1..] == "?" && "?"[1..] == "";
    assert After("`=?", m) == After("=?", Next(m, '`'));
    assert After("=?", Next(m, '`')) == After("?", Next(Next(m, '`'), '='));
  }

  lemma AssignmentIs(column: string)
    ensures Assignment(column) == "`" + (column + "`=?")
  {
  }

  /** An assignment is read as one exactly when its column is a name in that sense. */
  lemma AssignFillsIff(e: Entry<string>)
    ensures Fills(Assignment(e.key), [e.value], AssignTokens(e)) <==> IsName(e.key)
  {
    hide After, Holes, Filled, AssignTokens;
    if IsName(e.key) {
      AssignFills(e);
    } else {
      AssignmentIs(e.key);
      CountsTogether("`", e.key + "`=?", Plain);
      OneChar('`', Plain);
      CountsTogether(e.key, "`=?", Name);
      ClosingText(After(e.key, Name));
    }
  }

  lemma {:induction false} FlatSingles(vs: seq<string>)
    ensures Flatten(seq(|vs|, k requires 0 <= k < |vs| => [vs[k]])) == vs
  {
    if vs == [] {
    } else {
      var n := |vs| - 1;
      FlatSingles(vs[..n]);
      var all := seq(|vs|, k requires 0 <= k < |vs| => [vs[k]]);
      assert all[..n] == seq(n, k requires 0 <= k < n => [vs[..n][k]]);
    }
  }

  lemma CommaIsInert()
    ensures Inert(",", Plain)
  {
  }

  lemma SetFills(param: seq<Entry<string>>)
    requires forall e <- param :: IsName(e.key)
    ensures Fills(SetText(param), Values(param), SetTokens(param))
  {
    hide Fills, IsName, Chars, Join, JoinTokens, Flatten, AssignTokens, Assignment;
    var vs := seq(|param|, k requires 0 <= k < |param| => [param[k].value]);
    var ts := seq(|param|, k requires 0 <= k < |param| => AssignTokens(param[k]));
    forall k | 0 <= k < |param|
      ensures Fills(Assignments(param)[k], vs[k], ts[k])
    {
      AssignFills(param[k]);
    }
    CommaIsInert();
    JoinFills(Assignments(param), vs, ts, ",");
    FlatSingles(Values(param));
    assert vs == seq(|param|, k requires 0 <= k < |param| => [Values(param)[k]]);
  }

  // ---- conditions ----

  function ValueTokens(values: seq<string>): seq<Token> {
    JoinTokens(seq(|values|, k requires 0 <= k < |values| => [Value(values[k])]), Chars(","))
  }

  /** What a condition says. Between quotes nothing is filled in, so a pattern says '?' and not its value. */
  function CondTokens(c: Condition): seq<Token> {
    match c
    case Member(column, values) => Chars("`" + column + "` IN (") + ValueTokens(values) + Chars(")")
    case Like(_, _, _) => Chars(CondText(c))
    case InSet(column, value) => Chars(" FIND_IN_SET(") + [Value(value)] + Chars(",`" + column + "`)")
    case Compare(column, op, value) => Chars("`" + column + "`" + op) + [Value(value)]
  }

  /** The parameters that find a placeholder. */
  function Bound(c: Condition): seq<string> {
    if c.Like? then [] else Params(c)
  }

  predicate WellNamed(c: Condition) {
    IsName(c.column) && (c.Compare? ==> Inert(c.op, Plain))
  }

  lemma MarksFill(values: seq<string>)
    ensures Fills(Join(Marks(|values|), ","), values, ValueTokens(values))
  {
    hide Fills, Join, JoinTokens, Flatten, Chars;
    var vs := seq(|values|, k requires 0 <= k < |values| => [values[k]]);
    var ts := seq(|values|, k requires 0 <= k < |values| => [Value(values[k])]);
    forall k | 0 <= k < |values|
      ensures Fills(Marks(|values|)[k], vs[k], ts[k])
    {
      HoleFills(values[k]);
    }
    CommaIsInert();
    JoinFills(Marks(|values|), vs, ts, ",");
    FlatSingles(values);
  }

  lemma MemberFills(column: string, values: seq<string>)
    requires IsName(column)
    ensures Fills(CondText(Member(column, values)), values, CondTokens(Member(column, values)))
  {
    hide Fills, IsName, Chars, Join, ValueTokens;
    var name, marks := "`" + column + "`", Join(Marks(|values|), ",");
    NameFills(column);
    GlueWords(name, [], Chars(name), " IN (");
    CharsTogether(name, " IN (");
    var open := "`" + column + "` IN (";
    assert name + " IN (" == open;
    MarksFill(values);
    Glue(open, [], Chars(open), marks, values, ValueTokens(values));
    assert [] + values == values;
    GlueWords(open + marks, values, Chars(open) + ValueTokens(values), ")");
  }

  lemma InSetFills(column: string, value: string)
    requires IsName(column)
    ensures Fills(CondText(InSet(column, value)), [value], CondTokens(InSet(column, value)))
  {
    hide Fills, IsName, Chars;
    var open, name := " FIND_IN_SET(", "`" + column + "`";
    WordsFill(open);
    HoleFills(value);
    var none: seq<string> := [];
    assert none + none == none && none + [value] == [value];
    Glue(open, [], Chars(open), "?", [value], [Value(value)]);
    WordsFill(",");
    NameFills(column);
    Glue(",", [], Chars(","), name, [], Chars(name));
    CharsTogether(",", name);
    var close := ",`" + column + "`";
    assert "," + name == close;
    GlueWords(close, [], Chars(close), ")");
    CharsTogether(close, ")");
    assert close + ")" == ",`" + column + "`)";
    Glue(open + "?", [value], Chars(open) + [Value(value)], close + ")", [], Chars(close + ")"));
    assert open + "?" + (close + ")") == CondText(InSet(column, value));
    assert [value] + none == [value];
  }

  lemma CompareFills(column: string, op: string, value: string)
    requires IsName(column) && Inert(op, Plain)
    ensures Fills(CondText(Compare(column, op, value)), [value], CondTokens(Compare(column, op, value)))
  {
    hide Fills, IsName, Chars, Inert;
    var name := "`" + column + "`";
    NameFills(column);
    GlueWords(name, [], Chars(name), op);
    CharsTogether(name, op);
    HoleFills(value);
    Glue(name + op, [], Chars(name + op), "?", [value], [Value(value)]);
    assert [] + [value] == [value];
  }

  function PatternText(pattern: Pattern): string {
    match pattern
    case Prefix => "?%"
    case Anywhere => "%?%"
    case Suffix => "%?"
  }

  lemma LikeTextIs(column: string, pattern: Pattern, value: string)
    ensures CondText(Like(column, pattern, value))
         == "`" + column + "`" + " LIKE " + (['\''] + PatternText(pattern) + ['\''])
  {
    match pattern
    case Prefix => assert "` LIKE '?%'" == "`" + " LIKE " + (['\''] + "?%" + ['\'']);
    case Anywhere => assert "` LIKE '%?%'" == "`" + " LIKE " + (['\''] + "%?%" + ['\'']);
    case Suffix => assert "` LIKE '%?'" == "`" + " LIKE " + (['\''] + "%?" + ['\'']);
  }

  /** The '?' of a pattern is inside the quotes. */
  lemma LikeFills(column: string, pattern: Pattern, value: string)
    requires IsName(column)
    ensures var c := Like(column, pattern, value); Fills(CondText(c), [], CondTokens(c))
  {
    hide Fills, IsName, Chars, CondText;
    var name := "`" + column + "`";
    NameFills(column);
    GlueWords(name, [], Chars(name), " LIKE ");
    CharsTogether(name, " LIKE ");
    InertStays(PatternText(pattern), Quoted);
    Enclosed('\'', PatternText(pattern), Quoted);
    var quoted := ['\''] + PatternText(pattern) + ['\''];
    var none: seq<string> := [];
    assert none + none == none;
    Glue(name + " LIKE ", [], Chars(name + " LIKE "), quoted, [], Chars(quoted));
    CharsTogether(name + " LIKE ", quoted);
    LikeTextIs(column, pattern, value);
  }

  lemma CondFills(c: Condition)
    requires WellNamed(c)
    ensures Fills(CondText(c), Bound(c), CondTokens(c))
  {
    hide Fills, CondText, CondTokens, IsName, Inert;
    match c
    case Member(column, values) => MemberFills(column, values);
    case Like(column, pattern, value) => LikeFills(column, pattern, value);
    case InSet(column, value) => InSetFills(column, value);
    case Compare(column, op, value) => CompareFills(column, op, value);
  }

  function WhereTokens(cs: seq<Condition>): seq<Token> {
    JoinTokens(seq(|cs|, k requires 0 <= k < |cs| => CondTokens(cs[k])), Chars(AND))
  }

  function AllBound(cs: seq<Condition>): seq<string> {
    Flatten(seq(|cs|, k requires 0 <= k < |cs| => Bound(cs[k])))
  }

  predicate NoPattern(cs: seq<Condition>) {
    forall c <- cs :: !c.Like?
  }

  lemma AndIsInert()
    ensures Inert(AND, Plain)
  {
  }

  lemma WhereFills(cs: seq<Condition>)
    requires forall c <- cs :: WellNamed(c)
    ensures Fills(WhereText(cs), AllBound(cs), WhereTokens(cs))
  {
    hide Fills, CondText, CondTokens, WellNamed, Bound, Join, JoinTokens, Flatten, Chars;
    var vs := seq(|cs|, k requires 0 <= k < |cs| => Bound(cs[k]));
    var ts := seq(|cs|, k requires 0 <= k < |cs| => CondTokens(cs[k]));
    forall k | 0 <= k < |cs|
      ensures Fills(CondTexts(cs)[k], vs[k], ts[k])
    {
      CondFills(cs[k]);
    }
    AndIsInert();
    JoinFills(CondTexts(cs), vs, ts, AND);
  }

  lemma AllBoundNext(cs: seq<Condition>, c: Condition)
    ensures AllBound(cs + [c]) == AllBound(cs) + Bound(c)
  {
    hide Flatten, Bound;
    var vs := seq(|cs|, k requires 0 <= k < |cs| => Bound(cs[k]));
    FlattenNext(vs, Bound(c));
    assert vs + [Bound(c)] == seq(|cs + [c]|, k requires 0 <= k < |cs + [c]| => Bound((cs + [c])[k]));
  }

  lemma AllParamsNext(cs: seq<Condition>, c: Condition)
    ensures AllParams(cs + [c]) == AllParams(cs) + Params(c)
  {
    hide Params;
    assert (cs + [c])[..|cs|] == cs;
  }

  lemma BoundOne(c: Condition)
    ensures if c.Like? then |Bound(c)| < |Params(c)| else Bound(c) == Params(c)
  {
  }

  lemma NoneBound()
    ensures AllBound([]) == [] && AllParams([]) == []
  {
  }

  /** Every parameter finds a placeholder exactly when no condition is a pattern. */
  lemma {:induction false} BoundIff(cs: seq<Condition>)
    ensures |AllBound(cs)| <= |AllParams(cs)|
    ensures |AllBound(cs)| == |AllParams(cs)| <==> NoPattern(cs)
    ensures NoPattern(cs) ==> AllBound(cs) == AllParams(cs)
  {
    hide AllBound, AllParams, Bound, Params;
    if cs == [] {
      NoneBound();
    } else {
      var front, last := cs[..|cs| - 1], cs[|cs| - 1];
      assert cs == front + [last];
      BoundIff(front);
      AllBoundNext(front, last);
      AllParamsNext(front, last);
      BoundOne(last);
    }
  }

  lemma SymbolIsInert(name: string)
    ensures Inert(SqlSymbol(name), Plain)
  {
  }

  lemma ConditionIsNamed(key: string, values: seq<string>)
    requires IsName(ColumnOf(key)) && values != []
    ensures WellNamed(ConditionOf(key, values))
  {
    hide Find, SqlSymbol, Inert, IsName, ColumnOf, OperatorName;
    SymbolIsInert(OperatorName(key));
  }

  lemma {:induction false} ConditionsAreNamed(param: seq<Entry<seq<string>>>)
    requires forall e <- param :: IsName(ColumnOf(e.key))
    ensures forall c <- Conditions(param) :: WellNamed(c)
  {
    hide WellNamed, ConditionOf, IsName, ColumnOf;
    if param == [] {
    } else {
      var front, last := param[..|param| - 1], param[|param| - 1];
      ConditionsAreNamed(front);
      if last.value != [] {
        ConditionIsNamed(last.key, last.value);
      }
    }
  }

  // ---- statements ----

  function WhereClauseTokens(cs: seq<Condition>): seq<Token> {
    if cs == [] then [] else Chars(" WHERE ") + WhereTokens(cs)
  }

  lemma WhereIsEmptyIff(cs: seq<Condition>)
    ensures WhereText(cs) == "" <==> cs == []
  {
    hide Join, CondText;
    if cs == [] {
      NoConditions();
    } else {
      CondEndsKept(cs[0]);
      JoinStarts(CondTexts(cs), AND);
    }
  }

  lemma ClauseFills(cs: seq<Condition>)
    requires forall c <- cs :: WellNamed(c)
    ensures Fills(WhereClause(cs), AllBound(cs), WhereClauseTokens(cs))
  {
    hide Fills, WhereText, WhereTokens, WellNamed, Chars;
    WhereIsEmptyIff(cs);
    WhereFills(cs);
    if cs == [] {
      NothingFills();
      assert AllBound(cs) == [];
    } else {
      WordsFill(" WHERE ");
      Glue(" WHERE ", [], Chars(" WHERE "), WhereText(cs), AllBound(cs), WhereTokens(cs));
      assert [] + AllBound(cs) == AllBound(cs);
    }
  }

  lemma SetIsInert()
    ensures Inert(" SET ", Plain) && Inert("UPDATE ", Plain) && Inert("INSERT INTO ", Plain)
    ensures Inert(" ON DUPLICATE KEY UPDATE ", Plain)
  {
  }

  /** A verb, the table in backticks, and " SET ". */
  lemma HeadFills(verb: string, table: string)
    requires Inert(verb, Plain) && IsName(table)
    ensures Fills(verb + "`" + table + "` SET ", [], Chars(verb + "`" + table + "` SET "))
  {
    hide Fills, Inert, IsName, Chars;
    var name := "`" + table + "`";
    WordsFill(verb);
    NameFills(table);
    Glue(verb, [], Chars(verb), name, [], Chars(name));
    CharsTogether(verb, name);
    SetIsInert();
    GlueWords(verb + name, [] + [], Chars(verb + name), " SET ");
    CharsTogether(verb + name, " SET ");
    assert verb + name + " SET " == verb + "`" + table + "` SET ";
    var none: seq<string> := [];
    assert none + none == none;
  }

  /**
   An update has as many placeholders as parameters exactly when no condition is a pattern, and then assigns to
   each column its own value and compares each column with its own value.
   */
  lemma UpdateMeans(table: string, updateData: seq<Entry<string>>, where: seq<Entry<seq<string>>>)
    requires IsName(table)
    requires forall e <- updateData :: IsName(e.key)
    requires forall e <- where :: IsName(ColumnOf(e.key))
    ensures
      var cs := Conditions(where);
      var sql := "UPDATE `" + table + "` SET " + SetText(updateData) + WhereClause(cs);
      var data := Values(updateData) + AllParams(cs);
      && (Holes(sql, Plain) == |data| <==> NoPattern(cs))
      && (NoPattern(cs) ==>
            Fills(sql, data, Chars("UPDATE `" + table + "` SET ") + SetTokens(updateData) + WhereClauseTokens(cs)))
  {
    hide Conditions, IsName, SetText, SetTokens, Values, WhereClause, WhereClauseTokens, AllBound, AllParams,
      NoPattern, Holes, After, Filled, Chars;
    var cs := Conditions(where);
    var head := "UPDATE `" + table + "` SET ";
    SetIsInert();
    HeadFills("UPDATE ", table);
    assert "UPDATE " + "`" + table + "` SET " == head;
    SetFills(updateData);
    Glue(head, [], Chars(head), SetText(updateData), Values(updateData), SetTokens(updateData));
    ConditionsAreNamed(where);
    ClauseFills(cs);
    assert [] + Values(updateData) == Values(updateData);
    Glue(head + SetText(updateData), Values(updateData), Chars(head) + SetTokens(updateData),
         WhereClause(cs), AllBound(cs), WhereClauseTokens(cs));
    BoundIff(cs);
  }

  lemma LikeKey()
    ensures ColumnOf("name:like") == "name" && OperatorName("name:like") == "like"
  {
    hide Find;
    var key := "name:like";
    assert key[4] == ':' && ':' !in key[..4];
    FindCharAt(key, ':', 4);
  }

  /** One pattern condition, and its value has no placeholder. */
  lemma PatternHasNoHole(updateData: seq<Entry<string>>, value: string)
    requires forall e <- updateData :: IsName(e.key)
    ensures
      var cs := Conditions([Entry("name:like", [value])]);
      Holes("UPDATE `" + "t" + "` SET " + SetText(updateData) + WhereClause(cs), Plain)
      != |Values(updateData) + AllParams(cs)|
  {
    hide Find, Holes, After, SetText, WhereClause, AllParams, Values, WhereText;
    var where := [Entry("name:like", [value])];
    LikeKey();
    assert Conditions(where) == Conditions(where[..0]) + [ConditionOf("name:like", [value])];
    assert Conditions(where)[0].Like?;
    PlainIsName("t");
    PlainIsName("name");
    UpdateMeans("t", updateData, where);
  }

  /**
   An insert-or-update always has as many placeholders as parameters, and gives each column its own value in both
   halves.
   */
  lemma InsertUpdateMeans(table: string, insertData: seq<Entry<string>>, updateData: seq<Entry<string>>)
    requires IsName(table)
    requires forall e <- insertData :: IsName(e.key)
    requires forall e <- updateData :: IsName(e.key)
    ensures Fills("INSERT INTO `" + table + "` SET " + SetText(insertData)
                  + " ON DUPLICATE KEY UPDATE " + SetText(updateData),
                  Values(insertData) + Values(updateData),
                  Chars("INSERT INTO `" + table + "` SET ") + SetTokens(insertData)
                  + Chars(" ON DUPLICATE KEY UPDATE ") + SetTokens(updateData))
  {
    hide Fills, IsName, SetText, SetTokens, Values, Chars, Inert;
    var head, middle := "INSERT INTO `" + table + "` SET ", " ON DUPLICATE KEY UPDATE ";
    SetIsInert();
    HeadFills("INSERT INTO ", table);
    assert "INSERT INTO " + "`" + table + "` SET " == head;
    SetFills(insertData);
    SetFills(updateData);
    Glue(head, [], Chars(head), SetText(insertData), Values(insertData), SetTokens(insertData));
    assert [] + Values(insertData) == Values(insertData);
    var front, tokens := head + SetText(insertData), Chars(head) + SetTokens(insertData);
    GlueWords(front, Values(insertData), tokens, middle);
    Glue(front + middle, Values(insertData), tokens + Chars(middle),
         SetText(updateData), Values(updateData), SetTokens(updateData));
  }
}
