/**
 The session cookie: four fields printed between braces, and a reader that searches for a field's name and
 cuts the copied text at the next separator.
 */
module Cookie {
  import opened Basics
  import opened Text

  const COOKIE_KEY_NAME := "jpassport-sp"

  datatype Saml = Saml(username: string, notBefore: string, notAfter: string, sign: string)

  function Rest(name: string, value: string, end: char, more: string): string {
    name + [':'] + (value + [end] + more)
  }

  /** The printed cookie and what follows it in the header. */
  function Printed(se: Saml, more: string): string {
    "{" + Rest("username", se.username, ',',
               Rest("timebefore", se.notBefore, ',',
                    Rest("notonorafter", se.notAfter, ',',
                         Rest("sign", se.sign, '}', more))))
  }

  lemma Fold(front: string, mark: string, name: string, value: string, end: char, more: string)
    requires mark == [','] + name + [':']
    ensures front + mark + value + ([end] + more) == front + ([','] + Rest(name, value, end, more))
  {
  }

  lemma FoldFirst(value: string, more: string)
    ensures "{username:" + value + ([','] + more) == "{" + Rest("username", value, ',', more)
  {
    assert "{username:" == "{" + "username" + [':'];
  }

  lemma PrintedIs(se: Saml)
    ensures "{username:" + se.username + ",timebefore:" + se.notBefore
            + ",notonorafter:" + se.notAfter + ",sign:" + se.sign + "}" == Printed(se, "")
  {
    hide Rest;
    var sign := Rest("sign", se.sign, '}', "");
    var after := Rest("notonorafter", se.notAfter, ',', sign);
    var before := Rest("timebefore", se.notBefore, ',', after);
    var x1 := "{username:" + se.username;
    var x2 := x1 + ",timebefore:" + se.notBefore;
    var x3 := x2 + ",notonorafter:" + se.notAfter;
    assert ['}'] + "" == "}";
    Fold(x3, ",sign:", "sign", se.sign, '}', "");
    Fold(x2, ",notonorafter:", "notonorafter", se.notAfter, ',', sign);
    Fold(x1, ",timebefore:", "timebefore", se.notBefore, ',', after);
    FoldFirst(se.username, before);
  }

  method GetJsonCookieStr(se: Saml) returns (jsonCookie: string)
    ensures jsonCookie == Printed(se, "")
  {
    jsonCookie := "{username:" + se.username + ",timebefore:" + se.notBefore
                  + ",notonorafter:" + se.notAfter + ",sign:" + se.sign + "}";
    PrintedIs(se);
  }

  // ---- the reader ----

  /** The text up to the first separator, which the reader overwrites with a NUL. */
  function CutAt(s: string, end: char): string {
    var p := Find(s, [end]);
    if p == -1 then s else s[..p]
  }

  function Separator(name: string): char {
    if name == "sign" then '}' else ','
  }

  /** The value behind the first occurrence of the name and one more character. */
  function Field(text: string, name: string): Option<string> {
    var p := Find(text, name);
    if p == -1 || p + |name| >= |text| then None
    else Some(CutAt(text[p + |name| + 1..], Separator(name)))
  }

  function CookieField(header: string, name: string): Option<string> {
    var p := Find(header, COOKIE_KEY_NAME);
    if p == -1 then None else Field(header[p..], name)
  }

  /** The name is not the end of the header; the reader would step over the terminating NUL. */
  predicate NotLast(header: string, name: string) {
    var p := Find(header, COOKIE_KEY_NAME);
    p != -1 && Find(header[p..], name) != -1 ==> Find(header[p..], name) + |name| < |header[p..]|
  }

  method GetCookie(headerIn: Option<string>, cookieName: string) returns (status: int, cookieBuf: string)
    requires headerIn != None ==> NotLast(headerIn.value, cookieName)
    ensures status == 0 <==> headerIn != None && CookieField(headerIn.value, cookieName) != None
    ensures status == 0 ==> CookieField(headerIn.value, cookieName) == Some(cookieBuf)
    ensures status == 0 || status == -1
  {
    hide Find;
    cookieBuf := "";
    if headerIn == None {
      return -1, cookieBuf;
    }
    var value := headerIn.value;
    var at := Find(value, COOKIE_KEY_NAME);
    if at == -1 {
      return -1, cookieBuf;
    }
    value := value[at..];
    at := Find(value, cookieName);
    if at == -1 {
      return -1, cookieBuf;
    }
    value := value[at + |cookieName| + 1..];
    cookieBuf := value;
    var cookieEnd: int;
    if cookieName != "sign" {
      cookieEnd := Find(cookieBuf, ",");
    } else {
      cookieEnd := Find(cookieBuf, "}");
    }
    if cookieEnd != -1 {
      cookieBuf := cookieBuf[..cookieEnd];
    }
    status := 0;
  }

  // ---- searching across a separator ----

  lemma ShortHasNone(s: string, name: string)
    requires |s| < |name|
    ensures Find(s, name) == -1
  {
  }

  /** A name never runs across a character it does not have. */
  lemma {:induction false} FindAcross(a: string, c: char, b: string, name: string)
    requires name != "" && c !in name
    ensures Find(a + [c] + b, name)
         == if Find(a, name) != -1 then Find(a, name)
            else if Find(b, name) != -1 then |a| + 1 + Find(b, name) else -1
    decreases |a|
  {
    var s := a + [c] + b;
    if |a| < |name| <= |s| {
      PrefixHas(s, |name|);
      assert s[|a|] == c && c in s[..|name|];
    }
    if |name| <= |s| && s[..|name|] == name {
      assert a[..|name|] == s[..|name|];
    } else if a == "" {
      assert s[1..] == b;
      assert Find(a, name) == -1;
    } else {
      assert s[1..] == a[1..] + [c] + b;
      FindAcross(a[1..], c, b, name);
      if |name| <= |a| {
        assert a[..|name|] == s[..|name|];
      } else {
        ShortHasNone(a[1..], name);
      }
    }
  }

  lemma FindHas(s: string, name: string, k: nat)
    requires Find(s, name) != -1 && k < |name|
    ensures name[k] in s
  {
    hide Find;
    var p := Find(s, name);
    assert s[p..p + |name|][k] == s[p + k];
  }

  /** A text without one of the name's characters does not have the name. */
  lemma Lacks(s: string, name: string, k: nat)
    requires k < |name| && name[k] !in s
    ensures Find(s, name) == -1
  {
    hide Find;
    if Find(s, name) != -1 {
      FindHas(s, name, k);
    }
  }

  lemma FindHere(name: string, more: string)
    ensures Find(name + more, name) == 0
  {
    assert (name + more)[..|name|] == name;
  }

  predicate IsFieldName(name: string) {
    name != "" && ':' !in name && ',' !in name && '{' !in name && '}' !in name && '=' !in name
  }

  /** A search goes past another field exactly when that field's value does not have the name. */
  lemma PastFieldIff(other: string, value: string, more: string, name: string)
    requires IsFieldName(name) && Find(other, name) == -1
    ensures
      var past := |other| + 1 + |value| + 1;
      Find(value, name) == -1 ==>
        Find(Rest(other, value, ',', more), name) == if Find(more, name) == -1 then -1 else past + Find(more, name)
    ensures Find(value, name) != -1 ==>
        Find(Rest(other, value, ',', more), name) < |other| + 1 + |value|
  {
    hide Find;
    FindAcross(value, ',', more, name);
    FindAcross(other, ':', value + [','] + more, name);
  }

  lemma FieldPast(other: string, value: string, more: string, name: string)
    requires IsFieldName(name) && Find(other, name) == -1 && Find(value, name) == -1
    ensures Field(Rest(other, value, ',', more), name) == Field(more, name)
  {
    hide Find, CutAt;
    PastFieldIff(other, value, more, name);
    var p := Find(more, name);
    if p != -1 && p + |name| < |more| {
      var text := Rest(other, value, ',', more);
      var past := |other| + 1 + |value| + 1;
      assert text[past..] == more;
      assert text[past + p + |name| + 1..] == more[p + |name| + 1..];
    }
  }

  /** Cutting at the first separator gives the value exactly when that is not in it. */
  lemma CutIff(value: string, end: char, more: string)
    ensures CutAt(value + [end] + more, end) == value <==> end !in value
  {
    hide Find;
    var tail := value + [end] + more;
    FindChar(tail, end);
    assert tail[|value|] == end && tail[..|value|] == value;
    if end !in value {
      FindCharAt(tail, end, |value|);
    }
  }

  lemma FieldHere(name: string, value: string, more: string)
    ensures var end := Separator(name);
            Field(Rest(name, value, end, more), name) == Some(CutAt(value + [end] + more, end))
  {
    hide Find, CutAt, Separator;
    var end := Separator(name);
    var tail := value + [end] + more;
    FindHere(name, [':'] + tail);
    assert Rest(name, value, end, more) == name + ([':'] + tail);
    assert (name + ([':'] + tail))[|name| + 1..] == tail;
  }

  /** The value comes back exactly when its separator is not in it. */
  lemma FieldHereIff(name: string, value: string, more: string)
    ensures Field(Rest(name, value, Separator(name), more), name) == Some(value) <==> Separator(name) !in value
  {
    hide Field, CutAt, Rest, Separator;
    FieldHere(name, value, more);
    CutIff(value, Separator(name), more);
  }

  // ---- the round trip ----

  /** The header as it comes back: the cookie after others that do not have its name, and any text behind. */
  function Header(others: string, se: Saml, more: string): string {
    others + (COOKIE_KEY_NAME + "=" + Printed(se, more))
  }

  lemma KeyAndBrace(text: string, name: string, k: nat)
    requires IsFieldName(name) && k < |name| && name[k] !in COOKIE_KEY_NAME
    ensures Field(COOKIE_KEY_NAME + "=" + ("{" + text), name) == Field(text, name)
  {
    hide Find, CutAt;
    var key := COOKIE_KEY_NAME + "=";
    Lacks(key, name, k);
    FindAcross(key, '{', text, name);
    var all := key + ['{'] + text;
    assert all == key + ("{" + text);
    var p := Find(text, name);
    if p != -1 && p + |name| < |text| {
      assert all[|key| + 1..] == text;
      assert all[|key| + 1 + p + |name| + 1..] == text[p + |name| + 1..];
    }
  }

  /** The fields of the header are those of the text behind the brace. */
  lemma HeaderField(others: string, se: Saml, more: string, name: string, k: nat)
    requires Find(Header(others, se, more), COOKIE_KEY_NAME) == |others|
    requires IsFieldName(name) && k < |name| && name[k] !in COOKIE_KEY_NAME
    ensures CookieField(Header(others, se, more), name) == Field(Printed(se, more)[1..], name)
  {
    hide Find, Field;
    assert Header(others, se, more)[|others|..] == COOKIE_KEY_NAME + "=" + Printed(se, more);
    assert Printed(se, more) == "{" + Printed(se, more)[1..];
    KeyAndBrace(Printed(se, more)[1..], name, k);
  }

  /** The user name comes back exactly when it has no comma. */
  lemma UsernameIff(others: string, se: Saml, more: string)
    requires Find(Header(others, se, more), COOKIE_KEY_NAME) == |others|
    ensures CookieField(Header(others, se, more), "username") == Some(se.username) <==> ',' !in se.username
  {
    hide Find, Field, CookieField, Header, Rest;
    HeaderField(others, se, more, "username", 0);
    var tail := Rest("timebefore", se.notBefore, ',',
                     Rest("notonorafter", se.notAfter, ',', Rest("sign", se.sign, '}', more)));
    assert Printed(se, more)[1..] == Rest("username", se.username, ',', tail);
    FieldHereIff("username", se.username, tail);
  }

  lemma NotBeforeIff(others: string, se: Saml, more: string)
    requires Find(Header(others, se, more), COOKIE_KEY_NAME) == |others|
    requires Find(se.username, "timebefore") == -1
    ensures CookieField(Header(others, se, more), "timebefore") == Some(se.notBefore) <==> ',' !in se.notBefore
  {
    hide Find, Field, CookieField, Header, Rest;
    HeaderField(others, se, more, "timebefore", 2);
    var tail := Rest("notonorafter", se.notAfter, ',', Rest("sign", se.sign, '}', more));
    var field := Rest("timebefore", se.notBefore, ',', tail);
    assert Printed(se, more)[1..] == Rest("username", se.username, ',', field);
    Lacks("username", "timebefore", 1);
    FieldPast("username", se.username, field, "timebefore");
    FieldHereIff("timebefore", se.notBefore, tail);
  }

  lemma NotAfterIff(others: string, se: Saml, more: string)
    requires Find(Header(others, se, more), COOKIE_KEY_NAME) == |others|
    requires Find(se.username, "notonorafter") == -1 && Find(se.notBefore, "notonorafter") == -1
    ensures CookieField(Header(others, se, more), "notonorafter") == Some(se.notAfter) <==> ',' !in se.notAfter
  {
    hide Find, Field, CookieField, Header, Rest;
    HeaderField(others, se, more, "notonorafter", 0);
    var tail := Rest("sign", se.sign, '}', more);
    var field := Rest("notonorafter", se.notAfter, ',', tail);
    var before := Rest("timebefore", se.notBefore, ',', field);
    assert Printed(se, more)[1..] == Rest("username", se.username, ',', before);
    Lacks("username", "notonorafter", 1);
    FieldPast("username", se.username, before, "notonorafter");
    Lacks("timebefore", "notonorafter", 0);
    FieldPast("timebefore", se.notBefore, field, "notonorafter");
    FieldHereIff("notonorafter", se.notAfter, tail);
  }

  lemma SignIff(others: string, se: Saml, more: string)
    requires Find(Header(others, se, more), COOKIE_KEY_NAME) == |others|
    requires Find(se.username, "sign") == -1 && Find(se.notBefore, "sign") == -1 && Find(se.notAfter, "sign") == -1
    ensures CookieField(Header(others, se, more), "sign") == Some(se.sign) <==> '}' !in se.sign
  {
    hide Find, Field, CookieField, Header, Rest;
    HeaderField(others, se, more, "sign", 2);
    var field := Rest("sign", se.sign, '}', more);
    var after := Rest("notonorafter", se.notAfter, ',', field);
    var before := Rest("timebefore", se.notBefore, ',', after);
    assert Printed(se, more)[1..] == Rest("username", se.username, ',', before);
    Lacks("username", "sign", 2);
    FieldPast("username", se.username, before, "sign");
    Lacks("timebefore", "sign", 2);
    FieldPast("timebefore", se.notBefore, after, "sign");
    Lacks("notonorafter", "sign", 2);
    FieldPast("notonorafter", se.notAfter, field, "sign");
    FieldHereIff("sign", se.sign, more);
  }

  // ---- the fields a login really has ----

  /** Digits and the marks of an ISO timestamp. */
  predicate IsTimestamp(t: string) {
    forall c <- t :: '0' <= c <= '9' || c == '-' || c == ':' || c == '.' || c == 'T' || c == 'Z'
  }

  predicate IsBase64(s: string) {
    forall c <- s :: 'a' <= c <= 'z' || 'A' <= c <= 'Z' || '0' <= c <= '9' || c == '+' || c == '/' || c == '='
  }

  lemma TimestampHasNoName(t: string)
    requires IsTimestamp(t)
    ensures Find(t, "notonorafter") == -1 && Find(t, "sign") == -1 && ',' !in t
  {
    hide Find;
    Lacks(t, "notonorafter", 0);
    Lacks(t, "sign", 0);
  }

  /**
   For every login all four fields come back, whatever stands behind the cookie and whatever cookies stand before
   it, as long as the cookie's name is not found in those first.
   */
  lemma LoginComesBack(others: string, se: Saml, more: string)
    requires Find(Header(others, se, more), COOKIE_KEY_NAME) == |others|
    requires ',' !in se.username
    requires Find(se.username, "timebefore") == -1 && Find(se.username, "notonorafter") == -1
    requires Find(se.username, "sign") == -1
    requires IsTimestamp(se.notBefore) && IsTimestamp(se.notAfter) && IsBase64(se.sign)
    ensures CookieField(Header(others, se, more), "username") == Some(se.username)
    ensures CookieField(Header(others, se, more), "timebefore") == Some(se.notBefore)
    ensures CookieField(Header(others, se, more), "notonorafter") == Some(se.notAfter)
    ensures CookieField(Header(others, se, more), "sign") == Some(se.sign)
  {
    hide Find, Field, CookieField, Header, IsTimestamp;
    TimestampHasNoName(se.notBefore);
    TimestampHasNoName(se.notAfter);
    UsernameIff(others, se, more);
    NotBeforeIff(others, se, more);
    NotAfterIff(others, se, more);
    SignIff(others, se, more);
  }

  // ---- what the reader finds, without its search ----

  /** The first place where `d` stands in `s`. */
  ghost predicate FirstAt(s: string, d: string, i: nat) {
    OccursAt(s, d, i) && forall k: nat :: k < i ==> !OccursAt(s, d, k)
  }

  ghost predicate Occurs(s: string, d: string) {
    exists i: nat :: OccursAt(s, d, i)
  }

  lemma FindIsFirstAt(s: string, d: string)
    ensures Find(s, d) == -1 <==> !Occurs(s, d)
    ensures Find(s, d) != -1 ==> FirstAt(s, d, Find(s, d)) && Find(s, d) + |d| <= |s|
  {
    hide Find;
    forall i: nat | OccursAt(s, d, i)
      ensures 0 <= Find(s, d) <= i
    {
      FindIsFirst(s, d, i);
    }
  }

  lemma OccursInside(s: string, d: string)
    ensures forall i: nat :: OccursAt(s, d, i) ==> i + |d| <= |s|
    ensures forall i: nat, j: nat :: FirstAt(s, d, i) && FirstAt(s, d, j) ==> i == j
  {
  }

  lemma OnlyFirst(s: string, d: string, i: nat, j: nat)
    requires FirstAt(s, d, i) && FirstAt(s, d, j)
    ensures i == j
  {
  }

  /** There is no field without the key, or without the name and something behind it after the key. */
  lemma NoFieldIff(header: string, name: string)
    ensures CookieField(header, name) == None <==>
      || !Occurs(header, "jpassport-sp")
      || exists p: nat :: FirstAt(header, "jpassport-sp", p)
           && (!Occurs(header[p..], name) || FirstAt(header[p..], name, |header| - p - |name|))
  {
    hide Find, OccursAt;
    FindIsFirstAt(header, "jpassport-sp");
    var p := Find(header, "jpassport-sp");
    if p != -1 {
      FindIsFirstAt(header[p..], name);
      OccursInside(header[p..], name);
      forall q: nat | FirstAt(header, "jpassport-sp", q)
        ensures q == p
      {
        OnlyFirst(header, "jpassport-sp", p, q);
      }
      assert FirstAt(header, "jpassport-sp", p);
    }
  }

  /** A value without the separator, and behind it the separator or nothing. */
  predicate StandsIn(value: string, s: string, end: char) {
    end !in value && value <= s && (s[|value|..] == "" || s[|value|..][0] == end)
  }

  lemma CutIs(s: string, end: char)
    ensures StandsIn(CutAt(s, end), s, end)
  {
    hide Find;
    FindChar(s, end);
  }

  /** A value is what stands one character behind the name, up to its separator or the end. */
  lemma FieldIs(header: string, name: string)
    requires CookieField(header, name) != None
    ensures exists p: nat, q: nat ::
      && FirstAt(header, "jpassport-sp", p) && FirstAt(header[p..], name, q) && p + q + |name| < |header|
      && StandsIn(CookieField(header, name).value, header[p + q + |name| + 1..], if name == "sign" then '}' else ',')
  {
    hide Find, OccursAt, StandsIn;
    FindIsFirstAt(header, "jpassport-sp");
    var p := Find(header, "jpassport-sp");
    FindIsFirstAt(header[p..], name);
    var q := Find(header[p..], name);
    assert header[p..][q + |name| + 1..] == header[p + q + |name| + 1..];
    CutIs(header[p + q + |name| + 1..], if name == "sign" then '}' else ',');
    assert FirstAt(header, "jpassport-sp", p) && FirstAt(header[p..], name, q);
  }

  lemma OccursLater(s: string, d: string, from: nat, i: nat)
    requires from <= |s| && OccursAt(s[from..], d, i)
    ensures OccursAt(s, d, from + i)
  {
    assert s[from..][i..i + |d|] == s[from + i..from + i + |d|];
  }

  /** So without the cookie's key, or without the name in it, the reader answers -1. */
  method MissingCookie(header: string, name: string) returns (status: int, cookieBuf: string)
    requires !Occurs(header, "jpassport-sp") || !Occurs(header, name)
    ensures status == -1
  {
    hide OccursAt;
    NoFieldIff(header, name);
    FindIsFirstAt(header, COOKIE_KEY_NAME);
    var p := Find(header, COOKIE_KEY_NAME);
    if p != -1 {
      FindIsFirstAt(header[p..], name);
      if Occurs(header[p..], name) {
        var i: nat :| OccursAt(header[p..], name, i);
        OccursLater(header, name, p, i);
      }
    }
    status, cookieBuf := GetCookie(Some(header), name);
  }
}
