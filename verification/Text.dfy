/**
 The string helpers of `Utils`: trimming by a set of characters, splitting at a delimiter, and percent coding
 of byte strings.
 */
module Text {
  import opened Basics

  // ---- trimming ----

  predicate AllIn(s: string, chars: string) {
    forall k :: 0 <= k < |s| ==> s[k] in chars
  }

  /** Some character survives trimming; without one, the trimming loops would read before the string. */
  predicate KeepsSome(s: string, chars: string) {
    exists k :: 0 <= k < |s| && s[k] !in chars
  }

  function TrimRight(s: string, chars: string): (r: string)
    ensures r <= s
  {
    if s != "" && s[|s| - 1] in chars then TrimRight(s[..|s| - 1], chars) else s
  }

  function TrimLeft(s: string, chars: string): (r: string)
    ensures |r| <= |s|
  {
    if s != "" && s[0] in chars then TrimLeft(s[1..], chars) else s
  }

  /** A tail of trimmed characters goes, and a text that ends in a kept character stays. */
  lemma {:induction false} TrimRightOf(kept: string, tail: string, chars: string)
    requires AllIn(tail, chars)
    requires kept != "" ==> kept[|kept| - 1] !in chars
    ensures TrimRight(kept + tail, chars) == kept
    decreases |tail|
  {
    if tail == "" {
      assert kept + tail == kept;
    } else {
      var n := |tail| - 1;
      assert (kept + tail)[..|kept + tail| - 1] == kept + tail[..n];
      TrimRightOf(kept, tail[..n], chars);
    }
  }

  lemma {:induction false} TrimLeftOf(front: string, kept: string, chars: string)
    requires AllIn(front, chars)
    requires kept != "" ==> kept[0] !in chars
    ensures TrimLeft(front + kept, chars) == kept
  {
    if front == "" {
      assert front + kept == kept;
    } else {
      assert (front + kept)[1..] == front[1..] + kept;
      TrimLeftOf(front[1..], kept, chars);
    }
  }

  lemma ShorterKeepsSome(s: string, chars: string)
    requires s != "" && KeepsSome(s, chars) && s[|s| - 1] in chars
    ensures KeepsSome(s[..|s| - 1], chars)
  {
    var k :| 0 <= k < |s| && s[k] !in chars;
    assert s[..|s| - 1][k] == s[k];
  }

  method Rtrim(str: string, list: string) returns (str': string)
    requires list == "" || str == "" || KeepsSome(str, list)
    ensures str' == TrimRight(str, list)
  {
    str' := str;
    if |list| <= 0 || |str| <= 0 {
      return;
    }
    var i := |str'| - 1;
    while str'[i] in list
      invariant str' != "" && i == |str'| - 1 && KeepsSome(str', list)
      invariant TrimRight(str', list) == TrimRight(str, list)
      decreases |str'|
    {
      ShorterKeepsSome(str', list);
      str' := str'[..i];
      i := |str'| - 1;
    }
  }

  /** Both sides. An empty text is recognised, so nothing is asked of the characters. */
  method Trim(str: string, list: string) returns (str': string)
    ensures str' == TrimRight(TrimLeft(str, list), list)
  {
    str' := str;
    if |list| <= 0 || |str| <= 0 {
      return;
    }
    while str' != "" && str'[0] in list
      invariant TrimLeft(str', list) == TrimLeft(str, list)
      decreases |str'|
    {
      str' := str'[1..];
    }
    if |str'| <= 0 {
      return;
    }
    assert str'[0] !in list && KeepsSome(str', list);
    str' := Rtrim(str', list);
  }

  lemma RestKeepsSome(s: string, chars: string)
    requires s != "" && KeepsSome(s, chars) && s[0] in chars
    ensures KeepsSome(s[1..], chars)
  {
    var k :| 0 <= k < |s| && s[k] !in chars;
    assert s[1..][k - 1] == s[k];
  }

  /** The overload for one character; it has no second test for an empty text. */
  method TrimChar(str: string, ch: char) returns (str': string)
    requires str == "" || KeepsSome(str, [ch])
    ensures str' == TrimRight(TrimLeft(str, [ch]), [ch])
  {
    str' := str;
    if |str| <= 0 {
      return;
    }
    while str'[0] == ch
      invariant str' != "" && KeepsSome(str', [ch])
      invariant TrimLeft(str', [ch]) == TrimLeft(str, [ch])
      decreases |str'|
    {
      RestKeepsSome(str', [ch]);
      str' := str'[1..];
    }
    var i := |str'| - 1;
    ghost var left := str';
    while str'[i] == ch
      invariant str' != "" && i == |str'| - 1 && KeepsSome(str', [ch])
      invariant TrimRight(str', [ch]) == TrimRight(left, [ch])
      decreases |str'|
    {
      ShorterKeepsSome(str', [ch]);
      str' := str'[..i];
      i := |str'| - 1;
    }
  }

  // ---- splitting ----

  predicate OccursAt(s: string, d: string, i: nat) {
    i + |d| <= |s| && s[i..i + |d|] == d
  }

  /** `std::string::find`: the first position of `d` in `s`, or -1. */
  function Find(s: string, d: string): (p: int)
    ensures -1 <= p
    ensures p >= 0 ==> OccursAt(s, d, p)
  {
    if |d| > |s| then -1
    else if s[..|d|] == d then 0
    else
      var p := Find(s[1..], d);
      assert p >= 0 ==> s[1..][p..p + |d|] == s[p + 1..p + 1 + |d|];
      if p == -1 then -1 else p + 1
  }

  lemma {:induction false} FindIsFirst(s: string, d: string, i: nat)
    requires OccursAt(s, d, i)
    ensures 0 <= Find(s, d) <= i
  {
    if s[..|d|] == d {
    } else {
      assert s[1..][i - 1..i - 1 + |d|] == s[i..i + |d|];
      FindIsFirst(s[1..], d, i - 1);
    }
  }

  function Pieces(s: string, d: string): (ps: seq<string>)
    requires d != ""
    ensures ps != []
    decreases |s|
  {
    var p := Find(s, d);
    if p == -1 then [s] else [s[..p]] + Pieces(s[p + |d|..], d)
  }

  function Singles(s: string): seq<string> {
    seq(|s|, i requires 0 <= i < |s| => [s[i]])
  }

  /** `explode`: an empty text has no pieces at all; an empty delimiter splits into characters. */
  function Exploded(s: string, d: string): seq<string> {
    if s == "" then [] else if d == "" then Singles(s) else Pieces(s, d)
  }

  function Join(ps: seq<string>, d: string): string {
    if ps == [] then "" else if |ps| == 1 then ps[0] else ps[0] + d + Join(ps[1..], d)
  }

  lemma PiecesUnfold(s: string, d: string)
    requires d != "" && Find(s, d) != -1
    ensures Pieces(s, d) == [s[..Find(s, d)]] + Pieces(s[Find(s, d) + |d|..], d)
  {
    hide Find;
  }

  lemma PiecesStep(done: seq<string>, s: string, d: string)
    requires d != "" && Find(s, d) != -1
    ensures
      var p := Find(s, d);
      done + Pieces(s, d) == (done + [s[..p]]) + Pieces(s[p + |d|..], d)
  {
    hide Find, Pieces;
    PiecesUnfold(s, d);
    var p := Find(s, d);
    var rest := Pieces(s[p + |d|..], d);
    assert done + ([s[..p]] + rest) == (done + [s[..p]]) + rest;
  }

  lemma PiecesEnd(s: string, d: string)
    requires d != "" && Find(s, d) == -1
    ensures Pieces(s, d) == [s]
  {
  }

  method Explode(objStr: string, delim: string, ret: seq<string>) returns (ret': seq<string>)
    ensures ret' == ret + Exploded(objStr, delim)
  {
    hide Find, Pieces;
    ret' := ret;
    if |objStr| <= 0 {
      return;
    }
    var str := objStr;
    if |delim| <= 0 {
      for i := 0 to |str|
        invariant ret' == ret + Singles(str)[..i]
      {
        ret' := ret' + [[str[i]]];
      }
      return;
    }
    if Find(str, delim) == -1 {
      PiecesEnd(str, delim);
      ret' := ret' + [str];
      return;
    }
    while Find(str, delim) != -1
      invariant ret' + Pieces(str, delim) == ret + Pieces(objStr, delim)
      decreases |str|
    {
      var pos := Find(str, delim);
      var tmp := str[..pos];
      PiecesStep(ret', str, delim);
      ret' := ret' + [tmp];
      pos := |tmp| + |delim|;
      str := str[pos..];
    }
    PiecesEnd(str, delim);
    ret' := ret' + [str];
  }

  /** Putting the delimiter back between the pieces gives the text back. */
  lemma {:induction false} JoinPieces(s: string, d: string)
    requires d != ""
    ensures Join(Pieces(s, d), d) == s
    decreases |s|
  {
    hide Find, Pieces;
    var p := Find(s, d);
    if p == -1 {
      PiecesEnd(s, d);
    } else {
      var rest := s[p + |d|..];
      JoinPieces(rest, d);
      PiecesUnfold(s, d);
      assert Pieces(s, d)[1..] == Pieces(rest, d);
      assert s == s[..p] + s[p..p + |d|] + rest;
    }
  }

  lemma {:induction false} JoinSingles(s: string)
    ensures Join(Singles(s), "") == s
  {
    if s == "" {
    } else {
      assert Singles(s)[1..] == Singles(s[1..]);
      JoinSingles(s[1..]);
      assert s == [s[0]] + "" + s[1..];
    }
  }

  lemma JoinNothing(d: string)
    ensures Join([], d) == ""
  {
  }

  /** So it does whatever the text and the delimiter are. */
  lemma JoinExploded(s: string, d: string)
    ensures Join(Exploded(s, d), d) == s
  {
    hide Join, Pieces, Singles;
    if s == "" {
      JoinNothing(d);
    } else if d == "" {
      JoinSingles(s);
    } else {
      JoinPieces(s, d);
    }
  }

  /** No piece contains the delimiter. */
  lemma {:induction false} PiecesAvoid(s: string, d: string)
    requires d != ""
    ensures forall k :: 0 <= k < |Pieces(s, d)| ==> Find(Pieces(s, d)[k], d) == -1
    decreases |s|
  {
    var p := Find(s, d);
    if p == -1 {
    } else {
      PiecesAvoid(s[p + |d|..], d);
      var q := Find(s[..p], d);
      if q >= 0 {
        assert s[..p][q..q + |d|] == s[q..q + |d|];
        FindIsFirst(s, d, q);
      }
    }
  }

  lemma {:induction false} FindChar(s: string, c: char)
    ensures Find(s, [c]) == -1 <==> c !in s
    ensures Find(s, [c]) >= 0 ==> s[Find(s, [c])] == c && c !in s[..Find(s, [c])]
  {
    if s == "" {
    } else {
      FindChar(s[1..], c);
      assert s == [s[0]] + s[1..];
      if s[0] != c && Find(s, [c]) >= 0 {
        var p := Find(s[1..], [c]);
        assert s[..p + 1] == [s[0]] + s[1..][..p];
      }
    }
  }

  lemma PieceWithout(s: string, c: char)
    requires c !in s
    ensures Pieces(s, [c]) == [s]
  {
    FindChar(s, c);
  }

  lemma PrefixHas(s: string, n: nat)
    requires n <= |s|
    ensures forall k :: 0 <= k < n ==> s[k] in s[..n]
  {
    assert forall k :: 0 <= k < n ==> s[..n][k] == s[k];
  }

  /** The first occurrence of a character is where `find` stops. */
  lemma FindCharAt(s: string, c: char, i: nat)
    requires i < |s| && s[i] == c && c !in s[..i]
    ensures Find(s, [c]) == i
  {
    hide Find;
    FindChar(s, c);
    var p := Find(s, [c]);
    PrefixHas(s, i);
    PrefixHas(s, p);
  }

  lemma PiecesAt(s: string, c: char, i: nat)
    requires i < |s| && s[i] == c && c !in s[..i]
    ensures Pieces(s, [c]) == [s[..i]] + Pieces(s[i + 1..], [c])
  {
    hide Find;
    FindCharAt(s, c, i);
  }

  /** Splitting at a character splits both sides. */
  lemma {:induction false} PiecesAround(a: string, c: char, b: string)
    ensures Pieces(a + [c] + b, [c]) == Pieces(a, [c]) + Pieces(b, [c])
    decreases |a|
  {
    hide Find, Pieces;
    var s := a + [c] + b;
    if c !in a {
      assert s[..|a|] == a && s[|a| + 1..] == b;
      PiecesAt(s, c, |a|);
      PieceWithout(a, c);
    } else {
      var q := Find(a, [c]);
      FindChar(a, c);
      var rest := a[q + 1..];
      assert s[..q] == a[..q] && s[q + 1..] == rest + [c] + b;
      PiecesAt(s, c, q);
      PiecesAt(a, c, q);
      PiecesAround(rest, c, b);
    }
  }

  // ---- percent coding ----

  /** A text whose characters are single bytes. */
  predicate Bytes(s: string) {
    forall k :: 0 <= k < |s| ==> s[k] as int < 0x100
  }

  /** Letters beyond F are taken as digits too; anything else fails the assertion. */
  function FromHex(c: char): Option<nat> {
    if 'A' <= c <= 'Z' then Some(c as int - 'A' as int + 10)
    else if 'a' <= c <= 'z' then Some(c as int - 'a' as int + 10)
    else if '0' <= c <= '9' then Some(c as int - '0' as int)
    else None
  }

  function ToHex(x: nat): (c: char)
    requires x < 16
    ensures FromHex(c) == Some(x)
    ensures '0' <= c <= '9' || 'A' <= c <= 'F'
  {
    if x > 9 then (x + 55) as char else (x + 48) as char
  }

  predicate IsUnreserved(c: char) {
    'a' <= c <= 'z' || 'A' <= c <= 'Z' || '0' <= c <= '9' || c == '-' || c == '_' || c == '.' || c == '~'
  }

  function EncodedChar(c: char): (e: string)
    requires c as int < 0x100
    ensures e != ""
  {
    if IsUnreserved(c) then [c]
    else if c == ' ' then "+"
    else ['%', ToHex(c as int / 16), ToHex(c as int % 16)]
  }

  function UrlEncoded(s: string): string
    requires Bytes(s)
  {
    if s == "" then "" else EncodedChar(s[0]) + UrlEncoded(s[1..])
  }

  function Prefixed(c: char, r: Option<string>): Option<string> {
    if r == None then None else Some([c] + r.value)
  }

  /** `None` is a failed assertion: too few characters behind a '%', or one that is no digit. */
  function UrlDecoded(s: string): Option<string> {
    if s == "" then Some("")
    else if s[0] == '+' then Prefixed(' ', UrlDecoded(s[1..]))
    else if s[0] == '%' then
      if |s| < 3 || FromHex(s[1]) == None || FromHex(s[2]) == None then None
      else Prefixed(((FromHex(s[1]).value * 16 + FromHex(s[2]).value) % 0x100) as char, UrlDecoded(s[3..]))
    else Prefixed(s[0], UrlDecoded(s[1..]))
  }

  lemma EncodeStep(s: string, i: nat, done: string)
    requires Bytes(s) && i < |s|
    ensures done + UrlEncoded(s[i..]) == (done + EncodedChar(s[i])) + UrlEncoded(s[i + 1..])
  {
    hide EncodedChar;
    assert s[i..][1..] == s[i + 1..];
    var rest := UrlEncoded(s[i + 1..]);
    assert done + (EncodedChar(s[i]) + rest) == (done + EncodedChar(s[i])) + rest;
  }

  lemma EncodeEnd(rest: string, done: string)
    requires rest == ""
    ensures done + UrlEncoded(rest) == done
  {
  }

  lemma BytesAt(s: string, i: nat)
    requires Bytes(s) && i < |s|
    ensures s[i] as int < 0x100 && Bytes(s[i..]) && Bytes(s[i + 1..])
  {
  }

  method UrlEncode(str: string, strTemp: string) returns (strTemp': string)
    requires Bytes(str)
    ensures strTemp' == strTemp + UrlEncoded(str)
  {
    hide UrlEncoded, Bytes;
    strTemp' := strTemp;
    assert str[0..] == str;
    for i := 0 to |str|
      invariant Bytes(str[i..])
      invariant strTemp' + UrlEncoded(str[i..]) == strTemp + UrlEncoded(str)
    {
      BytesAt(str, i);
      EncodeStep(str, i, strTemp');
      if IsUnreserved(str[i]) {
        strTemp' := strTemp' + [str[i]];
      } else if str[i] == ' ' {
        strTemp' := strTemp' + "+";
      } else {
        strTemp' := strTemp' + ['%', ToHex(str[i] as int / 16), ToHex(str[i] as int % 16)];
      }
    }
    EncodeEnd(str[|str|..], strTemp');
  }

  function Behind(done: string, r: Option<string>): Option<string> {
    if r == None then None else Some(done + r.value)
  }

  lemma DecodeEnd(rest: string, done: string)
    requires rest == ""
    ensures Behind(done, UrlDecoded(rest)) == Some(done)
  {
    assert done + "" == done;
  }

  lemma BehindPrefixed(done: string, c: char, r: Option<string>)
    ensures Behind(done, Prefixed(c, r)) == Behind(done + [c], r)
  {
    if r != None {
      assert done + ([c] + r.value) == (done + [c]) + r.value;
    }
  }

  lemma BehindNone(done: string)
    ensures Behind(done, None) == None
  {
  }

  lemma DecodeStep(s: string, i: nat, done: string)
    requires i < |s|
    ensures
      var left := Behind(done, UrlDecoded(s[i..]));
      if s[i] == '+' then left == Behind(done + [' '], UrlDecoded(s[i + 1..]))
      else if s[i] != '%' then left == Behind(done + [s[i]], UrlDecoded(s[i + 1..]))
      else if i + 2 >= |s| || FromHex(s[i + 1]) == None || FromHex(s[i + 2]) == None then left == None
      else left == Behind(done + [((FromHex(s[i + 1]).value * 16 + FromHex(s[i + 2]).value) % 0x100) as char],
                          UrlDecoded(s[i + 3..]))
  {
    hide FromHex, Prefixed, Behind;
    assert s[i..][1..] == s[i + 1..];
    BehindPrefixed(done, ' ', UrlDecoded(s[i + 1..]));
    BehindPrefixed(done, s[i], UrlDecoded(s[i + 1..]));
    if s[i] == '%' && i + 2 < |s| && FromHex(s[i + 1]) != None && FromHex(s[i + 2]) != None {
      assert s[i..][3..] == s[i + 3..];
      var c := ((FromHex(s[i + 1]).value * 16 + FromHex(s[i + 2]).value) % 0x100) as char;
      BehindPrefixed(done, c, UrlDecoded(s[i + 3..]));
    } else if s[i] == '%' {
      BehindNone(done);
    }
  }

  method UrlDecode(str: string, strTemp: string) returns (decoded: Option<string>)
    ensures decoded == Behind(strTemp, UrlDecoded(str))
  {
    hide FromHex, UrlDecoded, Prefixed;
    var out, i := strTemp, 0;
    assert str[0..] == str;
    while i < |str|
      invariant i <= |str|
      invariant Behind(out, UrlDecoded(str[i..])) == Behind(strTemp, UrlDecoded(str))
    {
      DecodeStep(str, i, out);
      if str[i] == '+' {
        out := out + [' '];
      } else if str[i] == '%' {
        if i + 2 >= |str| {
          return None;
        }
        i := i + 1;
        var high := FromHex(str[i]);
        i := i + 1;
        var low := FromHex(str[i]);
        if high == None || low == None {
          return None;
        }
        out := out + [((high.value * 16 + low.value) % 0x100) as char];
      } else {
        out := out + [str[i]];
      }
      i := i + 1;
    }
    DecodeEnd(str[i..], out);
    decoded := Some(out);
  }

  lemma DecodeChar(c: char, rest: string)
    requires c as int < 0x100
    ensures UrlDecoded(EncodedChar(c) + rest) == Prefixed(c, UrlDecoded(rest))
  {
    var e := EncodedChar(c) + rest;
    if IsUnreserved(c) || c == ' ' {
      assert e[1..] == rest;
    } else {
      assert e[3..] == rest;
    }
  }

  /** Decoding an encoded byte string gives it back, and no assertion can fail on the way. */
  lemma {:induction false} UrlRoundTrip(s: string)
    requires Bytes(s)
    ensures UrlDecoded(UrlEncoded(s)) == Some(s)
  {
    if s == "" {
    } else {
      var rest := UrlEncoded(s[1..]);
      UrlRoundTrip(s[1..]);
      DecodeChar(s[0], rest);
      assert s == [s[0]] + s[1..];
    }
  }

  /** Different byte strings have different encodings. */
  lemma UrlEncodeIsInjective(a: string, b: string)
    requires Bytes(a) && Bytes(b) && UrlEncoded(a) == UrlEncoded(b)
    ensures a == b
  {
    UrlRoundTrip(a);
    UrlRoundTrip(b);
  }

  predicate IsUpperHex(c: char) {
    '0' <= c <= '9' || 'A' <= c <= 'F'
  }

  /** Unreserved characters, '+', and '%' with two upper-case hex digits behind it. */
  predicate IsCoded(e: string) {
    e == ""
    || (if e[0] == '%' then |e| >= 3 && IsUpperHex(e[1]) && IsUpperHex(e[2]) && IsCoded(e[3..])
        else (IsUnreserved(e[0]) || e[0] == '+') && IsCoded(e[1..]))
  }

  lemma {:induction false} UrlEncodeAlphabet(s: string)
    requires Bytes(s)
    ensures IsCoded(UrlEncoded(s))
  {
    if s == "" {
    } else {
      UrlEncodeAlphabet(s[1..]);
      var c, rest := EncodedChar(s[0]), UrlEncoded(s[1..]);
      assert (c + rest)[|c|..] == rest;
    }
  }

  /** A coded text has no blank, tab or line end, so it is one field of a seed line. */
  lemma {:induction false} CodedIsOneField(e: string, c: char)
    requires IsCoded(e) && c in e
    ensures IsUnreserved(c) || c == '+' || c == '%'
  {
    if e[0] == '%' {
      assert e == [e[0], e[1], e[2]] + e[3..];
      if c in e[3..] {
        CodedIsOneField(e[3..], c);
      }
    } else {
      assert e == [e[0]] + e[1..];
      if c in e[1..] {
        CodedIsOneField(e[1..], c);
      }
    }
  }

  // ---- the alphabet, spelled out ----

  /** The unreserved characters of section 2.3 of RFC 3986. */
  const UNRESERVED := CAPITALS + SMALL_LETTERS + NUMERALS + "-._~"
  const CAPITALS := "ABCDEFGHIJKLM" + "NOPQRSTUVWXYZ"
  const SMALL_LETTERS := "abcdefghijklm" + "nopqrstuvwxyz"
  const NUMERALS := "0123456789"
  const UPPER_DIGITS := "0123456789ABCDEF"

  lemma FirstCapitals(c: char)
    ensures c in "ABCDEFGHIJKLM" <==> 'A' <= c <= 'M'
  {
    if 'A' <= c <= 'M' {
      assert "ABCDEFGHIJKLM"[c as int - 'A' as int] == c;
    }
  }

  lemma LastCapitals(c: char)
    ensures c in "NOPQRSTUVWXYZ" <==> 'N' <= c <= 'Z'
  {
    if 'N' <= c <= 'Z' {
      assert "NOPQRSTUVWXYZ"[c as int - 'N' as int] == c;
    }
  }

  lemma FirstLetters(c: char)
    ensures c in "abcdefghijklm" <==> 'a' <= c <= 'm'
  {
    if 'a' <= c <= 'm' {
      assert "abcdefghijklm"[c as int - 'a' as int] == c;
    }
  }

  lemma LastLetters(c: char)
    ensures c in "nopqrstuvwxyz" <==> 'n' <= c <= 'z'
  {
    if 'n' <= c <= 'z' {
      assert "nopqrstuvwxyz"[c as int - 'n' as int] == c;
    }
  }

  lemma LettersAre(c: char)
    ensures c in CAPITALS <==> 'A' <= c <= 'Z'
    ensures c in SMALL_LETTERS <==> 'a' <= c <= 'z'
  {
    FirstCapitals(c);
    LastCapitals(c);
    FirstLetters(c);
    LastLetters(c);
  }

  lemma NumeralsAre(c: char)
    ensures c in NUMERALS <==> '0' <= c <= '9'
    ensures c in "-._~" <==> c == '-' || c == '.' || c == '_' || c == '~'
  {
    if '0' <= c <= '9' {
      assert NUMERALS[c as int - '0' as int] == c;
    }
    assert "-._~"[0] == '-' && "-._~"[1] == '.' && "-._~"[2] == '_' && "-._~"[3] == '~';
  }

  lemma UnreservedAre(c: char)
    ensures IsUnreserved(c) <==> c in UNRESERVED
  {
    hide CAPITALS, SMALL_LETTERS, NUMERALS;
    LettersAre(c);
    NumeralsAre(c);
  }

  lemma DigitIs(v: nat)
    requires v < 16
    ensures ToHex(v) == UPPER_DIGITS[v]
  {
  }

  /** An unreserved character stays, a blank becomes '+', and any other byte is spelled out. */
  lemma EncodedCharIs(c: char)
    requires c as int < 0x100
    ensures EncodedChar(c) ==
      if c in UNRESERVED then [c]
      else if c == ' ' then "+"
      else ['%', UPPER_DIGITS[c as int / 16], UPPER_DIGITS[c as int % 16]]
  {
    hide IsUnreserved;
    UnreservedAre(c);
    DigitIs(c as int / 16);
    DigitIs(c as int % 16);
  }

  /** No reserved character, and no byte beyond ASCII, comes out of an encoding. */
  lemma ReservedStayInside(s: string, c: char)
    requires Bytes(s) && c in UrlEncoded(s)
    ensures c in UNRESERVED || c == '+' || c == '%'
  {
    hide UrlEncoded, IsCoded, IsUnreserved;
    UrlEncodeAlphabet(s);
    CodedIsOneField(UrlEncoded(s), c);
    UnreservedAre(c);
  }

  /** A letter has the value of its capital, and ten more than its place in the alphabet. */
  lemma FromHexIgnoresCase(v: nat)
    requires v < 16
    ensures FromHex(UPPER_DIGITS[v]) == Some(v)
    ensures v >= 10 ==> FromHex("abcdef"[v - 10]) == Some(v)
  {
  }
}
