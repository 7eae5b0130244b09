/**
 `qsortString`: sorting an array of C strings with a hole that moves while cells are overwritten.
 */
module StringSort {
  import opened Machine

  /** A C string: its bytes before the terminating NUL. */
  type CString = s: seq<Byte> | forall k :: 0 <= k < |s| ==> s[k] != 0

  /** `strcmp`: the sign of the first difference of unsigned bytes, the terminator counting as zero. */
  function Strcmp(a: CString, b: CString): int {
    if a == [] && b == [] then 0
    else if a == [] then -b[0]
    else if b == [] then a[0]
    else if a[0] != b[0] then a[0] - b[0]
    else Strcmp(a[1..], b[1..])
  }

  predicate PartsAt(a: CString, b: CString, k: nat)
    requires k < |b|
  {
    k <= |a| && a[..k] == b[..k] && (k == |a| || a[k] < b[k])
  }

  /** The order of a dictionary: at the first place where the two differ, `a` has ended or has the smaller byte. */
  ghost predicate Before(a: CString, b: CString) {
    exists k :: 0 <= k < |b| && PartsAt(a, b, k)
  }

  predicate AtMost(a: CString, b: CString) {
    Strcmp(a, b) <= 0
  }

  lemma PartsLater(a: CString, b: CString, k: nat)
    requires a != [] && b != [] && a[0] == b[0] && 0 < k < |b|
    ensures PartsAt(a, b, k) <==> PartsAt(a[1..], b[1..], k - 1)
  {
    if k <= |a| {
      assert a[..k] == [a[0]] + a[1..][..k - 1] && b[..k] == [b[0]] + b[1..][..k - 1];
      assert a[..k][1..] == a[1..][..k - 1] && b[..k][1..] == b[1..][..k - 1];
    }
  }

  /** `strcmp` is negative exactly for strings that come before in that order. */
  lemma {:induction false} StrcmpIsBefore(a: CString, b: CString)
    ensures Strcmp(a, b) < 0 <==> Before(a, b)
  {
    if a == [] {
      assert b != [] ==> PartsAt(a, b, 0);
    } else if b == [] {
    } else if a[0] != b[0] {
      assert PartsAt(a, b, 0) <==> a[0] < b[0];
      forall k | 0 < k < |b|
        ensures !PartsAt(a, b, k)
      {
        if k <= |a| {
          assert a[..k][0] == a[0] && b[..k][0] == b[0];
        }
      }
    } else {
      StrcmpIsBefore(a[1..], b[1..]);
      forall k | 0 < k < |b|
        ensures PartsAt(a, b, k) <==> PartsAt(a[1..], b[1..], k - 1)
      {
        PartsLater(a, b, k);
      }
      assert !PartsAt(a, b, 0);
      if Before(a[1..], b[1..]) {
        var k :| 0 <= k < |b[1..]| && PartsAt(a[1..], b[1..], k);
        assert PartsAt(a, b, k + 1);
      }
      if Before(a, b) {
        var k :| 0 <= k < |b| && PartsAt(a, b, k);
        assert PartsAt(a[1..], b[1..], k - 1);
      }
    }
  }

  lemma {:induction false} StrcmpFlips(a: CString, b: CString)
    ensures Strcmp(a, b) == -Strcmp(b, a)
    ensures Strcmp(a, b) == 0 <==> a == b
  {
    if a == [] || b == [] || a[0] != b[0] {
    } else {
      StrcmpFlips(a[1..], b[1..]);
      assert a == [a[0]] + a[1..] && b == [b[0]] + b[1..];
    }
  }

  lemma {:induction false} AtMostTransitive(a: CString, b: CString, c: CString)
    requires AtMost(a, b) && AtMost(b, c)
    ensures AtMost(a, c)
  {
    if a == [] || b == [] || c == [] || a[0] != b[0] || b[0] != c[0] {
    } else {
      AtMostTransitive(a[1..], b[1..], c[1..]);
    }
  }

  /** No string comes before one to its left. */
  ghost predicate Sorted(s: seq<CString>, lo: int, hi: int)
    requires 0 <= lo && hi < |s|
  {
    forall i, j :: lo <= i < j <= hi ==> !Before(s[j], s[i])
  }

  lemma AtMostIs(a: CString, b: CString)
    ensures AtMost(a, b) <==> !Before(b, a)
  {
    StrcmpFlips(a, b);
    StrcmpIsBefore(b, a);
  }

  /** Outside lo..hi nothing differs, and inside it is the same strings in some order. */
  ghost predicate Rearranged(s: seq<CString>, t: seq<CString>, lo: int, hi: int)
    requires 0 <= lo && hi < |s|
  {
    && |t| == |s|
    && (forall k :: 0 <= k < |s| && !(lo <= k <= hi) ==> t[k] == s[k])
    && multiset(t) == multiset(s)
  }

  /** With the pivot put into the hole, the cells hold the strings they held at first. */
  ghost predicate Filled(s: seq<CString>, hole: int, pivot: CString, before: seq<CString>) {
    0 <= hole < |s| && |s| == |before| && multiset(s[hole := pivot]) == multiset(before)
  }

  lemma SwapKeeps(s: seq<CString>, i: int, j: int)
    requires 0 <= i < |s| && 0 <= j < |s|
    ensures multiset(s[i := s[j]][j := s[i]]) == multiset(s)
  {
  }

  /** Moving a string into the hole moves the hole to where the string was. */
  lemma HoleMoves(s: seq<CString>, hole: int, from: int, pivot: CString, before: seq<CString>)
    requires 0 <= from < |s| && Filled(s, hole, pivot, before)
    ensures Filled(s[hole := s[from]], from, pivot, before)
  {
    if hole != from {
      var t := s[hole := pivot];
      assert s[hole := s[from]][from := pivot] == t[hole := t[from]][from := t[hole]];
      SwapKeeps(t, hole, from);
    } else {
      assert s[hole := s[from]] == s;
    }
  }

  lemma PivotLeaves(s: seq<CString>, hole: int)
    requires 0 <= hole < |s|
    ensures Filled(s, hole, s[hole], s)
  {
    assert s[hole := s[hole]] == s;
  }

  lemma PivotReturns(s: seq<CString>, hole: int, pivot: CString, before: seq<CString>)
    requires Filled(s, hole, pivot, before)
    ensures |s| == |before| && multiset(s[hole := pivot]) == multiset(before)
  {
  }

  lemma ThreeBags(s: seq<CString>, lo: int, hi: int, x: CString)
    requires 0 <= lo <= hi <= |s|
    ensures multiset(s)[x] == multiset(s[..lo])[x] + multiset(s[lo..hi])[x] + multiset(s[hi..])[x]
  {
    assert s == s[..lo] + s[lo..hi] + s[hi..];
  }

  lemma MiddleBag(s: seq<CString>, t: seq<CString>, lo: int, hi: int)
    requires 0 <= lo && lo <= hi + 1 && hi < |s| && Rearranged(s, t, lo, hi)
    ensures multiset(t[lo..hi + 1]) == multiset(s[lo..hi + 1])
  {
    assert t[..lo] == s[..lo] && t[hi + 1..] == s[hi + 1..];
    var inS, inT := multiset(s[lo..hi + 1]), multiset(t[lo..hi + 1]);
    forall x
      ensures inT[x] == inS[x]
    {
      ThreeBags(s, lo, hi + 1, x);
      ThreeBags(t, lo, hi + 1, x);
    }
  }

  /** What lies between lo and hi is a rearrangement of what lay there, so bounds on all of it survive. */
  lemma BoundsSurvive(s: seq<CString>, t: seq<CString>, lo: int, hi: int, x: CString)
    requires 0 <= lo && lo <= hi + 1 && hi < |s| && Rearranged(s, t, lo, hi)
    ensures (forall k :: lo <= k <= hi ==> AtMost(s[k], x)) ==> forall k :: lo <= k <= hi ==> AtMost(t[k], x)
    ensures (forall k :: lo <= k <= hi ==> AtMost(x, s[k])) ==> forall k :: lo <= k <= hi ==> AtMost(x, t[k])
  {
    var a, b := s[lo..hi + 1], t[lo..hi + 1];
    MiddleBag(s, t, lo, hi);
    forall k | lo <= k <= hi
      ensures exists j :: lo <= j <= hi && s[j] == t[k]
    {
      assert t[k] == b[k - lo] && b[k - lo] in multiset(b);
      assert t[k] in a;
      var j :| 0 <= j < |a| && a[j] == t[k];
      assert s[lo + j] == t[k];
    }
  }

  /** The inner scan from the right: skips strings that are not below the pivot. */
  method ScanLeft(strArr: array<CString>, start: int, end: int, midStr: CString) returns (end': int)
    requires 0 <= start <= end < strArr.Length
    ensures start <= end' <= end
    ensures forall k :: end' < k <= end ==> Strcmp(strArr[k], midStr) >= 0
    ensures start < end' ==> Strcmp(strArr[end'], midStr) < 0
  {
    end' := end;
    while start < end' && Strcmp(strArr[end'], midStr) >= 0
      invariant start <= end' <= end
      invariant forall k :: end' < k <= end ==> Strcmp(strArr[k], midStr) >= 0
    {
      end' := end' - 1;
    }
  }

  /** The inner scan from the left: skips strings below the pivot. */
  method ScanRight(strArr: array<CString>, start: int, end: int, midStr: CString) returns (start': int)
    requires 0 <= start <= end < strArr.Length
    ensures start <= start' <= end
    ensures forall k :: start <= k < start' ==> Strcmp(strArr[k], midStr) < 0
    ensures start' < end ==> Strcmp(strArr[start'], midStr) >= 0
  {
    start' := start;
    while start' < end && Strcmp(strArr[start'], midStr) < 0
      invariant start <= start' <= end
      invariant forall k :: start <= k < start' ==> Strcmp(strArr[k], midStr) < 0
    {
      start' := start' + 1;
    }
  }

  lemma SameAsItself(a: CString)
    ensures Strcmp(a, a) == 0
  {
    StrcmpFlips(a, a);
  }

  /** One round of the moving hole: everything left of the result is below the first string, the rest is not. */
  method Partition(strArr: array<CString>, leftIndex: int, rightIndex: int) returns (start: int)
    requires 0 <= leftIndex < rightIndex < strArr.Length
    modifies strArr
    ensures leftIndex <= start <= rightIndex
    ensures Rearranged(old(strArr[..]), strArr[..], leftIndex, rightIndex)
    ensures strArr[start] == old(strArr[leftIndex])
    ensures forall k :: leftIndex <= k < start ==> Strcmp(strArr[k], strArr[start]) < 0
    ensures forall k :: start <= k <= rightIndex ==> Strcmp(strArr[k], strArr[start]) >= 0
  {
    hide Filled, Strcmp;
    ghost var before := strArr[..];
    var end := rightIndex;
    start := leftIndex;
    var midStr := strArr[leftIndex];
    PivotLeaves(before, start);
    while start < end
      invariant leftIndex <= start <= end <= rightIndex
      invariant Filled(strArr[..], start, midStr, before)
      invariant forall k :: 0 <= k < strArr.Length && !(leftIndex <= k <= rightIndex) ==> strArr[k] == before[k]
      invariant forall k :: leftIndex <= k < start ==> Strcmp(strArr[k], midStr) < 0
      invariant forall k :: end < k <= rightIndex ==> Strcmp(strArr[k], midStr) >= 0
    {
      end := ScanLeft(strArr, start, end, midStr);
      if start < end {
        HoleMoves(strArr[..], start, end, midStr, before);
        ghost var moved := strArr[..][start := strArr[end]];
        strArr[start] := strArr[end];
        assert strArr[..] == moved;
        start := start + 1;
      }
      start := ScanRight(strArr, start, end, midStr);
      if start < end {
        HoleMoves(strArr[..], end, start, midStr, before);
        ghost var moved := strArr[..][end := strArr[start]];
        strArr[end] := strArr[start];
        assert strArr[..] == moved;
        end := end - 1;
      }
    }
    PivotReturns(strArr[..], start, midStr, before);
    ghost var filled := strArr[..][start := midStr];
    strArr[start] := midStr;
    assert strArr[..] == filled;
    SameAsItself(midStr);
  }

  lemma HalvesAreSorted(s: seq<CString>, t: seq<CString>, u: seq<CString>, lo: int, mid: int, hi: int)
    requires 0 <= lo <= mid <= hi < |s|
    requires forall k :: lo <= k < mid ==> Strcmp(s[k], s[mid]) < 0
    requires forall k :: mid <= k <= hi ==> Strcmp(s[k], s[mid]) >= 0
    requires |t| == |s| && |u| == |s|
    requires if lo < mid - 1 then Sorted(t, lo, mid - 1) && Rearranged(s, t, lo, mid - 1) else t == s
    requires if mid + 1 < hi then Sorted(u, mid + 1, hi) && Rearranged(t, u, mid + 1, hi) else u == t
    ensures |u| == |s| && Sorted(u, lo, hi) && Rearranged(s, u, lo, hi)
  {
    var x := s[mid];
    forall k | mid <= k <= hi
      ensures AtMost(x, s[k])
    {
      StrcmpFlips(s[k], x);
    }
    if lo < mid - 1 {
      BoundsSurvive(s, t, lo, mid - 1, x);
    }
    if mid + 1 < hi {
      BoundsSurvive(t, u, mid + 1, hi, x);
    }
    SameAsItself(x);
    forall i, j | lo <= i < j <= hi
      ensures !Before(u[j], u[i])
    {
      if i <= mid <= j {
        AtMostTransitive(u[i], x, u[j]);
        AtMostIs(u[i], u[j]);
      }
    }
  }

  method QsortString(strArr: array<CString>, leftIndex: int, rightIndex: int)
    requires leftIndex < rightIndex ==> 0 <= leftIndex && rightIndex < strArr.Length
    modifies strArr
    ensures leftIndex < rightIndex ==>
      && Sorted(strArr[..], leftIndex, rightIndex)
      && Rearranged(old(strArr[..]), strArr[..], leftIndex, rightIndex)
    ensures leftIndex >= rightIndex ==> strArr[..] == old(strArr[..])
    decreases rightIndex - leftIndex
  {
    if leftIndex >= rightIndex {
      return;
    }
    var pivotAt := Partition(strArr, leftIndex, rightIndex);
    ghost var parted := strArr[..];
    QsortString(strArr, leftIndex, pivotAt - 1);
    ghost var leftDone := strArr[..];
    QsortString(strArr, pivotAt + 1, rightIndex);
    HalvesAreSorted(parted, leftDone, strArr[..], leftIndex, pivotAt, rightIndex);
  }
}
