/**
 What several modules share: an optional value, the concatenation of a list of lists, and the quotient and
 remainder of a sum that shows them.
 */
module Basics {
  datatype Option<T> = None | Some(value: T)

  function Flatten<T>(parts: seq<seq<T>>): seq<T> {
    if parts == [] then [] else Flatten(parts[..|parts| - 1]) + parts[|parts| - 1]
  }

  lemma FlattenNext<T>(parts: seq<seq<T>>, part: seq<T>)
    ensures Flatten(parts + [part]) == Flatten(parts) + part
  {
    assert (parts + [part])[..|parts|] == parts;
  }

  lemma TimesNext(q: nat, size: nat)
    ensures (q + 1) * size == q * size + size
  {
  }

  /** A larger quotient is larger by a whole size at least. */
  lemma {:induction false} MultiplesApart(a: nat, b: nat, size: nat)
    requires a < b
    ensures a * size + size <= b * size
    decreases b
  {
    TimesNext(b - 1, size);
    if a == b - 1 {
    } else {
      MultiplesApart(a, b - 1, size);
    }
  }

  lemma QuotientAtLeast(q: nat, size: nat, n: nat)
    requires size > 0 && q * size <= n
    ensures q <= n / size
  {
    var a, r := n / size, n % size;
    assert n == a * size + r && r < size;
    if a < q {
      MultiplesApart(a, q, size);
    }
  }

  lemma QuotientIs(q: nat, size: nat, r: nat)
    requires r < size
    ensures (q * size + r) / size == q && (q * size + r) % size == r
  {
    var n := q * size + r;
    var a := n / size;
    assert n == a * size + n % size;
    QuotientAtLeast(q, size, n);
    if q < a {
      MultiplesApart(q, a, size);
    }
  }
}
