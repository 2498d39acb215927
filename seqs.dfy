/** Ordered scans over a table: the rows matching a predicate, and the first such row. */
module Seqs {
  import opened Wrappers

  /** The elements of `s` that satisfy `p`, in their original order. */
  function Filter<T>(s: seq<T>, p: T -> bool): (r: seq<T>)
    ensures |r| <= |s|
    ensures forall i :: 0 <= i < |r| ==> r[i] in s && p(r[i])
    ensures forall i :: 0 <= i < |s| && p(s[i]) ==> s[i] in r
  {
    if s == [] then []
    else if p(s[0]) then [s[0]] + Filter(s[1..], p)
    else Filter(s[1..], p)
  }

  /** The position of the first element of `s` satisfying `p`. */
  function Find<T>(s: seq<T>, p: T -> bool): (r: Option<nat>)
    ensures r.Some? ==> r.value < |s| && p(s[r.value]) && forall j :: 0 <= j < r.value ==> !p(s[j])
    ensures r.None? ==> forall j :: 0 <= j < |s| ==> !p(s[j])
  {
    if s == [] then None
    else if p(s[0]) then Some(0)
    else match Find(s[1..], p)
      case None => None
      case Some(i) => Some(i + 1)
  }

  /** The first element of `s` satisfying `p`, as a `.first()` on an index does. */
  function First<T>(s: seq<T>, p: T -> bool): (r: Option<T>)
    ensures r.Some? <==> exists i :: 0 <= i < |s| && p(s[i])
    ensures r.Some? ==> r.value in s && p(r.value)
  {
    match Find(s, p)
    case None => None
    case Some(i) => Some(s[i])
  }

  /** `Find` is determined by the position it reports: the first one that satisfies `p`. */
  lemma FindAt<T>(s: seq<T>, p: T -> bool, i: nat)
    requires i < |s| && p(s[i])
    requires forall j :: 0 <= j < i ==> !p(s[j])
    ensures Find(s, p) == Some(i)
  {
  }

  /** Replacing the first match by another match leaves the first match where it was. */
  lemma FindUpdate<T>(s: seq<T>, p: T -> bool, i: nat, x: T)
    requires Find(s, p) == Some(i) && p(x)
    ensures Find(s[i := x], p) == Some(i)
  {
    FindAt(s[i := x], p, i);
  }

  /** The first match is the head of the filtered sequence. */
  lemma {:induction false} FirstIsFilterHead<T>(s: seq<T>, p: T -> bool)
    ensures First(s, p) == if Filter(s, p) == [] then None else Some(Filter(s, p)[0])
  {
    if s != [] && !p(s[0]) {
      FirstIsFilterHead(s[1..], p);
      match Find(s[1..], p)
      case None =>
      case Some(i) =>
    }
  }

  lemma {:induction false} FilterAppend<T>(a: seq<T>, b: seq<T>, p: T -> bool)
    ensures Filter(a + b, p) == Filter(a, p) + Filter(b, p)
  {
    if a == [] {
      assert a + b == b;
    } else {
      assert (a + b)[1..] == a[1..] + b;
      FilterAppend(a[1..], b, p);
    }
  }

  /** Filtering depends only on the values `p` takes on the elements of `s`. */
  lemma {:induction false} FilterCongruent<T>(s: seq<T>, p: T -> bool, q: T -> bool)
    requires forall x :: x in s ==> p(x) == q(x)
    ensures Filter(s, p) == Filter(s, q)
  {
    if s != [] {
      assert s[0] in s;
      FilterCongruent(s[1..], p, q);
    }
  }

  /** Filtering twice keeps exactly what the conjunction keeps. */
  lemma {:induction false} FilterFilter<T>(s: seq<T>, p: T -> bool, q: T -> bool, both: T -> bool)
    requires forall x :: x in s ==> both(x) == (p(x) && q(x))
    ensures Filter(Filter(s, p), q) == Filter(s, both)
  {
    if s != [] {
      assert s[0] in s;
      FilterFilter(s[1..], p, q, both);
    }
  }

  /** A predicate that holds of every element of `s` filters nothing out. */
  lemma {:induction false} FilterAll<T>(s: seq<T>, p: T -> bool)
    requires forall x :: x in s ==> p(x)
    ensures Filter(s, p) == s
  {
    if s != [] {
      assert s[0] in s;
      FilterAll(s[1..], p);
    }
  }

  /** A predicate that holds of no element of `s` keeps nothing. */
  lemma {:induction false} FilterNone<T>(s: seq<T>, p: T -> bool)
    requires forall x :: x in s ==> !p(x)
    ensures Filter(s, p) == []
  {
    if s != [] {
      assert s[0] in s;
      FilterNone(s[1..], p);
    }
  }

  /** The same, with the elements named by position. */
  lemma FilterNoneAt<T>(s: seq<T>, p: T -> bool)
    requires forall j :: 0 <= j < |s| ==> !p(s[j])
    ensures Filter(s, p) == []
  {
    forall x | x in s ensures !p(x) {
      var j :| 0 <= j < |s| && s[j] == x;
    }
    FilterNone(s, p);
  }

  /** Replacing one element changes the filtered sequence only at that element's place. */
  lemma FilterUpdate<T>(s: seq<T>, i: nat, x: T, p: T -> bool)
    requires i < |s|
    ensures Filter(s[i := x], p) == Filter(s[..i], p) + Filter([x], p) + Filter(s[i+1..], p)
    ensures Filter(s, p) == Filter(s[..i], p) + Filter([s[i]], p) + Filter(s[i+1..], p)
  {
    assert s[i := x] == s[..i] + [x] + s[i+1..];
    assert s == s[..i] + [s[i]] + s[i+1..];
    FilterAppend(s[..i] + [x], s[i+1..], p);
    FilterAppend(s[..i], [x], p);
    FilterAppend(s[..i] + [s[i]], s[i+1..], p);
    FilterAppend(s[..i], [s[i]], p);
  }

  /** Filter keeps every occurrence of an element that satisfies `p` and none of one that does not. */
  lemma {:induction false} FilterMultiplicity<T>(s: seq<T>, p: T -> bool)
    ensures forall x :: multiset(Filter(s, p))[x] == if p(x) then multiset(s)[x] else 0
  {
    if s != [] {
      assert s == [s[0]] + s[1..];
      FilterMultiplicity(s[1..], p);
    }
  }

  /** Filtering a sequence whose keys strictly increase gives one whose keys strictly increase. */
  lemma {:induction false} FilterIncreasing<T>(s: seq<T>, p: T -> bool, key: T -> int)
    requires forall i, j :: 0 <= i < j < |s| ==> key(s[i]) < key(s[j])
    ensures forall i, j :: 0 <= i < j < |Filter(s, p)| ==> key(Filter(s, p)[i]) < key(Filter(s, p)[j])
  {
    if s != [] {
      FilterIncreasing(s[1..], p, key);
      var t := Filter(s[1..], p);
      forall m | 0 <= m < |t| ensures key(s[0]) < key(t[m]) {
        var k :| 0 <= k < |s[1..]| && s[1..][k] == t[m];
        assert s[k + 1] == t[m];
      }
    }
  }
}
