/**
 * The summary of a revealed round's votes: average, extremes, how many votes each value got,
 * whether everyone agreed, and how large the biggest group was. Averages are kept in tenths
 * and percentages as whole numbers, both rounded as JavaScript's Math.round does (half up).
 */
module Statistics {

  datatype Stats = Stats(
    averageTenths: int,
    min: int,
    max: int,
    totalVotes: nat,
    distribution: map<int, nat>,
    isConsensus: bool,
    agreementPercent: int)

  /** The total of the values: `n` votes add up to between `n` times the smallest and `n` times the largest. */
  function Sum(vs: seq<int>): (r: int)
    ensures |vs| > 0 ==> |vs| * Min(vs) <= r <= |vs| * Max(vs)
  {
    if vs == [] then 0
    else
      var rest := Sum(vs[1..]);
      SumStep(vs, rest);
      vs[0] + rest
  }

  /** One step of the bounds on Sum: the first vote added to the total of the others. */
  lemma SumStep(vs: seq<int>, rest: int)
    requires |vs| > 0
    requires |vs| == 1 ==> rest == 0
    requires |vs| > 1 ==> |vs[1..]| * Min(vs[1..]) <= rest <= |vs[1..]| * Max(vs[1..])
    ensures |vs| * Min(vs) <= vs[0] + rest <= |vs| * Max(vs)
  {
    if |vs| > 1 {
      SumStepMin(vs, rest);
      SumStepMax(vs, rest);
    }
  }

  lemma SumStepMin(vs: seq<int>, rest: int)
    requires |vs| > 1 && |vs[1..]| * Min(vs[1..]) <= rest
    ensures |vs| * Min(vs) <= vs[0] + rest
  {
    var tail := vs[1..];
    var m, mr := Min(vs), Min(tail);
    var i :| 0 <= i < |tail| && tail[i] == mr;
    assert vs[i + 1] == mr;
    MulMonotone(|tail|, m, mr);
    MulSucc(|tail|, m);
  }

  lemma SumStepMax(vs: seq<int>, rest: int)
    requires |vs| > 1 && rest <= |vs[1..]| * Max(vs[1..])
    ensures vs[0] + rest <= |vs| * Max(vs)
  {
    var tail := vs[1..];
    var x, xr := Max(vs), Max(tail);
    var j :| 0 <= j < |tail| && tail[j] == xr;
    assert vs[j + 1] == xr;
    MulMonotone(|tail|, xr, x);
    MulSucc(|tail|, x);
  }

  /** `values.reduce((a, b) => a + b, acc)`: a left fold from the accumulator. */
  function Reduce(acc: int, vs: seq<int>): int
    decreases vs
  {
    if vs == [] then acc else Reduce(acc + vs[0], vs[1..])
  }

  /** Sum is the JavaScript reduction from 0: folding from any accumulator adds the total to it. */
  lemma {:induction false} SumIsReduce(vs: seq<int>, acc: int)
    ensures Reduce(acc, vs) == acc + Sum(vs)
    ensures Reduce(0, vs) == Sum(vs)
  {
    if vs != [] {
      SumIsReduce(vs[1..], acc + vs[0]);
      SumIsReduce(vs[1..], vs[0]);
    }
  }

  /** The smallest value, as `Math.min(...values)`. */
  function Min(vs: seq<int>): (m: int)
    requires |vs| > 0
    ensures exists i :: 0 <= i < |vs| && vs[i] == m
    ensures forall i :: 0 <= i < |vs| ==> m <= vs[i]
  {
    if |vs| == 1 then vs[0]
    else
      var rest := Min(vs[1..]);
      assert forall i :: 1 <= i < |vs| ==> vs[i] == vs[1..][i - 1];
      if vs[0] <= rest then vs[0] else rest
  }

  /** The largest value, as `Math.max(...values)`. */
  function Max(vs: seq<int>): (m: int)
    requires |vs| > 0
    ensures exists i :: 0 <= i < |vs| && vs[i] == m
    ensures forall i :: 0 <= i < |vs| ==> vs[i] <= m
  {
    if |vs| == 1 then vs[0]
    else
      var rest := Max(vs[1..]);
      assert forall i :: 1 <= i < |vs| ==> vs[i] == vs[1..][i - 1];
      if vs[0] >= rest then vs[0] else rest
  }

  /** How many of the votes have value `x`. */
  function Count(vs: seq<int>, x: int): (c: nat)
    ensures c <= |vs|
    ensures c > 0 <==> x in vs
  {
    if vs == [] then 0
    else
      assert x in vs <==> vs[0] == x || x in vs[1..];
      (if vs[0] == x then 1 else 0) + Count(vs[1..], x)
  }

  /** The count of a value is its multiplicity in the multiset of votes. */
  lemma {:induction false} CountIsMultiplicity(vs: seq<int>, x: int)
    ensures Count(vs, x) == multiset(vs)[x]
  {
    if vs != [] {
      assert vs == [vs[0]] + vs[1..];
      CountIsMultiplicity(vs[1..], x);
    }
  }

  /** One more vote adds one to its own value's count and leaves the other counts alone. */
  lemma {:induction false} CountSnoc(vs: seq<int>, x: int, y: int)
    ensures Count(vs + [x], y) == Count(vs, y) + (if x == y then 1 else 0)
  {
    if vs != [] {
      assert (vs + [x])[1..] == vs[1..] + [x];
      CountSnoc(vs[1..], x, y);
    }
  }

  /** How many votes each value got: exactly the values that occur, each with its multiplicity. */
  function Distribution(vs: seq<int>): (m: map<int, nat>)
    ensures forall x :: x in m <==> x in vs
    ensures forall x :: x in m ==> m[x] == Count(vs, x) && m[x] > 0
  {
    map x | x in vs :: Count(vs, x)
  }

  /** The largest multiplicity among the values `keys`. */
  function MaxCountOver(vs: seq<int>, keys: seq<int>): (r: nat)
    ensures forall i :: 0 <= i < |keys| ==> Count(vs, keys[i]) <= r
    ensures r == 0 || exists i :: 0 <= i < |keys| && Count(vs, keys[i]) == r
  {
    if keys == [] then 0
    else
      var rest := MaxCountOver(vs, keys[1..]);
      assert forall i :: 1 <= i < |keys| ==> keys[i] == keys[1..][i - 1];
      if Count(vs, keys[0]) >= rest then Count(vs, keys[0]) else rest
  }

  /** The size of the largest group of equal votes. */
  function MaxCount(vs: seq<int>): (r: nat)
    ensures forall i :: 0 <= i < |vs| ==> Count(vs, vs[i]) <= r
    ensures |vs| > 0 ==> exists i :: 0 <= i < |vs| && Count(vs, vs[i]) == r
  {
    MaxCountOver(vs, vs)
  }

  /**
   * `Math.round(num / den)`: within half of the exact quotient, a tie going to the larger integer
   * (which holds also below zero, where JavaScript rounds -2.5 to -2).
   */
  function RoundHalfUp(num: int, den: int): (r: int)
    requires den > 0
    ensures 2 * den * r - den <= 2 * num < 2 * den * r + den
  {
    var q := 2 * den;
    var a := 2 * num + den;
    assert a == q * (a / q) + a % q;
    a / q
  }

  /** Only one integer is rounded to: any integer within half of the quotient, ties up, is RoundHalfUp's. */
  lemma RoundHalfUpUnique(num: int, den: int, r: int)
    requires den > 0
    requires 2 * den * r - den <= 2 * num < 2 * den * r + den
    ensures r == RoundHalfUp(num, den)
  {
    var t := RoundHalfUp(num, den);
    if r < t {
      MulMonotone(2 * den, r + 1, t);
    } else if r > t {
      MulMonotone(2 * den, t + 1, r);
    }
  }

  /** `Math.round(avg * 10) / 10`, in tenths: the nearest tenth of the mean, halves up; an empty round averages 0. */
  function AverageTenths(vs: seq<int>): (r: int)
    ensures |vs| == 0 ==> r == 0
    ensures |vs| > 0 ==> 2 * |vs| * r - |vs| <= 20 * Sum(vs) < 2 * |vs| * r + |vs|
  {
    if |vs| == 0 then 0 else RoundHalfUp(10 * Sum(vs), |vs|)
  }

  /** The distinct values, as `new Set(values)`: the values that occur, the keys of the distribution. */
  function Distinct(vs: seq<int>): (r: set<int>)
    ensures forall x :: x in r <==> x in vs
    ensures r == Distribution(vs).Keys
  {
    set i | 0 <= i < |vs| :: vs[i]
  }

  /** There are never more distinct values than votes. */
  lemma {:induction false} DistinctAtMost(vs: seq<int>)
    ensures |Distinct(vs)| <= |vs|
  {
    if vs != [] {
      assert Distinct(vs) == {vs[0]} + Distinct(vs[1..]);
      DistinctAtMost(vs[1..]);
    }
  }

  /**
   * The statistics of a non-empty list of votes: the average lies between the extremes, the
   * distribution has an entry for each value that occurs, there is consensus exactly when the
   * extremes coincide, and the agreement is a percentage.
   */
  function StatsOf(vs: seq<int>): (s: Stats)
    requires |vs| > 0
    ensures s.totalVotes == |vs| && s.min == Min(vs) && s.max == Max(vs)
    ensures 10 * s.min <= s.averageTenths <= 10 * s.max
    ensures forall x :: x in s.distribution <==> x in vs
    ensures s.isConsensus <==> s.min == s.max
    ensures 0 <= s.agreementPercent <= 100
  {
    AverageWithinRange(vs);
    ConsensusIff(vs);
    AgreementRange(vs);
    Stats(AverageTenths(vs), Min(vs), Max(vs), |vs|, Distribution(vs), |Distinct(vs)| == 1,
          RoundHalfUp(100 * MaxCount(vs), |vs|))
  }

  /** Adding one vote raises its value's count by one, or enters the value with count one. */
  lemma DistributionSnoc(vs: seq<int>, x: int)
    ensures Distribution(vs + [x])
         == Distribution(vs)[x := (if x in Distribution(vs) then Distribution(vs)[x] else 0) + 1]
  {
    forall y ensures Count(vs + [x], y) == Count(vs, y) + (if x == y then 1 else 0) {
      CountSnoc(vs, x, y);
    }
    forall y ensures y in vs + [x] <==> y in vs || y == x {
      if y in vs + [x] && y != x {
        var k :| 0 <= k < |vs + [x]| && (vs + [x])[k] == y;
        assert vs[k] == y;
      }
      if y in vs {
        var k :| 0 <= k < |vs| && vs[k] == y;
        assert (vs + [x])[k] == y;
      }
    }
  }

  /** Any value that bounds every multiplicity and is reached by one is the largest multiplicity. */
  lemma MaxCountUnique(vs: seq<int>, m: nat)
    requires |vs| > 0
    requires forall i :: 0 <= i < |vs| ==> Count(vs, vs[i]) <= m
    requires exists i :: 0 <= i < |vs| && Count(vs, vs[i]) == m
    ensures m == MaxCount(vs)
  {
  }

  /** The loop over the distribution's counts that keeps the largest one. */
  method LargestCount(distribution: map<int, nat>) returns (maxCount: nat)
    ensures forall k :: k in distribution ==> distribution[k] <= maxCount
    ensures maxCount == 0 || exists k :: k in distribution && distribution[k] == maxCount
  {
    maxCount := 0;
    var pending := distribution.Keys;
    while pending != {}
      invariant pending <= distribution.Keys
      invariant forall k :: k in distribution && k !in pending ==> distribution[k] <= maxCount
      invariant maxCount == 0 || exists k :: k in distribution && k !in pending && distribution[k] == maxCount
      decreases |pending|
    {
      if forall k :: k !in pending {
        assert false;
      }
      var k :| k in pending;
      if distribution[k] > maxCount {
        maxCount := distribution[k];
      }
      pending := pending - {k};
    }
  }

  /** The loop that counts the votes of each value. */
  method CountValues(values: seq<int>) returns (distribution: map<int, nat>)
    ensures distribution == Distribution(values)
  {
    distribution := map[];
    for i := 0 to |values|
      invariant distribution == Distribution(values[..i])
    {
      DistributionSnoc(values[..i], values[i]);
      assert values[..i + 1] == values[..i] + [values[i]];
      var key := values[i];
      distribution := distribution[key := (if key in distribution then distribution[key] else 0) + 1];
    }
    assert values[..|values|] == values;
  }

  /** getStats: the sum, extremes and set of values as expressions; the distribution and the largest count by loops. */
  method ComputeStats(values: seq<int>) returns (s: Stats)
    requires |values| > 0
    ensures s == StatsOf(values)
  {
    var distribution := CountValues(values);
    var uniqueValues := set i | 0 <= i < |values| :: values[i];
    var isConsensus := |uniqueValues| == 1;
    var maxCount := LargestCount(distribution);
    assert values[0] in distribution;
    forall i | 0 <= i < |values| ensures Count(values, values[i]) <= maxCount {
      assert values[i] in values;
      assert values[i] in distribution;
      assert distribution[values[i]] <= maxCount;
    }
    var k :| k in distribution && distribution[k] == maxCount;
    var j :| 0 <= j < |values| && values[j] == k;
    MaxCountUnique(values, maxCount);
    s := Stats(AverageTenths(values), Min(values), Max(values), |values|, distribution, isConsensus,
               RoundHalfUp(100 * maxCount, |values|));
  }

  lemma MulMonotone(n: nat, a: int, b: int)
    requires a <= b
    ensures n * a <= n * b
  {
    assert n * b - n * a == n * (b - a);
  }

  /** A quotient known to lie between two integers rounds to a value between them. */
  lemma RoundedBetween(num: int, den: int, lo: int, hi: int)
    requires den > 0
    requires den * lo <= num <= den * hi
    ensures lo <= RoundHalfUp(num, den) <= hi
  {
    var r := RoundHalfUp(num, den);
    if r < lo {
      MulMonotone(2 * den, r + 1, lo);
    }
    if r > hi {
      MulMonotone(2 * den, hi, r - 1);
    }
  }

  lemma MulSucc(n: nat, m: int)
    ensures (n + 1) * m == n * m + m
  {
  }

  lemma ScaleBounds(n: nat, total: int, lo: int, hi: int, c: nat)
    requires n * lo <= total <= n * hi
    ensures n * (c * lo) <= c * total <= n * (c * hi)
  {
    MulMonotone(c, n * lo, total);
    MulMonotone(c, total, n * hi);
  }

  /** The rounded average lies between the smallest and the largest vote. */
  lemma AverageWithinRange(vs: seq<int>)
    requires |vs| > 0
    ensures 10 * Min(vs) <= AverageTenths(vs) <= 10 * Max(vs)
  {
    var n, total, lo, hi := |vs|, Sum(vs), Min(vs), Max(vs);
    ScaleBounds(n, total, lo, hi, 10);
    RoundedBetween(10 * total, n, 10 * lo, 10 * hi);
  }

  /** Consensus (a single distinct value) holds exactly when every vote equals the first, i.e. when min equals max. */
  lemma ConsensusIff(vs: seq<int>)
    requires |vs| > 0
    ensures (|Distinct(vs)| == 1) == (forall i :: 0 <= i < |vs| ==> vs[i] == vs[0])
    ensures (|Distinct(vs)| == 1) == (Min(vs) == Max(vs))
  {
    var ds := Distinct(vs);
    assert vs[0] in ds;
    if forall i :: 0 <= i < |vs| ==> vs[i] == vs[0] {
      assert ds == {vs[0]};
      var i :| 0 <= i < |vs| && vs[i] == Min(vs);
      var j :| 0 <= j < |vs| && vs[j] == Max(vs);
    } else {
      var i :| 0 <= i < |vs| && vs[i] != vs[0];
      assert vs[i] in ds;
      assert {vs[0], vs[i]} <= ds;
      assert |{vs[0], vs[i]}| == 2;
      SubsetCard({vs[0], vs[i]}, ds);
      assert Min(vs) != Max(vs) by {
        assert Min(vs) <= vs[0] <= Max(vs) && Min(vs) <= vs[i] <= Max(vs);
      }
    }
  }

  lemma SubsetCard(a: set<int>, b: set<int>)
    requires a <= b
    ensures |a| <= |b|
  {
    assert b == a + (b - a);
  }

  /** The largest group holds at least one and at most all votes, so the agreement is a percentage. */
  lemma AgreementRange(vs: seq<int>)
    requires |vs| > 0
    ensures 1 <= MaxCount(vs) <= |vs|
    ensures 0 <= RoundHalfUp(100 * MaxCount(vs), |vs|) <= 100
  {
    var i :| 0 <= i < |vs| && Count(vs, vs[i]) == MaxCount(vs);
    var n := |vs|;
    MulMonotone(100, MaxCount(vs), n);
    RoundedBetween(100 * MaxCount(vs), n, 0, 100);
  }

  /** When everyone agrees, the largest group is every vote and the agreement is exactly 100 percent. */
  lemma ConsensusFullAgreement(vs: seq<int>)
    requires |vs| > 0
    requires StatsOf(vs).isConsensus
    ensures MaxCount(vs) == |vs|
    ensures StatsOf(vs).agreementPercent == 100
  {
    ConsensusIff(vs);
    AllSame(vs, vs[0]);
    AgreementRange(vs);
    RoundedBetween(100 * |vs|, |vs|, 100, 100);
  }

  lemma {:induction false} AllSame(vs: seq<int>, x: int)
    requires forall i :: 0 <= i < |vs| ==> vs[i] == x
    ensures Count(vs, x) == |vs|
  {
    if vs != [] {
      assert vs == [vs[0]] + vs[1..];
      AllSame(vs[1..], x);
    }
  }

  /** Three votes 5, 8, 5 count two fives and one eight. */
  lemma ExampleDistribution()
    ensures Distribution([5, 8, 5]) == map[5 := 2, 8 := 1]
  {
    assert [5, 8, 5][1..] == [8, 5] && [5, 8, 5][2..] == [5];
  }

  /** Three votes 5, 8, 5 hold two distinct values, so they are no consensus. */
  lemma ExampleDistinct()
    ensures Distinct([5, 8, 5]) == {5, 8}
    ensures |Distinct([5, 8, 5])| != 1
  {
    var vs := [5, 8, 5];
    assert vs[0] == 5 && vs[1] == 8 && vs[2] == 5;
  }

  /** Three votes 5, 8, 5 have a largest group of two, so 67 percent agree. */
  lemma ExampleAgreement()
    ensures MaxCount([5, 8, 5]) == 2
    ensures RoundHalfUp(100 * MaxCount([5, 8, 5]), 3) == 67
  {
    var vs := [5, 8, 5];
    assert vs[2..] == [5] && vs[1..] == [8, 5] && vs[1..][1..] == [5];
    assert Count(vs, 5) == 2 && Count(vs, 8) == 1;
    assert MaxCountOver(vs, vs[2..]) == 2;
    assert MaxCountOver(vs, vs[1..]) == 2;
  }

  /** Three votes 5, 8, 5 average 6.0, with 5 the smallest and 8 the largest. */
  lemma ExampleAverage()
    ensures Min([5, 8, 5]) == 5 && Max([5, 8, 5]) == 8
    ensures AverageTenths([5, 8, 5]) == 60
  {
    var vs := [5, 8, 5];
    assert vs[1..] == [8, 5] && vs[1..][1..] == [5];
    assert Sum(vs) == 18;
  }

  /** Three votes 5, 8, 5: average 6.0, min 5, max 8, two fives and an eight, no consensus, 67 percent agree. */
  lemma ExampleFiveEightFive()
    ensures StatsOf([5, 8, 5]) == Stats(60, 5, 8, 3, map[5 := 2, 8 := 1], false, 67)
  {
    ExampleDistribution();
    ExampleDistinct();
    ExampleAgreement();
    ExampleAverage();
  }

  /** Halves round up, also below zero: 7.5 tenths becomes 8, and -2.5 becomes -2. */
  lemma RoundingHalvesUp()
    ensures AverageTenths([0, 1, 1, 1]) == 8
    ensures RoundHalfUp(-5, 2) == -2
  {
    assert Sum([0, 1, 1, 1]) == 3;
  }

  // ---------------------------------------------------------------------------------------------
  // The counts of the distribution add up to the number of votes

  predicate NoDuplicates(keys: seq<int>) {
    forall i, j :: 0 <= i < j < |keys| ==> keys[i] != keys[j]
  }

  /** The total of the counts `m` gives the keys, taken in the order of `keys`. */
  function SumOver(m: map<int, nat>, keys: seq<int>): int
    requires forall i :: 0 <= i < |keys| ==> keys[i] in m
  {
    if keys == [] then 0 else m[keys[0]] + SumOver(m, keys[1..])
  }

  /** The total of the multiplicities of the values `keys`. */
  function SumCounts(vs: seq<int>, keys: seq<int>): nat {
    if keys == [] then 0 else Count(vs, keys[0]) + SumCounts(vs, keys[1..])
  }

  /** One more vote adds one to the total exactly when its value is among the keys. */
  lemma {:induction false} SumCountsSnoc(vs: seq<int>, x: int, keys: seq<int>)
    requires NoDuplicates(keys)
    ensures SumCounts(vs + [x], keys) == SumCounts(vs, keys) + (if x in keys then 1 else 0)
  {
    if keys != [] {
      assert NoDuplicates(keys[1..]) by {
        forall i, j | 0 <= i < j < |keys[1..]| ensures keys[1..][i] != keys[1..][j] {
          assert keys[1..][i] == keys[i + 1] && keys[1..][j] == keys[j + 1];
        }
      }
      SumCountsSnoc(vs, x, keys[1..]);
      CountSnoc(vs, x, keys[0]);
      if x == keys[0] {
        forall k | 0 <= k < |keys[1..]| ensures keys[1..][k] != x {
          assert keys[1..][k] == keys[k + 1];
        }
      }
      assert x in keys <==> x == keys[0] || x in keys[1..];
    }
  }

  lemma {:induction false} SumCountsNone(keys: seq<int>)
    ensures SumCounts([], keys) == 0
  {
    if keys != [] {
      SumCountsNone(keys[1..]);
    }
  }

  /** Over distinct keys that cover every value, the multiplicities add up to the number of votes. */
  lemma {:induction false} SumCountsTotal(vs: seq<int>, keys: seq<int>)
    requires NoDuplicates(keys)
    requires forall i :: 0 <= i < |vs| ==> vs[i] in keys
    ensures SumCounts(vs, keys) == |vs|
  {
    if vs == [] {
      SumCountsNone(keys);
    } else {
      var init := vs[..|vs| - 1];
      assert vs == init + [vs[|vs| - 1]];
      SumCountsTotal(init, keys);
      SumCountsSnoc(init, vs[|vs| - 1], keys);
    }
  }

  lemma {:induction false} SumOverDistribution(vs: seq<int>, keys: seq<int>)
    requires forall i :: 0 <= i < |keys| ==> keys[i] in Distribution(vs)
    ensures SumOver(Distribution(vs), keys) == SumCounts(vs, keys)
  {
    if keys != [] {
      SumOverDistribution(vs, keys[1..]);
    }
  }

  /** Listing the distribution's values once each, in any order, the counts add up to the number of votes. */
  lemma DistributionTotal(vs: seq<int>, keys: seq<int>)
    requires NoDuplicates(keys)
    requires forall i :: 0 <= i < |keys| ==> keys[i] in Distribution(vs)
    requires forall x :: x in Distribution(vs) ==> x in keys
    ensures SumOver(Distribution(vs), keys) == |vs|
  {
    SumOverDistribution(vs, keys);
    forall i | 0 <= i < |vs| ensures vs[i] in keys {
      assert vs[i] in Distribution(vs);
    }
    SumCountsTotal(vs, keys);
  }
}
