/** Percentiles with linear interpolation, over the reals. */
module Percentile {

  ghost predicate Sorted(s: seq<real>) {
    forall i, j :: 0 <= i < j < |s| ==> s[i] <= s[j]
  }

  /** `s` holds the values of `values`, each as often, in ascending order. */
  ghost predicate IsSorting(s: seq<real>, values: seq<real>) {
    Sorted(s) && multiset(s) == multiset(values)
  }

  method Exchange(a: array<real>, i: nat, j: nat)
    requires i < j < a.Length
    modifies a
    ensures a[..] == old(a[..])[i := old(a[j])][j := old(a[i])]
    ensures multiset(a[..]) == old(multiset(a[..]))
  {
    a[i], a[j] := a[j], a[i];
  }

  /** Nothing from position `i` on is smaller than what stands before it, which is in order. */
  ghost predicate FrontSorted(s: seq<real>, i: nat) {
    forall x, y :: 0 <= x < y < |s| && x < i ==> s[x] <= s[y]
  }

  /** Of the positions from `i` up to `j`, the value at `i` is the least. */
  ghost predicate LeastUpTo(s: seq<real>, i: nat, j: nat) {
    i < |s| && forall k :: i < k < j && k < |s| ==> s[i] <= s[k]
  }

  lemma ExchangeKeepsFront(s: seq<real>, i: nat, j: nat)
    requires i < j < |s| && FrontSorted(s, i)
    ensures FrontSorted(s[i := s[j]][j := s[i]], i)
  {
  }

  lemma ExchangeMakesLeast(s: seq<real>, i: nat, j: nat)
    requires i < j < |s| && LeastUpTo(s, i, j) && s[i] > s[j]
    ensures LeastUpTo(s[i := s[j]][j := s[i]], i, j + 1)
  {
  }

  lemma LeastExtendsFront(s: seq<real>, i: nat)
    requires i < |s| && FrontSorted(s, i) && LeastUpTo(s, i, |s|)
    ensures FrontSorted(s, i + 1)
  {
  }

  /** One round of the sort: the smallest of the rest comes to position `i`. */
  method ExchangeRound(a: array<real>, i: nat)
    requires i < a.Length && FrontSorted(a[..], i)
    modifies a
    ensures FrontSorted(a[..], i + 1)
    ensures multiset(a[..]) == old(multiset(a[..]))
  {
    for j := i + 1 to a.Length
      invariant FrontSorted(a[..], i) && LeastUpTo(a[..], i, j)
      invariant multiset(a[..]) == old(multiset(a[..]))
    {
      if a[i] > a[j] {
        ExchangeKeepsFront(a[..], i, j);
        ExchangeMakesLeast(a[..], i, j);
        Exchange(a, i, j);
      }
    }
    LeastExtendsFront(a[..], i);
  }

  /** The exchange sort, in place. */
  method ExchangeSort(a: array<real>)
    modifies a
    ensures IsSorting(a[..], old(a[..]))
  {
    for i := 0 to a.Length
      invariant FrontSorted(a[..], i)
      invariant multiset(a[..]) == old(multiset(a[..]))
    {
      ExchangeRound(a, i);
    }
  }

  /** Go's conversion of an index above -1 to an integer: towards zero. */
  function Truncate(index: real): (n: nat)
    requires index > -1.0
    ensures index >= 0.0 ==> n as real <= index < n as real + 1.0
  {
    if index >= 0.0 then index.Floor else 0
  }

  /** The fractional position of the percentile among `n` values. */
  function Index(p: real, n: nat): real {
    p * (n as real - 1.0)
  }

  /** The percentile of values in ascending order. */
  function OfSorted(s: seq<real>, p: real): real
    requires s != [] && Index(p, |s|) > -1.0
  {
    var index := Index(p, |s|);
    var lower := Truncate(index);
    if lower + 1 >= |s| then s[|s| - 1]
    else
      var weight := index - lower as real;
      s[lower] * (1.0 - weight) + s[lower + 1] * weight
  }

  /** Depends on nothing but which values there are and how often: the input is not touched, and
      the result is that of any sorting of it. */
  method Percentile(values: array<real>, percentile: real) returns (r: real)
    requires values.Length > 0 ==> Index(percentile, values.Length) > -1.0
    ensures values.Length == 0 ==> r == 0.0
    ensures values.Length > 0 ==>
              exists s :: IsSorting(s, values[..]) && |s| == values.Length && r == OfSorted(s, percentile)
    ensures forall s :: IsSorting(s, values[..]) && values.Length > 0 ==>
              |s| == values.Length && r == OfSorted(s, percentile)
  {
    if values.Length == 0 {
      return 0.0;
    }
    var sorted := new real[values.Length];
    for i := 0 to values.Length
      invariant forall k :: 0 <= k < i ==> sorted[k] == values[k]
    {
      sorted[i] := values[i];
    }
    assert sorted[..] == values[..];
    ExchangeSort(sorted);
    var index := Index(percentile, sorted.Length);
    var lower := Truncate(index);
    var upper := lower + 1;
    if upper >= sorted.Length {
      r := sorted[sorted.Length - 1];
    } else {
      var weight := index - lower as real;
      r := sorted[lower] * (1.0 - weight) + sorted[upper] * weight;
    }
    assert IsSorting(sorted[..], values[..]) && r == OfSorted(sorted[..], percentile);
    forall s | IsSorting(s, values[..]) ensures s == sorted[..] {
      SortingUnique(s, sorted[..]);
    }
  }

  lemma SameCount(s: seq<real>, t: seq<real>)
    requires multiset(s) == multiset(t)
    ensures |s| == |t|
  {
    assert |multiset(s)| == |s| && |multiset(t)| == |t|;
  }

  lemma HeadMultiset(s: seq<real>)
    requires s != []
    ensures multiset(s[1..]) == multiset(s) - multiset{s[0]}
  {
    assert s == [s[0]] + s[1..];
  }

  lemma SameHead(s: seq<real>, t: seq<real>)
    requires Sorted(s) && Sorted(t) && multiset(s) == multiset(t) && s != [] && t != []
    ensures s[0] == t[0]
  {
    assert s[0] in multiset(t) && t[0] in multiset(s);
    var i :| 0 <= i < |t| && t[i] == s[0];
    var j :| 0 <= j < |s| && s[j] == t[0];
  }

  /** There is only one way to sort. */
  lemma {:induction false} SortingUnique(s: seq<real>, t: seq<real>)
    requires Sorted(s) && Sorted(t) && multiset(s) == multiset(t)
    ensures s == t
  {
    SameCount(s, t);
    if s == [] {
    } else {
      SameHead(s, t);
      HeadMultiset(s);
      HeadMultiset(t);
      var s1, t1 := s[1..], t[1..];
      SortingUnique(s1, t1);
      assert s == [s[0]] + s1 && t == [t[0]] + t1;
    }
  }

  // ---------- what a percentile is ----------

  lemma Interpolated(a: real, b: real, v: real, w: real)
    requires a <= b && 0.0 <= v <= w <= 1.0
    ensures a <= a * (1.0 - v) + b * v <= a * (1.0 - w) + b * w <= b
  {
    var d := b - a;
    assert a * (1.0 - v) + b * v == a + d * v;
    assert a * (1.0 - w) + b * w == a + d * w;
    assert 0.0 <= d * v <= d * w <= d * 1.0;
  }

  lemma IndexMono(p: real, q: real, n: nat)
    requires n > 0 && p <= q
    ensures Index(p, n) <= Index(q, n)
  {
    var m := n as real - 1.0;
    assert Index(q, n) - Index(p, n) == (q - p) * m;
    assert (q - p) * m >= 0.0;
  }

  lemma IndexEnds(n: nat)
    ensures Index(0.0, n) == 0.0 && Index(1.0, n) == n as real - 1.0
  {
  }

  /** Greater percentiles lie further on; 0 is the first position and 1 the last. */
  lemma IndexGrows(p: real, q: real, n: nat)
    requires n > 0 && 0.0 <= p <= q
    ensures 0.0 <= Index(p, n) <= Index(q, n) && Truncate(Index(p, n)) <= Truncate(Index(q, n))
    ensures p == 0.0 ==> Index(p, n) == 0.0
    ensures q >= 1.0 ==> Index(q, n) >= n as real - 1.0
  {
    IndexEnds(n);
    IndexMono(0.0, p, n);
    IndexMono(p, q, n);
    if q >= 1.0 {
      IndexMono(1.0, q, n);
    }
  }

  /** Where the interpolation happens, it stays between its two neighbours. */
  lemma Segment(s: seq<real>, p: real)
    requires Sorted(s) && s != [] && 0.0 <= p
    ensures Index(p, |s|) >= 0.0
    ensures var lower := Truncate(Index(p, |s|));
            lower + 1 < |s| ==> s[lower] <= OfSorted(s, p) <= s[lower + 1]
  {
    IndexGrows(p, p, |s|);
    var index := Index(p, |s|);
    var lower := Truncate(index);
    if lower + 1 < |s| {
      Interpolated(s[lower], s[lower + 1], index - lower as real, index - lower as real);
    }
  }

  /** Between minimum and maximum, and equal to them at the ends. */
  lemma WithinRange(s: seq<real>, p: real)
    requires Sorted(s) && s != [] && 0.0 <= p
    ensures Index(p, |s|) >= 0.0
    ensures s[0] <= OfSorted(s, p) <= s[|s| - 1]
    ensures p == 0.0 ==> OfSorted(s, p) == s[0]
    ensures p >= 1.0 ==> OfSorted(s, p) == s[|s| - 1]
  {
    Segment(s, p);
    IndexGrows(p, p, |s|);
    var lower := Truncate(Index(p, |s|));
    assert lower + 1 < |s| ==> s[0] <= s[lower] && s[lower + 1] <= s[|s| - 1];
  }

  /** Monotone in the percentile, within a segment and across segments. */
  lemma Monotone(s: seq<real>, p: real, q: real)
    requires Sorted(s) && s != [] && 0.0 <= p <= q
    ensures Index(p, |s|) >= 0.0 && Index(q, |s|) >= 0.0
    ensures OfSorted(s, p) <= OfSorted(s, q)
  {
    IndexGrows(p, q, |s|);
    Segment(s, p);
    Segment(s, q);
    WithinRange(s, p);
    var lower, upper := Truncate(Index(p, |s|)), Truncate(Index(q, |s|));
    if lower == upper && upper + 1 < |s| {
      SameSegment(s, p, q);
    } else {
      assert upper + 1 < |s| ==> s[lower + 1] <= s[upper];
    }
  }

  lemma SameSegment(s: seq<real>, p: real, q: real)
    requires Sorted(s) && s != [] && 0.0 <= Index(p, |s|) <= Index(q, |s|)
    requires Truncate(Index(p, |s|)) == Truncate(Index(q, |s|)) < |s| - 1
    ensures OfSorted(s, p) <= OfSorted(s, q)
  {
    var lower := Truncate(Index(p, |s|));
    Interpolated(s[lower], s[lower + 1], Index(p, |s|) - lower as real, Index(q, |s|) - lower as real);
  }

  // ---------- what lies between two values ----------

  /** The percentile lies on the way from value `k` to the next one. */
  predicate OnSegment(n: nat, p: real, k: nat) {
    k + 1 < n && k as real <= Index(p, n) <= k as real + 1.0
  }

  lemma OnWay(a: real, b: real, w: real)
    ensures a * (1.0 - w) + b * w == a + (b - a) * w
  {
  }

  lemma TruncateIs(index: real, k: nat)
    requires k as real <= index < k as real + 1.0
    ensures Truncate(index) == k
  {
  }

  lemma BeforeNode(s: seq<real>, p: real, k: nat)
    requires k + 1 < |s| && k as real <= Index(p, |s|) < k as real + 1.0
    ensures OfSorted(s, p) == s[k] + (s[k + 1] - s[k]) * (Index(p, |s|) - k as real)
  {
    TruncateIs(Index(p, |s|), k);
    OnWay(s[k], s[k + 1], Index(p, |s|) - k as real);
  }

  lemma OnNode(s: seq<real>, p: real, k: nat)
    requires k < |s| && Index(p, |s|) == k as real
    ensures OfSorted(s, p) == s[k]
  {
    if k + 1 < |s| {
      BeforeNode(s, p, k);
    }
  }

  /** On a segment the result goes from one value to the next in a straight line, ends included. */
  lemma StraightLine(s: seq<real>, p: real, k: nat)
    requires OnSegment(|s|, p, k)
    ensures OfSorted(s, p) == s[k] + (s[k + 1] - s[k]) * (Index(p, |s|) - k as real)
  {
    if Index(p, |s|) < k as real + 1.0 {
      BeforeNode(s, p, k);
    } else {
      OnNode(s, p, k + 1);
      assert Index(p, |s|) - k as real == 1.0;
    }
  }

  lemma QuotientIndex(x: real, n: nat)
    requires n > 1
    ensures Index(x / (n as real - 1.0), n) == x
  {
  }

  /** At `k / (n - 1)` the result is value `k`. */
  lemma AtNode(s: seq<real>, k: nat)
    requires |s| > 1 && k < |s|
    ensures Index(k as real / (|s| as real - 1.0), |s|) >= 0.0
    ensures OfSorted(s, k as real / (|s| as real - 1.0)) == s[k]
  {
    QuotientIndex(k as real, |s|);
    OnNode(s, k as real / (|s| as real - 1.0), k);
  }

  /** `w` of the way from `a` to `b`. */
  function Mix(a: real, b: real, w: real): real {
    a + (b - a) * w
  }

  lemma MixedIndex(p: real, q: real, w: real, n: nat)
    ensures Index(Mix(p, q, w), n) == Mix(Index(p, n), Index(q, n), w)
  {
    var m := n as real - 1.0;
    assert (q * m - p * m) * w == ((q - p) * w) * m;
  }

  lemma MixedUp(a: real, b: real, w: real)
    requires a <= b && 0.0 <= w <= 1.0
    ensures a <= Mix(a, b, w) <= b
  {
    var d := b - a;
    Part(d, w);
    assert Mix(a, b, w) == a + d * w;
  }

  lemma Part(d: real, w: real)
    requires 0.0 <= d && 0.0 <= w <= 1.0
    ensures 0.0 <= d * w <= d
  {
    assert d * (1.0 - w) >= 0.0;
    assert d * (1.0 - w) == d - d * w;
  }

  lemma MixedBetween(a: real, b: real, w: real, low: real, high: real)
    requires low <= a <= high && low <= b <= high && 0.0 <= w <= 1.0
    ensures low <= Mix(a, b, w) <= high
  {
    if a <= b {
      MixedUp(a, b, w);
    } else {
      MixedUp(b, a, 1.0 - w);
      MixedBack(a, b, w);
    }
  }

  lemma MixedBack(a: real, b: real, w: real)
    ensures Mix(a, b, w) == Mix(b, a, 1.0 - w)
  {
  }

  /** A straight line takes a mix to the same mix. */
  lemma MixedLine(x: real, slope: real, a: real, b: real, w: real)
    ensures x + slope * Mix(a, b, w) == Mix(x + slope * a, x + slope * b, w)
  {
    var d := b - a;
    assert slope * (a + d * w) == slope * a + (slope * d) * w;
    assert slope * d == slope * b - slope * a;
  }

  lemma MixedShift(a: real, b: real, c: real, w: real)
    ensures Mix(a, b, w) - c == Mix(a - c, b - c, w)
  {
  }

  lemma MixStays(n: nat, p: real, q: real, w: real, k: nat)
    requires OnSegment(n, p, k) && OnSegment(n, q, k) && 0.0 <= w <= 1.0
    ensures OnSegment(n, Mix(p, q, w), k)
  {
    MixedIndex(p, q, w, n);
    MixedBetween(Index(p, n), Index(q, n), w, k as real, k as real + 1.0);
  }

  lemma LineAt(s: seq<real>, p: real, k: nat, x: real, slope: real, base: real, i: real)
    requires OnSegment(|s|, p, k) && x == s[k] && slope == s[k + 1] - s[k] && base == k as real && i == Index(p, |s|)
    ensures OfSorted(s, p) == x + slope * (i - base)
  {
    StraightLine(s, p, k);
  }

  /** At a mix of two percentiles of one segment the result is the same mix of their results. */
  lemma MixOnSegment(s: seq<real>, p: real, q: real, w: real, k: nat)
    requires OnSegment(|s|, p, k) && OnSegment(|s|, q, k) && 0.0 <= w <= 1.0
    ensures OnSegment(|s|, Mix(p, q, w), k)
    ensures OfSorted(s, Mix(p, q, w)) == Mix(OfSorted(s, p), OfSorted(s, q), w)
  {
    MixStays(|s|, p, q, w, k);
    MixResult(s, p, q, w, k, Mix(p, q, w), s[k], s[k + 1] - s[k], k as real, Index(p, |s|), Index(q, |s|));
  }

  lemma MixResult(s: seq<real>, p: real, q: real, w: real, k: nat, r: real,
                  x: real, slope: real, base: real, i: real, j: real)
    requires OnSegment(|s|, p, k) && OnSegment(|s|, q, k) && r == Mix(p, q, w) && OnSegment(|s|, r, k)
    requires x == s[k] && slope == s[k + 1] - s[k] && base == k as real && i == Index(p, |s|) && j == Index(q, |s|)
    ensures OfSorted(s, r) == Mix(OfSorted(s, p), OfSorted(s, q), w)
  {
    var m := Index(r, |s|);
    assert m == Mix(i, j, w) by {
      MixedIndex(p, q, w, |s|);
    }
    LineAt(s, p, k, x, slope, base, i);
    LineAt(s, q, k, x, slope, base, j);
    LineAt(s, r, k, x, slope, base, m);
    MixedResults(x, slope, i, j, base, w, m);
  }

  lemma MixedResults(x: real, slope: real, i: real, j: real, base: real, w: real, m: real)
    requires m == Mix(i, j, w)
    ensures x + slope * (m - base) == Mix(x + slope * (i - base), x + slope * (j - base), w)
  {
    MixedShift(i, j, base, w);
    MixedLine(x, slope, i - base, j - base, w);
  }

  /** Half-way between two values the result is their mean: the median of two values, for one. */
  lemma AtMidpoint(s: seq<real>, k: nat)
    requires k + 1 < |s|
    ensures Index((k as real + 0.5) / (|s| as real - 1.0), |s|) >= 0.0
    ensures OfSorted(s, (k as real + 0.5) / (|s| as real - 1.0)) == (s[k] + s[k + 1]) / 2.0
  {
    QuotientIndex(k as real + 0.5, |s|);
    StraightLine(s, (k as real + 0.5) / (|s| as real - 1.0), k);
  }

  // ---------- other units ----------

  function Each(s: seq<real>, g: real -> real): (r: seq<real>)
    ensures |r| == |s| && forall i :: 0 <= i < |s| ==> r[i] == g(s[i])
  {
    seq(|s|, i requires 0 <= i < |s| => g(s[i]))
  }

  /** Scaled and shifted. */
  function Unit(factor: real, shift: real): real -> real {
    x => factor * x + shift
  }

  lemma UnitMix(a: real, b: real, w: real, factor: real, shift: real)
    ensures Unit(factor, shift)(a) * (1.0 - w) + Unit(factor, shift)(b) * w ==
            Unit(factor, shift)(a * (1.0 - w) + b * w)
  {
    OnWay(a, b, w);
    OnWay(factor * a + shift, factor * b + shift, w);
    MixedLine(shift, factor, a, b, w);
  }

  /** Scaling and shifting all values does the same to the result. */
  lemma UnitResult(s: seq<real>, p: real, factor: real, shift: real)
    requires s != [] && Index(p, |s|) > -1.0
    ensures OfSorted(Each(s, Unit(factor, shift)), p) == factor * OfSorted(s, p) + shift
  {
    var index := Index(p, |s|);
    var lower := Truncate(index);
    if lower + 1 < |s| {
      UnitMix(s[lower], s[lower + 1], index - lower as real, factor, shift);
    }
  }

  lemma UnitOrder(a: real, b: real, factor: real, shift: real)
    requires a <= b && 0.0 <= factor
    ensures Unit(factor, shift)(a) <= Unit(factor, shift)(b)
  {
    assert factor * (b - a) >= 0.0;
    assert factor * (b - a) == factor * b - factor * a;
  }

  lemma EachSorted(s: seq<real>, g: real -> real)
    requires Sorted(s) && forall a, b :: a <= b ==> g(a) <= g(b)
    ensures Sorted(Each(s, g))
  {
  }

  lemma Without(s: seq<real>, j: nat)
    requires j < |s|
    ensures multiset(s) == multiset(s[..j] + s[j + 1..]) + multiset{s[j]}
  {
    assert s == s[..j] + [s[j]] + s[j + 1..];
  }

  lemma EachWithout(s: seq<real>, g: real -> real, j: nat)
    requires j < |s|
    ensures multiset(Each(s, g)) == multiset(Each(s[..j] + s[j + 1..], g)) + multiset{g(s[j])}
  {
    var t := Each(s, g);
    Without(t, j);
    assert Each(s[..j] + s[j + 1..], g) == t[..j] + t[j + 1..];
  }

  lemma Cancel(a: multiset<real>, b: multiset<real>, x: real)
    requires a + multiset{x} == b + multiset{x}
    ensures a == b
  {
    assert a == (a + multiset{x}) - multiset{x} && b == (b + multiset{x}) - multiset{x};
  }

  lemma SameWithout(s: seq<real>, t: seq<real>, i: nat, j: nat)
    requires multiset(s) == multiset(t) && i < |s| && j < |t| && s[i] == t[j]
    ensures multiset(s[..i] + s[i + 1..]) == multiset(t[..j] + t[j + 1..])
  {
    Without(s, i);
    Without(t, j);
    Cancel(multiset(s[..i] + s[i + 1..]), multiset(t[..j] + t[j + 1..]), s[i]);
  }

  lemma EachTogether(s: seq<real>, t: seq<real>, g: real -> real, i: nat, j: nat)
    requires i < |s| && j < |t| && s[i] == t[j]
    requires multiset(Each(s[..i] + s[i + 1..], g)) == multiset(Each(t[..j] + t[j + 1..], g))
    ensures multiset(Each(s, g)) == multiset(Each(t, g))
  {
    EachWithout(s, g, i);
    EachWithout(t, g, j);
  }

  /** Equal values stay equal values, each as often. */
  lemma {:induction false} EachMultiset(s: seq<real>, t: seq<real>, g: real -> real)
    requires multiset(s) == multiset(t)
    ensures multiset(Each(s, g)) == multiset(Each(t, g))
    decreases |s|
  {
    SameCount(s, t);
    if s == [] {
    } else {
      var j := Among(s[0], t);
      SameWithout(s, t, 0, j);
      EachMultiset(s[..0] + s[1..], t[..j] + t[j + 1..], g);
      EachTogether(s, t, g, 0, j);
    }
  }

  lemma Among(x: real, t: seq<real>) returns (j: nat)
    requires x in multiset(t)
    ensures j < |t| && t[j] == x
  {
    j :| j < |t| && t[j] == x;
  }

  /** So in other units, with a factor that is not negative, the sorted values are the old ones in the
      new units. */
  lemma UnitSorting(s: seq<real>, values: seq<real>, factor: real, shift: real)
    requires IsSorting(s, values) && 0.0 <= factor
    ensures IsSorting(Each(s, Unit(factor, shift)), Each(values, Unit(factor, shift)))
  {
    var g := Unit(factor, shift);
    forall a, b | a <= b ensures g(a) <= g(b) {
      UnitOrder(a, b, factor, shift);
    }
    EachSorted(s, g);
    EachMultiset(s, values, g);
  }

  /** The median of 1 and 2. */
  lemma MedianHere()
    ensures Index(0.5, 2) > -1.0 && OfSorted([1.0, 2.0], 0.5) == 1.5
  {
    AtMidpoint([1.0, 2.0], 0);
  }
}
