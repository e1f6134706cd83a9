/** The latency percentiles of a traffic bucket. */
module Percentile {
  import opened Ordering

  predicate RealLess(a: real, b: real) {
    a < b
  }

  ghost predicate Rising(s: seq<real>) {
    forall i, j | 0 <= i <= j < |s| :: s[i] <= s[j]
  }

  lemma {:induction false} SortedReals(values: seq<real>)
    ensures var s := Sort(RealLess, values);
            |s| == |values| && multiset(s) == multiset(values) && Rising(s) && forall v :: v in s <==> v in values
  {
    SortSorts(RealLess, values);
    SameElements(Sort(RealLess, values), values);
  }

  function Sorted(values: seq<real>): (s: seq<real>)
    ensures |s| == |values| && Rising(s)
  {
    SortedReals(values);
    Sort(RealLess, values)
  }

  function Ceil(x: real): int {
    if x == x.Floor as real then x.Floor else x.Floor + 1
  }

  /** A value between two others, as far along as `frac` says. */
  function Mix(a: real, b: real, frac: real): real {
    a * (1.0 - frac) + b * frac
  }

  /** Reading a list at a position that may fall between two of its values. */
  function ReadAt(s: seq<real>, x: real): real
    requires 0.0 <= x <= (|s| - 1) as real
  {
    var lower, upper := x.Floor, Ceil(x);
    if lower == upper || upper >= |s| then s[lower] else Mix(s[lower], s[upper], x - lower as real)
  }

  lemma {:induction false} ProductSign(a: real, b: real)
    requires 0.0 <= a && 0.0 <= b
    ensures 0.0 <= a * b
  {
  }

  /** Where percentile `p` of `n` values lies. */
  function Spot(n: nat, p: real): (x: real)
    requires n > 0 && 0.0 <= p <= 1.0
    ensures 0.0 <= x <= (n - 1) as real
  {
    var m := (n - 1) as real;
    ProductSign(p, m);
    ProductSign(1.0 - p, m);
    p * m
  }

  function PercentileOf(values: seq<real>, p: real): real
    requires 0.0 <= p <= 1.0
  {
    if values == [] then 0.0 else ReadAt(Sorted(values), Spot(|values|, p))
  }

  /** The library sort, in place. */
  method SortReals(a: array<real>)
    modifies a
    ensures a[..] == Sorted(old(a[..])) && multiset(a[..]) == multiset(old(a[..]))
  {
    SortedReals(a[..]);
    var s := Sorted(a[..]);
    for i := 0 to a.Length
      invariant a[..i] == s[..i]
    {
      a[i] := s[i];
      assert a[..i + 1] == a[..i] + [s[i]] && s[..i + 1] == s[..i] + [s[i]];
    }
    assert a[..] == a[..a.Length] && s == s[..a.Length];
  }

  /** The samples are sorted where they are, and none is lost. */
  method Compute(values: array<real>, p: real) returns (r: real)
    requires 0.0 <= p <= 1.0
    modifies values
    ensures r == PercentileOf(old(values[..]), p)
    ensures multiset(values[..]) == multiset(old(values[..]))
  {
    if values.Length == 0 {
      return 0.0;
    }
    SortReals(values);
    var idx := Spot(values.Length, p);
    var lower, upper := idx.Floor, Ceil(idx);
    if lower == upper || upper >= values.Length {
      return values[lower];
    }
    r := Mix(values[lower], values[upper], idx - lower as real);
  }

  lemma {:induction false} MixIsBetween(a: real, b: real, frac: real)
    requires a <= b && 0.0 <= frac <= 1.0
    ensures a <= Mix(a, b, frac) <= b
  {
    assert Mix(a, b, frac) == a + (b - a) * frac;
    ProductSign(b - a, frac);
    ProductSign(b - a, 1.0 - frac);
  }

  lemma {:induction false} MixRises(a: real, b: real, f: real, g: real)
    requires a <= b && f <= g
    ensures Mix(a, b, f) <= Mix(a, b, g)
  {
    assert Mix(a, b, g) - Mix(a, b, f) == (b - a) * (g - f);
    ProductSign(b - a, g - f);
  }

  lemma {:induction false} ReadBetweenNeighbours(s: seq<real>, x: real)
    requires 0.0 <= x <= (|s| - 1) as real && Rising(s)
    ensures s[x.Floor] <= ReadAt(s, x)
    ensures x.Floor + 1 < |s| ==> ReadAt(s, x) <= s[x.Floor + 1]
    ensures x.Floor + 1 >= |s| ==> ReadAt(s, x) == s[x.Floor]
  {
    var lower := x.Floor;
    if x != lower as real {
      MixIsBetween(s[lower], s[lower + 1], x - lower as real);
    }
  }

  lemma {:induction false} ReadRises(s: seq<real>, x: real, y: real)
    requires 0.0 <= x <= y <= (|s| - 1) as real && Rising(s)
    ensures ReadAt(s, x) <= ReadAt(s, y)
  {
    ReadBetweenNeighbours(s, x);
    ReadBetweenNeighbours(s, y);
    if x.Floor == y.Floor {
      var k := x.Floor;
      if x != k as real {
        MixRises(s[k], s[k + 1], x - k as real, y - k as real);
      }
    } else {
      assert x.Floor + 1 <= y.Floor;
    }
  }

  lemma {:induction false} SpotRises(n: nat, p: real, q: real)
    requires n > 0 && 0.0 <= p <= q <= 1.0
    ensures Spot(n, p) <= Spot(n, q) && Spot(n, 0.0) == 0.0 && Spot(n, 1.0) == (n - 1) as real
  {
    ProductSign(q - p, (n - 1) as real);
  }

  /** A higher percentile is never smaller. */
  lemma {:induction false} PercentileRises(values: seq<real>, p: real, q: real)
    requires 0.0 <= p <= q <= 1.0
    ensures PercentileOf(values, p) <= PercentileOf(values, q)
  {
    if values != [] {
      SpotRises(|values|, p, q);
      ReadRises(Sorted(values), Spot(|values|, p), Spot(|values|, q));
    }
  }

  /** Every percentile lies between the least and the greatest sample. */
  lemma {:induction false} PercentileIsInRange(values: seq<real>, p: real)
    requires 0.0 <= p <= 1.0 && values != []
    ensures PercentileOf(values, 0.0) <= PercentileOf(values, p) <= PercentileOf(values, 1.0)
    ensures PercentileOf(values, 0.0) in values && forall v <- values :: PercentileOf(values, 0.0) <= v
    ensures PercentileOf(values, 1.0) in values && forall v <- values :: v <= PercentileOf(values, 1.0)
  {
    PercentileRises(values, 0.0, p);
    PercentileRises(values, p, 1.0);
    SortedReals(values);
    var s := Sorted(values);
    SpotRises(|values|, 0.0, 1.0);
    assert PercentileOf(values, 0.0) == s[0] && PercentileOf(values, 1.0) == s[|s| - 1];
    assert s[0] in s && s[|s| - 1] in s;
    forall v <- values ensures s[0] <= v <= s[|s| - 1] {
      assert v in s;
    }
  }

  lemma {:induction false} SameSorted(a: seq<real>, b: seq<real>)
    requires multiset(a) == multiset(b)
    ensures Sorted(a) == Sorted(b) && |a| == |b|
  {
    SortSorts(RealLess, a);
    SortSorts(RealLess, b);
    SortedUnique(RealLess, Sorted(a), Sorted(b));
    SameElements(a, b);
  }

  /** The order in which the samples arrived does not matter. */
  lemma {:induction false} PercentileIgnoresOrder(a: seq<real>, b: seq<real>, p: real)
    requires 0.0 <= p <= 1.0 && multiset(a) == multiset(b)
    ensures PercentileOf(a, p) == PercentileOf(b, p)
  {
    SameSorted(a, b);
  }
}
