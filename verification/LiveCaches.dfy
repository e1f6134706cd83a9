/** The live caches: logs cut at a retention cutoff, which must answer like a group-by over everything ever added. */
module LiveCaches {
  import opened Options
  import opened Ordering
  import opened TrafficPipeline

  // ---- A log that is trimmed from the front ----

  function Trim<P>(points: seq<P>, ts: P -> int, cutoff: int): seq<P> {
    if points == [] || ts(points[0]) >= cutoff then points else Trim(points[1..], ts, cutoff)
  }

  predicate InWindow(t: int, start: int, end: int) {
    start <= t <= end
  }

  /** The points of a window, in order. */
  function Window<P>(points: seq<P>, ts: P -> int, start: int, end: int): seq<P>
    decreases |points|
  {
    if points == [] then [] else
    var last := points[|points| - 1];
    Window(points[..|points| - 1], ts, start, end) + if InWindow(ts(last), start, end) then [last] else []
  }

  lemma {:induction false} WindowConcat<P>(a: seq<P>, b: seq<P>, ts: P -> int, start: int, end: int)
    ensures Window(a + b, ts, start, end) == Window(a, ts, start, end) + Window(b, ts, start, end)
    decreases |b|
  {
    if b == [] {
      assert a + b == a;
    } else {
      WindowConcat(a, b[..|b| - 1], ts, start, end);
      assert (a + b)[..|a + b| - 1] == a + b[..|b| - 1];
    }
  }

  /** Only points before the cutoff are dropped, so a window from the cutoff on loses nothing. */
  lemma {:induction false} TrimKeepsWindow<P>(points: seq<P>, ts: P -> int, cutoff: int, start: int, end: int)
    requires cutoff <= start
    ensures Window(Trim(points, ts, cutoff), ts, start, end) == Window(points, ts, start, end)
    decreases |points|
  {
    if points != [] && ts(points[0]) < cutoff {
      TrimKeepsWindow(points[1..], ts, cutoff, start, end);
      assert points == [points[0]] + points[1..];
      WindowConcat([points[0]], points[1..], ts, start, end);
      assert [points[0]][..0] == [];
      assert Window([points[0]], ts, start, end) == [];
    }
  }

  datatype Op<K, P> = Add(entries: seq<(K, P)>, cutoff: int) | Sweep(cutoff: int)

  function SeriesIn<K, P>(series: map<K, seq<P>>, k: K): seq<P> {
    if k in series then series[k] else []
  }

  function AddOne<K, P>(series: map<K, seq<P>>, ts: P -> int, e: (K, P), cutoff: int): map<K, seq<P>> {
    series[e.0 := Trim(SeriesIn(series, e.0) + [e.1], ts, cutoff)]
  }

  function AddEach<K, P>(series: map<K, seq<P>>, ts: P -> int, entries: seq<(K, P)>, cutoff: int): map<K, seq<P>>
    decreases |entries|
  {
    if entries == [] then series
    else AddOne(AddEach(series, ts, entries[..|entries| - 1], cutoff), ts, entries[|entries| - 1], cutoff)
  }

  function SweepAll<K, P(==)>(series: map<K, seq<P>>, ts: P -> int, cutoff: int): map<K, seq<P>> {
    map k | k in series && Trim(series[k], ts, cutoff) != [] :: Trim(series[k], ts, cutoff)
  }

  function Apply<K, P(==)>(series: map<K, seq<P>>, ts: P -> int, op: Op<K, P>): map<K, seq<P>> {
    match op
    case Add(entries, cutoff) => AddEach(series, ts, entries, cutoff)
    case Sweep(cutoff) => SweepAll(series, ts, cutoff)
  }

  function ApplyAll<K, P(==)>(ts: P -> int, ops: seq<Op<K, P>>): map<K, seq<P>>
    decreases |ops|
  {
    if ops == [] then map[] else Apply(ApplyAll(ts, ops[..|ops| - 1]), ts, ops[|ops| - 1])
  }

  function AddedTo<K(==), P>(entries: seq<(K, P)>, k: K): seq<P>
    decreases |entries|
  {
    if entries == [] then [] else
    var last := entries[|entries| - 1];
    AddedTo(entries[..|entries| - 1], k) + if last.0 == k then [last.1] else []
  }

  /** Every point ever added to a series. */
  function EverAdded<K(==), P>(ops: seq<Op<K, P>>, k: K): seq<P>
    decreases |ops|
  {
    if ops == [] then [] else
    var last := ops[|ops| - 1];
    EverAdded(ops[..|ops| - 1], k) + if last.Add? then AddedTo(last.entries, k) else []
  }

  lemma {:induction false} AddOneKeepsWindow<K, P>(series: map<K, seq<P>>, ts: P -> int, e: (K, P), cutoff: int, k: K,
      start: int, end: int)
    requires cutoff <= start
    ensures Window(SeriesIn(AddOne(series, ts, e, cutoff), k), ts, start, end)
            == Window(SeriesIn(series, k), ts, start, end) + Window(if e.0 == k then [e.1] else [], ts, start, end)
  {
    if e.0 == k {
      TrimKeepsWindow(SeriesIn(series, k) + [e.1], ts, cutoff, start, end);
      WindowConcat(SeriesIn(series, k), [e.1], ts, start, end);
    }
  }

  lemma {:induction false} AddKeepsWindow<K, P>(series: map<K, seq<P>>, ts: P -> int, entries: seq<(K, P)>, cutoff: int,
      k: K, start: int, end: int)
    requires cutoff <= start
    ensures Window(SeriesIn(AddEach(series, ts, entries, cutoff), k), ts, start, end)
            == Window(SeriesIn(series, k), ts, start, end) + Window(AddedTo(entries, k), ts, start, end)
    decreases |entries|
  {
    if entries != [] {
      var front, last := entries[..|entries| - 1], entries[|entries| - 1];
      AddKeepsWindow(series, ts, front, cutoff, k, start, end);
      AddOneKeepsWindow(AddEach(series, ts, front, cutoff), ts, last, cutoff, k, start, end);
      WindowConcat(AddedTo(front, k), if last.0 == k then [last.1] else [], ts, start, end);
    }
  }

  lemma {:induction false} SweepKeepsWindow<K, P>(series: map<K, seq<P>>, ts: P -> int, cutoff: int, k: K, start: int,
      end: int)
    requires cutoff <= start
    ensures Window(SeriesIn(SweepAll(series, ts, cutoff), k), ts, start, end)
              == Window(SeriesIn(series, k), ts, start, end)
  {
    if k in series {
      TrimKeepsWindow(series[k], ts, cutoff, start, end);
    }
  }

  /** After any additions and sweeps, a window that starts at or after every cutoff so far holds exactly the points
      ever added to it, in the order they were added. */
  lemma {:induction false} CacheHoldsTheWindow<K, P>(ts: P -> int, ops: seq<Op<K, P>>, k: K, start: int, end: int)
    requires forall op <- ops :: op.cutoff <= start
    ensures Window(SeriesIn(ApplyAll(ts, ops), k), ts, start, end) == Window(EverAdded(ops, k), ts, start, end)
    decreases |ops|
  {
    if ops != [] {
      var front, last := ops[..|ops| - 1], ops[|ops| - 1];
      assert last in ops;
      CacheHoldsTheWindow(ts, front, k, start, end);
      var before := ApplyAll(ts, front);
      if last.Add? {
        AddKeepsWindow(before, ts, last.entries, last.cutoff, k, start, end);
        WindowConcat(EverAdded(front, k), AddedTo(last.entries, k), ts, start, end);
      } else {
        SweepKeepsWindow(before, ts, last.cutoff, k, start, end);
        assert EverAdded(front, k) + [] == EverAdded(front, k);
      }
    }
  }

  class LiveCache<K(==), P(==)> {
    const ts: P -> int
    var series: map<K, seq<P>>

    constructor (ts: P -> int)
      ensures this.ts == ts && series == map[]
    {
      this.ts, series := ts, map[];
    }

    method Add(entries: seq<(K, P)>, cutoff: int)
      modifies this
      ensures series == Apply(old(series), ts, Op.Add(entries, cutoff))
    {
      for i := 0 to |entries|
        invariant series == AddEach(old(series), ts, entries[..i], cutoff)
      {
        assert entries[..i + 1][..i] == entries[..i];
        var points := if entries[i].0 in series then series[entries[i].0] else [];
        points := TrimPoints(points + [entries[i].1], ts, cutoff);
        series := series[entries[i].0 := points];
      }
      assert entries[..|entries|] == entries;
    }

    method Sweep(cutoff: int)
      modifies this
      ensures series == Apply(old(series), ts, Op.Sweep(cutoff))
    {
      var rest := series.Keys;
      while rest != {}
        invariant rest <= old(series).Keys && series.Keys <= old(series).Keys
        invariant forall k :: k in series <==> k in old(series) && (k in rest || Trim(old(series)[k], ts, cutoff) != [])
        invariant forall k <- series.Keys :: series[k] == if k in rest then old(series)[k]
                    else Trim(old(series)[k], ts, cutoff)
        decreases rest
      {
        var k :| k in rest;
        rest := rest - {k};
        var points := TrimPoints(series[k], ts, cutoff);
        if |points| == 0 {
          series := series - {k};
        } else {
          series := series[k := points];
        }
      }
    }
  }

  method TrimPoints<P>(points: seq<P>, ts: P -> int, cutoff: int) returns (kept: seq<P>)
    ensures kept == Trim(points, ts, cutoff)
  {
    var idx := 0;
    while idx < |points| && ts(points[idx]) < cutoff
      invariant idx <= |points|
      invariant Trim(points, ts, cutoff) == Trim(points[idx..], ts, cutoff)
    {
      assert points[idx..][1..] == points[idx + 1..];
      idx := idx + 1;
    }
    kept := points[idx..];
  }

  // ---- Grouping by bucket ----

  function BucketOf(t: int, step: int): int
    requires step > 0
  {
    TruncDiv(t, step) * step
  }

  predicate IntLess(a: int, b: int) {
    a < b
  }

  function Group<P>(points: seq<P>, ts: P -> int, b: int, step: int): seq<P>
    requires step > 0
    decreases |points|
  {
    if points == [] then [] else
    var last := points[|points| - 1];
    Group(points[..|points| - 1], ts, b, step) + if BucketOf(ts(last), step) == b then [last] else []
  }

  ghost function Buckets<P>(points: seq<P>, ts: P -> int, step: int): set<int>
    requires step > 0
  {
    set p | p in points :: BucketOf(ts(p), step)
  }

  lemma {:induction false} BucketsAppend<P>(points: seq<P>, p: P, ts: P -> int, step: int)
    requires step > 0
    ensures Buckets(points + [p], ts, step) == Buckets(points, ts, step) + {BucketOf(ts(p), step)}
  {
    forall b ensures b in Buckets(points + [p], ts, step)
        <==> b in Buckets(points, ts, step) || b == BucketOf(ts(p), step) {
      if b in Buckets(points, ts, step) {
        var q :| q in points && b == BucketOf(ts(q), step);
        assert q in points + [p];
      }
      assert p in points + [p];
    }
  }

  lemma {:induction false} GroupAppend<P>(points: seq<P>, p: P, ts: P -> int, b: int, step: int)
    requires step > 0
    ensures Group(points + [p], ts, b, step) == Group(points, ts, b, step) + if b == BucketOf(ts(p), step) then [p]
              else []
  {
    assert (points + [p])[..|points|] == points;
  }

  lemma {:induction false} GroupEmpty<P>(points: seq<P>, ts: P -> int, b: int, step: int)
    requires step > 0 && b !in Buckets(points, ts, step)
    ensures Group(points, ts, b, step) == []
    decreases |points|
  {
    if points != [] {
      var front, last := points[..|points| - 1], points[|points| - 1];
      assert points == front + [last];
      BucketsAppend(front, last, ts, step);
      GroupAppend(front, last, ts, b, step);
      GroupEmpty(front, ts, b, step);
    }
  }

  // ---- Traffic ----

  datatype TrafficCacheKey = TrafficCacheKey(namespace: string, app: string, env: string)

  function EntryTs(e: Entry): int {
    e.ts
  }

  datatype TrafficAcc = TrafficAcc(counts: Counts, sum50: real, sum95: real, sum99: real)

  const NO_TRAFFIC := TrafficAcc(TrafficPipeline.ZERO, 0.0, 0.0, 0.0)

  function Include(acc: TrafficAcc, e: Entry): TrafficAcc {
    var w := e.counts.requests as real;
    TrafficAcc(TrafficPipeline.Add(acc.counts, e.counts), acc.sum50 + e.p50 * w, acc.sum95 + e.p95 * w,
        acc.sum99 + e.p99 * w)
  }

  function SumOf(entries: seq<Entry>): TrafficAcc
    decreases |entries|
  {
    if entries == [] then NO_TRAFFIC else Include(SumOf(entries[..|entries| - 1]), entries[|entries| - 1])
  }

  datatype TrafficRow = TrafficRow(bucket: int, counts: Counts, p50: real, p95: real, p99: real)

  /** Sums, and latencies weighted by requests. */
  function RowOf(b: int, acc: TrafficAcc): TrafficRow {
    var n := acc.counts.requests as real;
    if acc.counts.requests > 0 then TrafficRow(b, acc.counts, acc.sum50 / n, acc.sum95 / n, acc.sum99 / n)
    else TrafficRow(b, acc.counts, 0.0, 0.0, 0.0)
  }

  /** What the store's query returns: a row per bucket that has points, in bucket order, with the sums of its group. */
  ghost predicate TrafficGroupBy(rows: seq<TrafficRow>, points: seq<Entry>, step: int)
    requires step > 0
  {
    && (forall i, j | 0 <= i < j < |rows| :: rows[i].bucket < rows[j].bucket)
    && (forall b :: b in Buckets(points, EntryTs, step) <==> exists i :: 0 <= i < |rows| && rows[i].bucket == b)
    && (forall i | 0 <= i < |rows| :: rows[i] == RowOf(rows[i].bucket, GroupSum(points, rows[i].bucket, step)))
  }

  function StepOr(step: int, default: int): int {
    if step <= 0 then default else step
  }

  function GroupSum(points: seq<Entry>, b: int, step: int): TrafficAcc
    requires step > 0
  {
    SumOf(Group(points, EntryTs, b, step))
  }

  lemma {:induction false} IncludeInGroup(points: seq<Entry>, p: Entry, b: int, step: int)
    requires step > 0
    ensures GroupSum(points + [p], b, step)
            == if b == BucketOf(p.ts, step) then Include(GroupSum(points, b, step), p) else GroupSum(points, b, step)
  {
    GroupAppend(points, p, EntryTs, b, step);
    var g := Group(points, EntryTs, b, step);
    assert (g + [p])[..|g|] == g && g + [] == g;
  }

  ghost predicate TrafficBuckets(buckets: map<int, TrafficAcc>, w: seq<Entry>, step: int)
    requires step > 0
  {
    && buckets.Keys == Buckets(w, EntryTs, step)
    && forall b <- buckets.Keys :: buckets[b] == GroupSum(w, b, step)
  }

  lemma {:induction false} TrafficStep(buckets: map<int, TrafficAcc>, w: seq<Entry>, p: Entry, step: int)
    requires step > 0 && TrafficBuckets(buckets, w, step)
    ensures var b := BucketOf(p.ts, step);
            TrafficBuckets(buckets[b := Include(if b in buckets then buckets[b] else NO_TRAFFIC, p)], w + [p], step)
  {
    var b := BucketOf(p.ts, step);
    var after := buckets[b := Include(if b in buckets then buckets[b] else NO_TRAFFIC, p)];
    BucketsAppend(w, p, EntryTs, step);
    if b !in buckets {
      GroupEmpty(w, EntryTs, b, step);
    }
    forall k <- after.Keys ensures after[k] == GroupSum(w + [p], k, step) {
      IncludeInGroup(w, p, k, step);
    }
  }

  method AccumulateTraffic(points: seq<Entry>, start: int, end: int, step: int) returns (buckets: map<int, TrafficAcc>)
    requires step > 0
    ensures TrafficBuckets(buckets, Window(points, EntryTs, start, end), step)
  {
    buckets := map[];
    ghost var w: seq<Entry> := [];
    for i := 0 to |points|
      invariant w == Window(points[..i], EntryTs, start, end)
      invariant TrafficBuckets(buckets, w, step)
    {
      var p := points[i];
      assert points[..i + 1][..i] == points[..i];
      if p.ts < start || p.ts > end {
        assert w + [] == w;
        continue;
      }
      TrafficStep(buckets, w, p, step);
      var b := BucketOf(p.ts, step);
      buckets := buckets[b := Include(if b in buckets then buckets[b] else NO_TRAFFIC, p)];
      w := w + [p];
    }
    assert points[..|points|] == points;
  }

  /** The traffic query over one series; an absent series gives no rows. */
  method QueryTraffic(cache: LiveCache<TrafficCacheKey, Entry>, key: TrafficCacheKey, start: int, end: int,
      askedStep: int) returns (rows: seq<TrafficRow>)
    requires cache.ts == EntryTs
    ensures TrafficGroupBy(rows, Window(SeriesIn(cache.series, key), EntryTs, start, end), StepOr(askedStep, 5))
  {
    var step := if askedStep <= 0 then 5 else askedStep;
    rows := [];
    if key !in cache.series {
      return;
    }
    var buckets := AccumulateTraffic(cache.series[key], start, end, step);
    rows := ListBuckets(buckets, Window(cache.series[key], EntryTs, start, end), step);
  }

  method ListBuckets(buckets: map<int, TrafficAcc>, ghost w: seq<Entry>, step: int) returns (rows: seq<TrafficRow>)
    requires step > 0 && TrafficBuckets(buckets, w, step)
    ensures TrafficGroupBy(rows, w, step)
  {
    var sorted := SortKeys(IntLess, buckets.Keys);
    rows := [];
    for i := 0 to |sorted|
      invariant |rows| == i
      invariant forall j | 0 <= j < i :: sorted[j] in buckets && rows[j] == RowOf(sorted[j], buckets[sorted[j]])
    {
      assert sorted[i] in Elements(sorted);
      rows := rows + [RowOf(sorted[i], buckets[sorted[i]])];
    }
    RowsAreGroupBy(rows, sorted, buckets, w, step);
  }

  lemma {:induction false} RowsAreGroupBy(rows: seq<TrafficRow>, sorted: seq<int>, buckets: map<int, TrafficAcc>,
      w: seq<Entry>, step: int)
    requires step > 0 && Ascending(IntLess, sorted) && Elements(sorted) == buckets.Keys == Buckets(w, EntryTs, step)
    requires forall b <- buckets.Keys :: buckets[b] == GroupSum(w, b, step)
    requires |rows| == |sorted|
    requires forall j | 0 <= j < |rows| :: sorted[j] in buckets && rows[j] == RowOf(sorted[j], buckets[sorted[j]])
    ensures TrafficGroupBy(rows, w, step)
  {
    forall i | 0 <= i < |rows| ensures rows[i].bucket == sorted[i] {
    }
    forall i, j | 0 <= i < j < |rows| ensures rows[i].bucket < rows[j].bucket {
      assert IntLess(sorted[i], sorted[j]);
    }
    forall b ensures b in Buckets(w, EntryTs, step) <==> exists i :: 0 <= i < |rows| && rows[i].bucket == b {
      if b in Buckets(w, EntryTs, step) {
        assert b in Elements(sorted);
        var i :| 0 <= i < |sorted| && sorted[i] == b;
        assert rows[i].bucket == b;
      }
      if i :| 0 <= i < |rows| && rows[i].bucket == b {
        assert sorted[i] in Elements(sorted);
      }
    }
  }

  /** A live answer over a window from the last cutoff on is the group-by over every row ever added to the series. */
  lemma {:induction false} LiveTrafficIsGroupBy(ops: seq<Op<TrafficCacheKey, Entry>>, key: TrafficCacheKey, start: int,
      end: int, step: int, rows: seq<TrafficRow>)
    requires step > 0 && forall op <- ops :: op.cutoff <= start
    requires TrafficGroupBy(rows, Window(SeriesIn(ApplyAll(EntryTs, ops), key), EntryTs, start, end), step)
    ensures TrafficGroupBy(rows, Window(EverAdded(ops, key), EntryTs, start, end), step)
  {
    CacheHoldsTheWindow(EntryTs, ops, key, start, end);
  }

  // ---- The buckets add up ----

  function MetricTotal(points: seq<Entry>, m: Metric): int
    decreases |points|
  {
    if points == [] then 0 else MetricTotal(points[..|points| - 1], m) + Get(points[|points| - 1].counts, m)
  }

  function RowTotal(rows: seq<TrafficRow>, m: Metric): int
    decreases |rows|
  {
    if rows == [] then 0 else RowTotal(rows[..|rows| - 1], m) + Get(rows[|rows| - 1].counts, m)
  }

  lemma {:induction false} SumOfTotals(points: seq<Entry>, m: Metric)
    ensures Get(SumOf(points).counts, m) == MetricTotal(points, m)
    decreases |points|
  {
    GetAdds(TrafficPipeline.ZERO, TrafficPipeline.ZERO, m);
    if points != [] {
      var front, last := points[..|points| - 1], points[|points| - 1];
      SumOfTotals(front, m);
      GetAdds(SumOf(front).counts, last.counts, m);
    }
  }

  function GroupTotals(points: seq<Entry>, bs: seq<int>, step: int, m: Metric): int
    requires step > 0
    decreases |bs|
  {
    if bs == [] then 0
    else GroupTotals(points, bs[..|bs| - 1], step, m) + MetricTotal(Group(points, EntryTs, bs[|bs| - 1], step), m)
  }

  lemma {:induction false} OneMorePoint(points: seq<Entry>, p: Entry, bs: seq<int>, step: int, m: Metric)
    requires step > 0 && NoDuplicates(bs)
    ensures GroupTotals(points + [p], bs, step, m)
            == GroupTotals(points, bs, step, m) + if BucketOf(p.ts, step) in bs then Get(p.counts, m) else 0
    decreases |bs|
  {
    if bs != [] {
      var front, b := bs[..|bs| - 1], bs[|bs| - 1];
      assert bs == front + [b];
      OneMorePoint(points, p, front, step, m);
      GroupAppend(points, p, EntryTs, b, step);
      var g := Group(points, EntryTs, b, step);
      assert (g + [p])[..|g|] == g && g + [] == g;
      assert b !in front;
    }
  }

  lemma {:induction false} GroupsAddUp(points: seq<Entry>, bs: seq<int>, step: int, m: Metric)
    requires step > 0 && NoDuplicates(bs) && forall p <- points :: BucketOf(p.ts, step) in bs
    ensures GroupTotals(points, bs, step, m) == MetricTotal(points, m)
    decreases |points|
  {
    if points == [] {
      NoPoints(bs, step, m);
    } else {
      var front, last := points[..|points| - 1], points[|points| - 1];
      assert points == front + [last] && last in points;
      GroupsAddUp(front, bs, step, m);
      OneMorePoint(front, last, bs, step, m);
    }
  }

  lemma {:induction false} NoPoints(bs: seq<int>, step: int, m: Metric)
    requires step > 0
    ensures GroupTotals([], bs, step, m) == 0
    decreases |bs|
  {
    if bs != [] {
      NoPoints(bs[..|bs| - 1], step, m);
    }
  }

  function RowBuckets(rows: seq<TrafficRow>): seq<int> {
    seq(|rows|, i requires 0 <= i < |rows| => rows[i].bucket)
  }

  lemma {:induction false} RowsAreGroups(rows: seq<TrafficRow>, points: seq<Entry>, step: int, m: Metric)
    requires step > 0
    requires forall i | 0 <= i < |rows| :: rows[i] == RowOf(rows[i].bucket, GroupSum(points, rows[i].bucket, step))
    ensures RowTotal(rows, m) == GroupTotals(points, RowBuckets(rows), step, m)
    decreases |rows|
  {
    if rows != [] {
      var front, last := rows[..|rows| - 1], rows[|rows| - 1];
      RowsAreGroups(front, points, step, m);
      assert RowBuckets(rows)[..|rows| - 1] == RowBuckets(front);
      SumOfTotals(Group(points, EntryTs, last.bucket, step), m);
      assert last == RowOf(last.bucket, GroupSum(points, last.bucket, step));
    }
  }

  /** The rows of a query add up to the window: requests, statuses and bytes alike, none lost and none shared. */
  lemma {:induction false} RowsAddUpToWindow(rows: seq<TrafficRow>, points: seq<Entry>, step: int, m: Metric)
    requires step > 0 && TrafficGroupBy(rows, points, step)
    ensures RowTotal(rows, m) == MetricTotal(points, m)
  {
    var bs := RowBuckets(rows);
    RowsAreGroups(rows, points, step, m);
    forall p <- points ensures BucketOf(p.ts, step) in bs {
      assert BucketOf(EntryTs(p), step) in Buckets(points, EntryTs, step);
      var i :| 0 <= i < |rows| && rows[i].bucket == BucketOf(p.ts, step);
      assert bs[i] == BucketOf(p.ts, step);
    }
    GroupsAddUp(points, bs, step, m);
  }

  // ---- Metrics ----

  datatype MetricsKey = MetricsKey(namespace: string, app: string, env: string, pod: string)

  datatype MetricPoint = MetricPoint(ts: int, cpu: real, memory: int)

  function PointTs(p: MetricPoint): int {
    p.ts
  }

  datatype MetricAcc = MetricAcc(cpuSum: real, memSum: real, count: nat)

  function SumPoints(points: seq<MetricPoint>): MetricAcc
    decreases |points|
  {
    if points == [] then NO_POINTS else
    IncludePoint(SumPoints(points[..|points| - 1]), points[|points| - 1])
  }

  datatype MetricRow = MetricRow(bucket: int, cpu: real, memory: real)

  /** The averages of a non-empty group. */
  function AverageOf(b: int, acc: MetricAcc): MetricRow
    requires acc.count > 0
  {
    MetricRow(b, acc.cpuSum / acc.count as real, acc.memSum / acc.count as real)
  }

  ghost predicate IsAverage(row: MetricRow, points: seq<MetricPoint>) {
    var acc := SumPoints(points);
    acc.count == |points| && acc.count > 0 && row == AverageOf(row.bucket, acc)
  }

  ghost predicate MetricsGroupBy(rows: seq<MetricRow>, points: seq<MetricPoint>, step: int)
    requires step > 0
  {
    && (forall i, j | 0 <= i < j < |rows| :: rows[i].bucket < rows[j].bucket)
    && (forall b :: b in Buckets(points, PointTs, step) <==> exists i :: 0 <= i < |rows| && rows[i].bucket == b)
    && (forall i | 0 <= i < |rows| :: IsAverage(rows[i], Group(points, PointTs, rows[i].bucket, step)))
  }

  lemma {:induction false} SumCount(points: seq<MetricPoint>)
    ensures SumPoints(points).count == |points|
    decreases |points|
  {
    if points != [] {
      SumCount(points[..|points| - 1]);
    }
  }

  ghost predicate MetricBuckets(buckets: map<int, MetricAcc>, w: seq<MetricPoint>, step: int)
    requires step > 0
  {
    && buckets.Keys == Buckets(w, PointTs, step)
    && forall b <- buckets.Keys :: buckets[b] == PointSum(w, b, step) && buckets[b].count > 0
  }

  function IncludePoint(acc: MetricAcc, p: MetricPoint): MetricAcc {
    MetricAcc(acc.cpuSum + p.cpu, acc.memSum + p.memory as real, acc.count + 1)
  }

  const NO_POINTS := MetricAcc(0.0, 0.0, 0)

  lemma {:induction false} MetricStep(buckets: map<int, MetricAcc>, w: seq<MetricPoint>, p: MetricPoint, step: int)
    requires step > 0 && MetricBuckets(buckets, w, step)
    ensures var b := BucketOf(p.ts, step);
            MetricBuckets(buckets[b := IncludePoint(if b in buckets then buckets[b] else NO_POINTS, p)], w + [p], step)
  {
    var b := BucketOf(p.ts, step);
    var after := buckets[b := IncludePoint(if b in buckets then buckets[b] else NO_POINTS, p)];
    BucketsAppend(w, p, PointTs, step);
    if b !in buckets {
      GroupEmpty(w, PointTs, b, step);
    }
    forall k <- after.Keys ensures after[k] == PointSum(w + [p], k, step) && after[k].count > 0 {
      PointInGroup(w, p, k, step);
    }
  }

  function PointSum(points: seq<MetricPoint>, b: int, step: int): MetricAcc
    requires step > 0
  {
    SumPoints(Group(points, PointTs, b, step))
  }

  lemma {:induction false} PointInGroup(points: seq<MetricPoint>, p: MetricPoint, b: int, step: int)
    requires step > 0
    ensures PointSum(points + [p], b, step)
            == if b == BucketOf(p.ts, step) then IncludePoint(PointSum(points, b, step), p)
               else PointSum(points, b, step)
  {
    GroupAppend(points, p, PointTs, b, step);
    var g := Group(points, PointTs, b, step);
    assert (g + [p])[..|g|] == g && g + [] == g;
  }

  method AccumulateMetrics(points: seq<MetricPoint>, start: int, end: int, step: int)
      returns (buckets: map<int, MetricAcc>)
    requires step > 0
    ensures MetricBuckets(buckets, Window(points, PointTs, start, end), step)
  {
    buckets := map[];
    ghost var w: seq<MetricPoint> := [];
    for i := 0 to |points|
      invariant w == Window(points[..i], PointTs, start, end)
      invariant MetricBuckets(buckets, w, step)
    {
      var p := points[i];
      assert points[..i + 1][..i] == points[..i];
      if p.ts < start || p.ts > end {
        assert w + [] == w;
        continue;
      }
      MetricStep(buckets, w, p, step);
      var b := BucketOf(p.ts, step);
      buckets := buckets[b := IncludePoint(if b in buckets then buckets[b] else NO_POINTS, p)];
      w := w + [p];
    }
    assert points[..|points|] == points;
  }

  method AverageRows(buckets: map<int, MetricAcc>, ghost w: seq<MetricPoint>, step: int) returns (rows: seq<MetricRow>)
    requires step > 0 && buckets.Keys == Buckets(w, PointTs, step)
    requires forall b <- buckets.Keys :: buckets[b] == PointSum(w, b, step) && buckets[b].count > 0
    ensures MetricsGroupBy(rows, w, step)
  {
    var sorted := SortKeys(IntLess, buckets.Keys);
    rows := [];
    for i := 0 to |sorted|
      invariant |rows| == i
      invariant forall j | 0 <= j < i :: rows[j].bucket == sorted[j] &&
                  IsAverage(rows[j], Group(w, PointTs, sorted[j], step))
    {
      assert sorted[i] in Elements(sorted);
      var acc := buckets[sorted[i]];
      SumCount(Group(w, PointTs, sorted[i], step));
      if acc.count == 0 {
        continue;
      }
      rows := rows + [AverageOf(sorted[i], acc)];
    }
    forall i, j | 0 <= i < j < |rows| ensures rows[i].bucket < rows[j].bucket {
      assert IntLess(sorted[i], sorted[j]);
    }
    forall b ensures b in Buckets(w, PointTs, step) <==> exists i :: 0 <= i < |rows| && rows[i].bucket == b {
      if b in Buckets(w, PointTs, step) {
        assert b in Elements(sorted);
        var i :| 0 <= i < |sorted| && sorted[i] == b;
        assert rows[i].bucket == b;
      }
      if i :| 0 <= i < |rows| && rows[i].bucket == b {
        assert sorted[i] in Elements(sorted);
      }
    }
  }

  datatype PodSeries = PodSeries(pod: string, rows: seq<MetricRow>)

  ghost function PodPoints(series: map<MetricsKey, seq<MetricPoint>>, namespace: string, app: string, env: string,
      pod: string, start: int, end: int): seq<MetricPoint> {
    Window(SeriesIn(series, MetricsKey(namespace, app, env, pod)), PointTs, start, end)
  }

  /** The pods handled so far: those with points have their group-by, those without are absent. */
  ghost predicate PodDone(rows: Option<seq<MetricRow>>, points: seq<MetricPoint>, step: int)
    requires step > 0
  {
    if rows.None? then points == [] else points != [] && MetricsGroupBy(rows.value, points, step)
  }

  function RowsFor(byPod: map<string, seq<MetricRow>>, pod: string): Option<seq<MetricRow>> {
    if pod in byPod then Some(byPod[pod]) else None
  }

  /** One series per pod that has points in the window, by name, each the group-by of its points. */
  method QueryMetrics(cache: LiveCache<MetricsKey, MetricPoint>, namespace: string, app: string, env: string,
      start: int, end: int, askedStep: int)
    returns (out: seq<PodSeries>)
    requires cache.ts == PointTs
    ensures forall i, j | 0 <= i < j < |out| :: StringLess(out[i].pod, out[j].pod)
    ensures forall s <- out :: PodDone(Some(s.rows), PodPoints(cache.series, namespace, app, env, s.pod, start, end),
              StepOr(askedStep, 1))
    ensures forall pod :: PodPoints(cache.series, namespace, app, env, pod, start, end) != [] ==>
              exists s <- out :: s.pod == pod
  {
    var step := if askedStep <= 0 then 1 else askedStep;
    var found: map<string, seq<MetricRow>> := map[];
    var rest := cache.series.Keys;
    while rest != {}
      invariant rest <= cache.series.Keys
      invariant forall pod <- found.Keys :: MetricsKey(namespace, app, env, pod) !in rest
      invariant forall pod :: MetricsKey(namespace, app, env, pod) !in rest ==>
                  PodDone(RowsFor(found, pod), PodPoints(cache.series, namespace, app, env, pod, start, end), step)
      decreases rest
    {
      var key :| key in rest;
      rest := rest - {key};
      if key.namespace != namespace || key.app != app || key.env != env {
        continue;
      }
      assert key == MetricsKey(namespace, app, env, key.pod);
      ghost var w := PodPoints(cache.series, namespace, app, env, key.pod, start, end);
      var buckets := AccumulateMetrics(cache.series[key], start, end, step);
      BucketsEmptyIff(w, step);
      if buckets != map[] {
        var rows := AverageRows(buckets, w, step);
        found := found[key.pod := rows];
      }
    }
    out := ListByPod(found);
    forall s <- out ensures PodDone(Some(s.rows), PodPoints(cache.series, namespace, app, env, s.pod, start, end),
        step) {
      assert RowsFor(found, s.pod) == Some(s.rows);
    }
    forall pod | PodPoints(cache.series, namespace, app, env, pod, start, end) != []
      ensures exists s <- out :: s.pod == pod
    {
      assert PodDone(RowsFor(found, pod), PodPoints(cache.series, namespace, app, env, pod, start, end), step);
      assert PodSeries(pod, found[pod]) in out;
    }
  }

  /** The pods in name order, each once. */
  ghost predicate ListsPods(out: seq<PodSeries>, byPod: map<string, seq<MetricRow>>) {
    && (forall i, j | 0 <= i < j < |out| :: StringLess(out[i].pod, out[j].pod))
    && (forall s <- out :: RowsFor(byPod, s.pod) == Some(s.rows))
    && (forall pod <- byPod.Keys :: PodSeries(pod, byPod[pod]) in out)
  }

  method ListByPod(byPod: map<string, seq<MetricRow>>) returns (out: seq<PodSeries>)
    ensures ListsPods(out, byPod)
  {
    var pods := SortNames(byPod.Keys);
    out := [];
    for i := 0 to |pods|
      invariant |out| == i
      invariant forall j | 0 <= j < i :: pods[j] in byPod && out[j] == PodSeries(pods[j], byPod[pods[j]])
    {
      assert pods[i] in Elements(pods);
      out := out + [PodSeries(pods[i], byPod[pods[i]])];
    }
    forall i, j | 0 <= i < j < |out| ensures StringLess(out[i].pod, out[j].pod) {
      assert StringLess(pods[i], pods[j]);
    }
    forall pod <- byPod.Keys ensures PodSeries(pod, byPod[pod]) in out {
      assert pod in Elements(pods);
      var i :| 0 <= i < |pods| && pods[i] == pod;
      assert out[i] == PodSeries(pod, byPod[pod]);
    }
  }

  lemma {:induction false} BucketsEmptyIff(points: seq<MetricPoint>, step: int)
    requires step > 0
    ensures points == [] <==> Buckets(points, PointTs, step) == {}
  {
    if points != [] {
      assert points[0] in points;
      assert BucketOf(PointTs(points[0]), step) in Buckets(points, PointTs, step);
    }
  }

  /** The same for metrics: the live answer is the group-by over every point ever added for the pod. */
  lemma {:induction false} LiveMetricsAreGroupBy(ops: seq<Op<MetricsKey, MetricPoint>>, key: MetricsKey, start: int,
      end: int, step: int, rows: seq<MetricRow>)
    requires step > 0 && forall op <- ops :: op.cutoff <= start
    requires MetricsGroupBy(rows, Window(SeriesIn(ApplyAll(PointTs, ops), key), PointTs, start, end), step)
    ensures MetricsGroupBy(rows, Window(EverAdded(ops, key), PointTs, start, end), step)
  {
    CacheHoldsTheWindow(PointTs, ops, key, start, end);
  }
}
