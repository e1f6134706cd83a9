/** From ingress log lines to stored traffic rows and Prometheus counters: nothing is lost or counted twice. */
module TrafficPipeline {
  import opened Options
  import opened Ordering
  import opened Percentile

  const SECOND := 1_000_000_000
  const MAX_SAMPLES := 1024
  const STALE_AFTER := 300

  // ---- Counts ----

  datatype Counts = Counts(requests: int, s2xx: int, s3xx: int, s4xx: int, s5xx: int, bytesIn: int, bytesOut: int)

  const ZERO := Counts(0, 0, 0, 0, 0, 0, 0)

  function Add(a: Counts, b: Counts): Counts {
    Counts(a.requests + b.requests, a.s2xx + b.s2xx, a.s3xx + b.s3xx, a.s4xx + b.s4xx, a.s5xx + b.s5xx,
           a.bytesIn + b.bytesIn, a.bytesOut + b.bytesOut)
  }

  /** The quantities that are counted. */
  datatype Metric = Requests | Status2xx | Status3xx | Status4xx | Status5xx | BytesIn | BytesOut

  function Get(c: Counts, m: Metric): int {
    match m
    case Requests => c.requests
    case Status2xx => c.s2xx
    case Status3xx => c.s3xx
    case Status4xx => c.s4xx
    case Status5xx => c.s5xx
    case BytesIn => c.bytesIn
    case BytesOut => c.bytesOut
  }

  lemma {:induction false} GetAdds(a: Counts, b: Counts, m: Metric)
    ensures Get(Add(a, b), m) == Get(a, m) + Get(b, m) && Get(ZERO, m) == 0
  {
    match m
    case Requests =>
    case Status2xx =>
    case Status3xx =>
    case Status4xx =>
    case Status5xx =>
    case BytesIn =>
    case BytesOut =>
  }

  // ---- Lines ----

  datatype AppEnv = AppEnv(namespace: string, app: string, env: string, project: string)

  datatype Line = Line(service: string, originStatus: int, downstreamStatus: int, duration: int, bytesIn: int,
      bytesOut: int)

  /** The status the client saw. */
  function EffectiveStatus(l: Line): int {
    if l.originStatus != 0 then l.originStatus else l.downstreamStatus
  }

  function IndexOf(s: string, c: char, start: nat): int
    requires start <= |s|
    decreases |s| - start
  {
    if start == |s| then -1 else if s[start] == c then start else IndexOf(s, c, start + 1)
  }

  function LastIndexOf(s: string, c: char): (i: int)
    ensures -1 <= i < |s|
  {
    if s == "" then -1 else if s[|s| - 1] == c then |s| - 1 else LastIndexOf(s[..|s| - 1], c)
  }

  lemma {:induction false} IndexOfRange(s: string, c: char, start: nat)
    requires start <= |s|
    ensures -1 <= IndexOf(s, c, start) < |s|
    decreases |s| - start
  {
    if start < |s| && s[start] != c {
      IndexOfRange(s, c, start + 1);
    }
  }

  predicate IsDigit(c: char) {
    '0' <= c <= '9'
  }

  predicate AllDigits(s: string) {
    forall c <- s :: IsDigit(c)
  }

  /** `ns-svc-80@kubernetes` is looked up as `ns-svc@kubernetes`. */
  function StripPort(service: string): string {
    IndexOfRange(service, '@', 0);
    var at := IndexOf(service, '@', 0);
    if at <= 0 then service else
    var prefix, suffix := service[..at], service[at..];
    var dash := LastIndexOf(prefix, '-');
    if dash <= 0 || !AllDigits(prefix[dash + 1..]) then service
    else prefix[..dash] + suffix
  }

  lemma {:induction false} IndexFinds(s: string, c: char, start: nat, i: nat)
    requires start <= i < |s| && s[i] == c && c !in s[start..i]
    ensures IndexOf(s, c, start) == i
    decreases i - start
  {
    if start < i {
      assert s[start] == s[start..i][0] && s[start..i][1..] == s[start + 1..i];
      IndexFinds(s, c, start + 1, i);
    }
  }

  lemma {:induction false} LastIndexFinds(s: string, c: char, i: nat)
    requires i < |s| && s[i] == c && c !in s[i + 1..]
    ensures LastIndexOf(s, c) == i
    decreases |s|
  {
    if i < |s| - 1 {
      assert s[|s| - 1] == s[i + 1..][|s| - 2 - i];
      assert s[..|s| - 1][i + 1..] == s[i + 1..][..|s| - 2 - i];
      LastIndexFinds(s[..|s| - 1], c, i);
    }
  }

  lemma {:induction false} DigitsOnly(s: string, c: char)
    requires AllDigits(s) && !IsDigit(c)
    ensures c !in s
  {
  }

  /** Whatever the namespace, the service and the port are called, the port goes and the rest stays, so the name
      found in the log is the name under which the service was cached. */
  lemma {:induction false} StripPortDropsPort(base: string, port: string, provider: string)
    requires base != "" && '@' !in base && AllDigits(port)
    ensures StripPort(base + "-" + port + "@" + provider) == base + "@" + provider
  {
    var prefix := base + "-" + port;
    var service := prefix + "@" + provider;
    assert base + "-" + port + "@" + provider == service;
    assert service[..|prefix|] == prefix && service[0..|prefix|] == prefix && service[|prefix|..] == "@" + provider;
    DigitsOnly(port, '@');
    DigitsOnly(port, '-');
    IndexFinds(service, '@', 0, |prefix|);
    assert prefix[|base| + 1..] == port;
    LastIndexFinds(prefix, '-', |base|);
    assert prefix[..|base|] == base;
  }

  /** The app environment a line counts for, if it counts at all. */
  function Attribution(l: Line, services: map<string, AppEnv>): Option<AppEnv> {
    if l.service == "" || EffectiveStatus(l) == 0 || StripPort(l.service) !in services then None
    else Some(services[StripPort(l.service)])
  }

  function LineCounts(l: Line): Counts {
    var status := EffectiveStatus(l);
    Counts(1,
           if 200 <= status < 300 then 1 else 0, if 300 <= status < 400 then 1 else 0,
           if 400 <= status < 500 then 1 else 0, if status >= 500 then 1 else 0,
           l.bytesIn, l.bytesOut)
  }

  // ---- Buckets ----

  /** Division as the original language does it, towards zero. */
  function TruncDiv(a: int, b: int): int
    requires b > 0
  {
    if a >= 0 then a / b else -(-a / b)
  }

  function StepSeconds(size: int): (n: int)
    requires size > 0
    ensures n > 0
  {
    if size / SECOND <= 0 then 5 else size / SECOND
  }

  function BucketAt(size: int, now: int): int
    requires size > 0
  {
    TruncDiv(now, StepSeconds(size)) * StepSeconds(size)
  }

  datatype AccKey = AccKey(owner: AppEnv, bucket: int)

  datatype Bucket = Bucket(counts: Counts, samples: seq<real>, latencyCount: int)

  const EMPTY := Bucket(ZERO, [], 0)

  type Accumulator = map<AccKey, Bucket>

  /** Below the cap every latency is kept; above it a random one of the kept may be replaced. */
  function Sampled(samples: seq<real>, latency: real, pick: nat): seq<real> {
    if |samples| < MAX_SAMPLES then samples + [latency]
    else if pick < MAX_SAMPLES && pick < |samples| then samples[pick := latency]
    else samples
  }

  function LatencyMs(l: Line): real {
    l.duration as real / 1000000.0
  }

  function Counted(b: Bucket, l: Line, pick: nat): Bucket {
    Bucket(Add(b.counts, LineCounts(l)), Sampled(b.samples, LatencyMs(l), pick), b.latencyCount + 1)
  }

  function BucketIn(acc: Accumulator, key: AccKey): Bucket {
    if key in acc then acc[key] else EMPTY
  }

  datatype Entry = Entry(ts: int, owner: AppEnv, counts: Counts, p50: real, p95: real, p99: real)

  function EntryOf(key: AccKey, b: Bucket): Entry {
    Entry(key.bucket, key.owner, b.counts, PercentileOf(b.samples, 0.50), PercentileOf(b.samples, 0.95),
        PercentileOf(b.samples, 0.99))
  }

  function EntriesOf(acc: Accumulator, order: seq<AccKey>): seq<Entry> {
    seq(|order|, i requires 0 <= i < |order| => EntryOf(order[i], BucketIn(acc, order[i])))
  }

  // ---- Prometheus totals ----

  datatype PromKey = PromKey(project: string, app: string, env: string)

  datatype Totals = Totals(counts: Counts, p50: real, p95: real, p99: real, seen: int)

  type Prom = map<PromKey, Totals>

  function PromKeyOf(e: Entry): PromKey {
    PromKey(e.owner.project, e.owner.app, e.owner.env)
  }

  function TotalIn(prom: Prom, k: PromKey): Counts {
    if k in prom then prom[k].counts else ZERO
  }

  function AddTraffic(prom: Prom, e: Entry, now: int): Prom {
    var counts := Add(TotalIn(prom, PromKeyOf(e)), e.counts);
    prom[PromKeyOf(e) := Totals(counts, e.p50 / 1000.0, e.p95 / 1000.0, e.p99 / 1000.0, now)]
  }

  function AddAll(prom: Prom, entries: seq<Entry>, now: int): Prom
    decreases |entries|
  {
    if entries == [] then prom
    else AddTraffic(AddAll(prom, entries[..|entries| - 1], now), entries[|entries| - 1], now)
  }

  function Swept(prom: Prom, now: int): Prom {
    map k | k in prom && now - prom[k].seen <= STALE_AFTER :: prom[k]
  }

  // ---- The pipeline as a state machine ----

  /** `inFlight` is what a flush has taken but not yet inserted; `live` is everything ever given to the live cache;
      `requeued` everything a failed insert put back; `since` where in the store each counter last began. */
  datatype State = State(
    acc: Accumulator, pending: seq<Entry>, inFlight: seq<Entry>, stored: seq<Entry>,
    prom: Prom, live: seq<Entry>, requeued: seq<Entry>, since: map<PromKey, nat>)

  const INIT := State(map[], [], [], [], map[], [], [], map[])

  datatype Step =
    | LineIn(line: Line, services: map<string, AppEnv>, now: int, pick: nat)
    | Drain(now: int, order: seq<AccKey>)
    | Settle(ok: bool, now: int)
    | Scrape(now: int)

  function Observe(size: int, acc: Accumulator, l: Line, services: map<string, AppEnv>, now: int,
      pick: nat): Accumulator
    requires size > 0
  {
    var owner := Attribution(l, services);
    if owner.None? then acc else
    var key := AccKey(owner.value, BucketAt(size, now));
    acc[key := Counted(BucketIn(acc, key), l, pick)]
  }

  /** The closed buckets, in the order the map yields them. */
  ghost predicate DrainOrder(acc: Accumulator, current: int, order: seq<AccKey>) {
    NoDuplicates(order) && Elements(order) == set x | x in acc && x.bucket < current
  }

  ghost function Drained(s: State, order: seq<AccKey>): State {
    var entries := s.pending + EntriesOf(s.acc, order);
    s.(acc := s.acc - Elements(order), pending := [], inFlight := entries, live := s.live + entries)
  }

  function Settled(s: State, ok: bool, now: int): State {
    if s.inFlight == [] then s
    else if ok then s.(inFlight := [], stored := s.stored + s.inFlight, prom := AddAll(s.prom, s.inFlight, now))
    else s.(inFlight := [], pending := s.pending + s.inFlight, requeued := s.requeued + s.inFlight)
  }

  /** The counters a sweep removed begin again from here. */
  function Restarts(before: Prom, after: Prom, at: nat): map<PromKey, nat> {
    map k | k in before.Keys - after.Keys :: at
  }

  function Scraped(s: State, now: int): State {
    s.(prom := Swept(s.prom, now), since := s.since + Restarts(s.prom, Swept(s.prom, now), |s.stored|))
  }

  /** A step that is not enabled changes nothing: one flush runs at a time. */
  ghost function Exec(size: int, s: State, step: Step): State
    requires size > 0
  {
    match step
    case LineIn(l, services, now, pick) => s.(acc := Observe(size, s.acc, l, services, now, pick))
    case Drain(now, order) =>
      if s.inFlight != [] || !DrainOrder(s.acc, BucketAt(size, now), order) then s else Drained(s, order)
    case Settle(ok, now) => Settled(s, ok, now)
    case Scrape(now) => Scraped(s, now)
  }

  ghost function RunFrom(size: int, s: State, steps: seq<Step>): State
    requires size > 0
    decreases |steps|
  {
    if steps == [] then s else Exec(size, RunFrom(size, s, steps[..|steps| - 1]), steps[|steps| - 1])
  }

  // ---- Sums ----

  function EntryPart(e: Entry, owner: AppEnv, m: Metric): int {
    if e.owner == owner then Get(e.counts, m) else 0
  }

  function EntrySum(entries: seq<Entry>, owner: AppEnv, m: Metric): int
    decreases |entries|
  {
    if entries == [] then 0
    else EntrySum(entries[..|entries| - 1], owner, m) + EntryPart(entries[|entries| - 1], owner, m)
  }

  lemma {:induction false} EntrySumConcat(a: seq<Entry>, b: seq<Entry>, owner: AppEnv, m: Metric)
    ensures EntrySum(a + b, owner, m) == EntrySum(a, owner, m) + EntrySum(b, owner, m)
    decreases |b|
  {
    if b == [] {
      assert a + b == a;
    } else {
      var front := b[..|b| - 1];
      EntrySumConcat(a, front, owner, m);
      assert (a + b)[..|a + b| - 1] == a + front;
    }
  }

  function AccPart(key: AccKey, b: Bucket, owner: AppEnv, m: Metric): int {
    if key.owner == owner then Get(b.counts, m) else 0
  }

  ghost function AccSum(acc: Accumulator, owner: AppEnv, m: Metric): int
    decreases acc.Keys
  {
    if acc == map[] then 0 else
    var x :| x in acc;
    AccPart(x, acc[x], owner, m) + AccSum(acc - {x}, owner, m)
  }

  lemma {:induction false} AccSumRemove(acc: Accumulator, x: AccKey, owner: AppEnv, m: Metric)
    requires x in acc
    ensures AccSum(acc, owner, m) == AccPart(x, acc[x], owner, m) + AccSum(acc - {x}, owner, m)
    decreases acc.Keys
  {
    var y :| y in acc && AccSum(acc, owner, m) == AccPart(y, acc[y], owner, m) + AccSum(acc - {y}, owner, m);
    if y != x {
      AccSumRemove(acc - {y}, x, owner, m);
      AccSumRemove(acc - {x}, y, owner, m);
      assert acc - {y} - {x} == acc - {x} - {y};
    }
  }

  lemma {:induction false} AccSumPut(acc: Accumulator, x: AccKey, b: Bucket, owner: AppEnv, m: Metric)
    ensures AccSum(acc[x := b], owner, m)
            == AccSum(acc, owner, m) - AccPart(x, BucketIn(acc, x), owner, m) + AccPart(x, b, owner, m)
  {
    AccSumRemove(acc[x := b], x, owner, m);
    assert acc[x := b] - {x} == acc - {x};
    if x in acc {
      AccSumRemove(acc, x, owner, m);
    } else {
      assert acc - {x} == acc;
      GetAdds(ZERO, ZERO, m);
    }
  }

  lemma {:induction false} EntriesOneMore(acc: Accumulator, front: seq<AccKey>, x: AccKey, owner: AppEnv, m: Metric)
    requires x in acc
    ensures EntrySum(EntriesOf(acc, front + [x]), owner, m)
              == EntrySum(EntriesOf(acc, front), owner, m) + AccPart(x, acc[x], owner, m)
  {
    var entries := EntriesOf(acc, front + [x]);
    assert entries[..|entries| - 1] == EntriesOf(acc, front);
    assert entries[|entries| - 1] == EntryOf(x, acc[x]);
  }

  lemma {:induction false} AccSumDrain(acc: Accumulator, order: seq<AccKey>, owner: AppEnv, m: Metric)
    requires NoDuplicates(order) && forall x <- order :: x in acc
    ensures AccSum(acc, owner, m) == EntrySum(EntriesOf(acc, order), owner, m) + AccSum(acc - Elements(order), owner, m)
    decreases |order|
  {
    if order == [] {
      assert EntriesOf(acc, order) == [] && acc - Elements(order) == acc;
    } else {
      var front, x := order[..|order| - 1], order[|order| - 1];
      assert order == front + [x];
      AccSumDrain(acc, front, owner, m);
      ElementsAppend(front, x);
      EntriesOneMore(acc, front, x, owner, m);
      var left := acc - Elements(front);
      assert x in left;
      AccSumRemove(left, x, owner, m);
      assert left - {x} == acc - Elements(order);
    }
  }

  // ---- Conservation ----

  ghost function Total(s: State, owner: AppEnv, m: Metric): int {
    AccSum(s.acc, owner, m) + EntrySum(s.pending, owner, m) + EntrySum(s.inFlight, owner, m) +
        EntrySum(s.stored, owner, m)
  }

  function StepCounts(step: Step, owner: AppEnv, m: Metric): int {
    if step.LineIn? && Attribution(step.line, step.services) == Some(owner) then Get(LineCounts(step.line), m) else 0
  }

  /** What the lines of a run attribute to an app environment. */
  function Attributed(steps: seq<Step>, owner: AppEnv, m: Metric): int
    decreases |steps|
  {
    if steps == [] then 0
    else Attributed(steps[..|steps| - 1], owner, m) + StepCounts(steps[|steps| - 1], owner, m)
  }

  lemma {:induction false} ObserveAdds(size: int, acc: Accumulator, l: Line, services: map<string, AppEnv>, now: int,
      pick: nat, owner: AppEnv, m: Metric)
    requires size > 0
    ensures AccSum(Observe(size, acc, l, services, now, pick), owner, m)
            == AccSum(acc, owner, m) + if Attribution(l, services) == Some(owner) then Get(LineCounts(l), m) else 0
  {
    var a := Attribution(l, services);
    if a.Some? {
      var key := AccKey(a.value, BucketAt(size, now));
      AccSumPut(acc, key, Counted(BucketIn(acc, key), l, pick), owner, m);
      GetAdds(BucketIn(acc, key).counts, LineCounts(l), m);
    }
  }

  lemma {:induction false} DrainConserves(s: State, order: seq<AccKey>, current: int, owner: AppEnv, m: Metric)
    requires s.inFlight == [] && DrainOrder(s.acc, current, order)
    ensures Total(Drained(s, order), owner, m) == Total(s, owner, m)
  {
    forall x <- order ensures x in s.acc {
      assert x in Elements(order);
    }
    AccSumDrain(s.acc, order, owner, m);
    EntrySumConcat(s.pending, EntriesOf(s.acc, order), owner, m);
  }

  lemma {:induction false} SettleConserves(s: State, ok: bool, now: int, owner: AppEnv, m: Metric)
    ensures Total(Settled(s, ok, now), owner, m) == Total(s, owner, m)
  {
    EntrySumConcat(s.stored, s.inFlight, owner, m);
    EntrySumConcat(s.pending, s.inFlight, owner, m);
  }

  lemma {:induction false} StepConserves(size: int, s: State, step: Step, owner: AppEnv, m: Metric)
    requires size > 0
    ensures Total(Exec(size, s, step), owner, m) == Total(s, owner, m) + StepCounts(step, owner, m)
  {
    match step
    case LineIn(l, services, now, pick) => ObserveAdds(size, s.acc, l, services, now, pick, owner, m);
    case Drain(now, order) =>
      if s.inFlight == [] && DrainOrder(s.acc, BucketAt(size, now), order) {
        DrainConserves(s, order, BucketAt(size, now), owner, m);
      }
    case Settle(ok, now) => SettleConserves(s, ok, now, owner, m);
    case Scrape(now) =>
  }

  /** Every request, status and byte attributed to an app environment is in the accumulator, waiting, being inserted or
      stored, and in one of them only: whatever inserts fail and whenever lines arrive. */
  lemma {:induction false} TrafficIsConserved(size: int, steps: seq<Step>, owner: AppEnv, m: Metric)
    requires size > 0
    ensures Total(RunFrom(size, INIT, steps), owner, m) == Attributed(steps, owner, m)
    decreases |steps|
  {
    if steps != [] {
      TrafficIsConserved(size, steps[..|steps| - 1], owner, m);
      StepConserves(size, RunFrom(size, INIT, steps[..|steps| - 1]), steps[|steps| - 1], owner, m);
    }
  }

  // ---- Prometheus follows the store ----

  function PromPart(e: Entry, k: PromKey, m: Metric): int {
    if PromKeyOf(e) == k then Get(e.counts, m) else 0
  }

  function PromSum(entries: seq<Entry>, k: PromKey, m: Metric): int
    decreases |entries|
  {
    if entries == [] then 0
    else PromSum(entries[..|entries| - 1], k, m) + PromPart(entries[|entries| - 1], k, m)
  }

  lemma {:induction false} PromSumConcat(a: seq<Entry>, b: seq<Entry>, k: PromKey, m: Metric)
    ensures PromSum(a + b, k, m) == PromSum(a, k, m) + PromSum(b, k, m)
    decreases |b|
  {
    if b == [] {
      assert a + b == a;
    } else {
      var front := b[..|b| - 1];
      PromSumConcat(a, front, k, m);
      assert (a + b)[..|a + b| - 1] == a + front;
    }
  }

  lemma {:induction false} AddAllAdds(prom: Prom, entries: seq<Entry>, now: int, k: PromKey, m: Metric)
    ensures Get(TotalIn(AddAll(prom, entries, now), k), m) == Get(TotalIn(prom, k), m) + PromSum(entries, k, m)
    decreases |entries|
  {
    if entries != [] {
      var front, e := entries[..|entries| - 1], entries[|entries| - 1];
      AddAllAdds(prom, front, now, k, m);
      GetAdds(TotalIn(AddAll(prom, front, now), k), e.counts, m);
    }
  }

  function SinceIn(since: map<PromKey, nat>, k: PromKey): nat {
    if k in since then since[k] else 0
  }

  function Since(s: State, k: PromKey): nat {
    SinceIn(s.since, k)
  }

  ghost predicate CounterOk(s: State, k: PromKey, m: Metric) {
    Since(s, k) <= |s.stored| && Get(TotalIn(s.prom, k), m) == PromSum(s.stored[Since(s, k)..], k, m)
  }

  lemma {:induction false} SettleKeepsCounter(s: State, ok: bool, now: int, k: PromKey, m: Metric)
    requires CounterOk(s, k, m)
    ensures CounterOk(Settled(s, ok, now), k, m)
  {
    var from := Since(s, k);
    AddAllAdds(s.prom, s.inFlight, now, k, m);
    PromSumConcat(s.stored[from..], s.inFlight, k, m);
    assert (s.stored + s.inFlight)[from..] == s.stored[from..] + s.inFlight;
  }

  lemma {:induction false} SweepKeepsTotal(prom: Prom, now: int, k: PromKey, m: Metric)
    ensures Get(TotalIn(Swept(prom, now), k), m) == if k in prom.Keys - Swept(prom, now).Keys then 0
              else Get(TotalIn(prom, k), m)
  {
    GetAdds(ZERO, ZERO, m);
    var after := Swept(prom, now);
    if k in after {
      assert TotalIn(after, k) == TotalIn(prom, k);
    } else {
      assert TotalIn(after, k) == ZERO;
      assert k !in prom ==> TotalIn(prom, k) == ZERO;
    }
  }

  lemma {:induction false} SinceAfterSweep(since: map<PromKey, nat>, before: Prom, after: Prom, at: nat, k: PromKey)
    ensures var now := since + Restarts(before, after, at);
            SinceIn(now, k) == if k in before.Keys - after.Keys then at else SinceIn(since, k)
  {
  }

  lemma {:induction false} ScrapeKeepsCounter(s: State, now: int, k: PromKey, m: Metric)
    requires CounterOk(s, k, m)
    ensures CounterOk(Scraped(s, now), k, m)
  {
    SweepKeepsTotal(s.prom, now, k, m);
    SinceAfterSweep(s.since, s.prom, Swept(s.prom, now), |s.stored|, k);
    assert s.stored[|s.stored|..] == [];
  }

  lemma {:induction false} StepKeepsCounter(size: int, s: State, step: Step, k: PromKey, m: Metric)
    requires size > 0 && CounterOk(s, k, m)
    ensures CounterOk(Exec(size, s, step), k, m)
  {
    match step
    case LineIn(_, _, _, _) =>
    case Drain(_, _) =>
    case Settle(ok, now) => SettleKeepsCounter(s, ok, now, k, m);
    case Scrape(now) => ScrapeKeepsCounter(s, now, k, m);
  }

  lemma {:induction false} CountersAreKept(size: int, steps: seq<Step>, k: PromKey, m: Metric)
    requires size > 0
    ensures CounterOk(RunFrom(size, INIT, steps), k, m)
    decreases |steps|
  {
    if steps == [] {
      GetAdds(ZERO, ZERO, m);
    } else {
      CountersAreKept(size, steps[..|steps| - 1], k, m);
      StepKeepsCounter(size, RunFrom(size, INIT, steps[..|steps| - 1]), steps[|steps| - 1], k, m);
    }
  }

  /** A counter is the sum of the rows stored since it last began, so with no sweep it is the sum of all of them. */
  lemma {:induction false} CountersMatchTheStore(size: int, steps: seq<Step>, k: PromKey, m: Metric)
    requires size > 0
    ensures var s := RunFrom(size, INIT, steps);
            && Since(s, k) <= |s.stored|
            && Get(TotalIn(s.prom, k), m) == PromSum(s.stored[Since(s, k)..], k, m)
            && ((forall x <- steps :: !x.Scrape?) ==> Get(TotalIn(s.prom, k), m) == PromSum(s.stored, k, m))
  {
    CountersAreKept(size, steps, k, m);
    if forall x <- steps :: !x.Scrape? {
      NeverSwept(size, steps);
      var s := RunFrom(size, INIT, steps);
      assert s.stored[0..] == s.stored;
    }
  }

  lemma {:induction false} NeverSwept(size: int, steps: seq<Step>)
    requires size > 0 && forall x <- steps :: !x.Scrape?
    ensures RunFrom(size, INIT, steps).since == map[]
    decreases |steps|
  {
    if steps != [] {
      NeverSwept(size, steps[..|steps| - 1]);
      assert steps[|steps| - 1] in steps;
    }
  }

  // ---- The latency gauges ----

  function LastFor(entries: seq<Entry>, k: PromKey): Option<Entry>
    decreases |entries|
  {
    if entries == [] then None
    else if PromKeyOf(entries[|entries| - 1]) == k then Some(entries[|entries| - 1])
    else LastFor(entries[..|entries| - 1], k)
  }

  lemma {:induction false} LastForConcat(a: seq<Entry>, b: seq<Entry>, k: PromKey)
    ensures LastFor(a + b, k) == if LastFor(b, k).Some? then LastFor(b, k) else LastFor(a, k)
    decreases |b|
  {
    if b == [] {
      assert a + b == a;
    } else {
      LastForConcat(a, b[..|b| - 1], k);
      assert (a + b)[..|a + b| - 1] == a + b[..|b| - 1];
    }
  }

  ghost predicate Shows(t: Totals, e: Entry) {
    t.p50 * 1000.0 == e.p50 && t.p95 * 1000.0 == e.p95 && t.p99 * 1000.0 == e.p99
  }

  lemma {:induction false} AddAllShowsLast(prom: Prom, entries: seq<Entry>, now: int, k: PromKey)
    ensures var after, last := AddAll(prom, entries, now), LastFor(entries, k);
            if last.Some? then k in after && Shows(after[k], last.value) && after[k].seen == now
            else (k in after <==> k in prom) && (k in prom ==> after[k] == prom[k])
    decreases |entries|
  {
    if entries != [] {
      AddAllShowsLast(prom, entries[..|entries| - 1], now, k);
    }
  }

  ghost predicate GaugeOk(s: State, k: PromKey) {
    k in s.prom ==> LastFor(s.stored, k).Some? && Shows(s.prom[k], LastFor(s.stored, k).value)
  }

  /** A latency gauge shows, in seconds, the percentiles of the row stored last for its key. */
  lemma {:induction false} GaugesShowTheLastRow(size: int, steps: seq<Step>, k: PromKey)
    requires size > 0
    ensures GaugeOk(RunFrom(size, INIT, steps), k)
    decreases |steps|
  {
    if steps != [] {
      GaugesShowTheLastRow(size, steps[..|steps| - 1], k);
      var s, step := RunFrom(size, INIT, steps[..|steps| - 1]), steps[|steps| - 1];
      match step
      case LineIn(_, _, _, _) =>
      case Drain(_, _) =>
      case Settle(ok, now) =>
        AddAllShowsLast(s.prom, s.inFlight, now, k);
        LastForConcat(s.stored, s.inFlight, k);
      case Scrape(_) =>
    }
  }

  // ---- The live cache sees a retried batch again ----

  ghost predicate LiveOk(s: State, owner: AppEnv, m: Metric) {
    && EntrySum(s.live, owner, m)
        == EntrySum(s.stored, owner, m) + EntrySum(s.inFlight, owner, m) + EntrySum(s.requeued, owner, m)
    && |s.live| == |s.stored| + |s.inFlight| + |s.requeued|
    && (s.requeued == [] ==> s.live == s.stored + s.inFlight)
  }

  lemma {:induction false} SettleKeepsLive(s: State, ok: bool, now: int, owner: AppEnv, m: Metric)
    requires LiveOk(s, owner, m)
    ensures LiveOk(Settled(s, ok, now), owner, m)
  {
    EntrySumConcat(s.stored, s.inFlight, owner, m);
    EntrySumConcat(s.requeued, s.inFlight, owner, m);
    if s.inFlight != [] && !ok {
      assert s.requeued + s.inFlight != [];
    }
  }

  lemma {:induction false} DrainKeepsLive(s: State, order: seq<AccKey>, owner: AppEnv, m: Metric)
    requires LiveOk(s, owner, m) && s.inFlight == []
    ensures LiveOk(Drained(s, order), owner, m)
  {
    EntrySumConcat(s.live, s.pending + EntriesOf(s.acc, order), owner, m);
    assert s.stored + [] == s.stored;
  }

  /** What the live cache was given exceeds what was stored by exactly the rows of failed inserts. */
  lemma {:induction false} LiveIsKept(size: int, steps: seq<Step>, owner: AppEnv, m: Metric)
    requires size > 0
    ensures LiveOk(RunFrom(size, INIT, steps), owner, m)
    decreases |steps|
  {
    if steps != [] {
      LiveIsKept(size, steps[..|steps| - 1], owner, m);
      var s, step := RunFrom(size, INIT, steps[..|steps| - 1]), steps[|steps| - 1];
      match step
      case LineIn(_, _, _, _) =>
      case Drain(now, order) =>
        if s.inFlight == [] {
          DrainKeepsLive(s, order, owner, m);
        }
      case Settle(ok, now) => SettleKeepsLive(s, ok, now, owner, m);
      case Scrape(now) =>
    }
  }

  /** The live cache was given what the store holds, in the same order, exactly when no insert of a batch failed. */
  lemma {:induction false} LiveMatchesStoreIff(size: int, steps: seq<Step>)
    requires size > 0
    ensures var s := RunFrom(size, INIT, steps);
            s.live == s.stored + s.inFlight <==> s.requeued == []
  {
    LiveIsKept(size, steps, AppEnv("", "", "", ""), Requests);
  }

  // ---- Buckets hold what they should ----

  ghost predicate BucketOk(b: Bucket) {
    && b.latencyCount == b.counts.requests >= 0
    && |b.samples| == (if b.latencyCount < MAX_SAMPLES then b.latencyCount else MAX_SAMPLES)
    && b.counts.s2xx + b.counts.s3xx + b.counts.s4xx + b.counts.s5xx <= b.counts.requests
  }

  ghost predicate EntryOk(e: Entry) {
    e.p50 <= e.p95 <= e.p99 && e.counts.requests >= 0
  }

  ghost predicate ContentOk(s: State) {
    && (forall x <- s.acc.Keys :: BucketOk(s.acc[x]))
    && (forall e <- s.pending :: EntryOk(e)) && (forall e <- s.inFlight :: EntryOk(e)) &&
        (forall e <- s.stored :: EntryOk(e))
  }

  lemma {:induction false} EntryIsOk(key: AccKey, b: Bucket)
    requires BucketOk(b)
    ensures EntryOk(EntryOf(key, b))
  {
    PercentileRises(b.samples, 0.50, 0.95);
    PercentileRises(b.samples, 0.95, 0.99);
  }

  lemma {:induction false} StepKeepsContent(size: int, s: State, step: Step)
    requires size > 0 && ContentOk(s)
    ensures ContentOk(Exec(size, s, step))
  {
    if step.Drain? {
      forall e <- EntriesOf(s.acc, step.order) ensures EntryOk(e) {
        var i :| 0 <= i < |step.order| && e == EntryOf(step.order[i], BucketIn(s.acc, step.order[i]));
        EntryIsOk(step.order[i], BucketIn(s.acc, step.order[i]));
      }
    }
  }

  /** In every reachable state each bucket keeps as many samples as it saw requests, up to the cap, and every row has
      P50 <= P95 <= P99. */
  lemma {:induction false} ContentIsKept(size: int, steps: seq<Step>)
    requires size > 0
    ensures ContentOk(RunFrom(size, INIT, steps))
    decreases |steps|
  {
    if steps != [] {
      ContentIsKept(size, steps[..|steps| - 1]);
      StepKeepsContent(size, RunFrom(size, INIT, steps[..|steps| - 1]), steps[|steps| - 1]);
    }
  }

  /** One more line for the bucket adds its latency; draining the bucket begins again. */
  ghost function NextLatencies(size: int, s: State, step: Step, key: AccKey, before: seq<real>): seq<real>
    requires size > 0
  {
    match step
    case LineIn(l, services, now, _) =>
      before + if Attribution(l, services) == Some(key.owner) && BucketAt(size, now) == key.bucket then [LatencyMs(l)]
          else []
    case Drain(_, _) => if key in s.acc && key !in Exec(size, s, step).acc then [] else before
    case _ => before
  }

  /** The latencies of the lines counted into a bucket since it was last drained. */
  ghost function Latencies(size: int, steps: seq<Step>, key: AccKey): seq<real>
    requires size > 0
    decreases |steps|
  {
    if steps == [] then [] else
    var front := steps[..|steps| - 1];
    NextLatencies(size, RunFrom(size, INIT, front), steps[|steps| - 1], key, Latencies(size, front, key))
  }

  /** A bucket's samples are some of the latencies seen, each no more often than it was seen. */
  ghost predicate SamplesFrom(acc: Accumulator, key: AccKey, seen: seq<real>) {
    && multiset(BucketIn(acc, key).samples) <= multiset(seen)
    && BucketIn(acc, key).latencyCount == |seen|
  }

  lemma {:induction false} SampledFrom(samples: seq<real>, seen: seq<real>, x: real, pick: nat)
    requires multiset(samples) <= multiset(seen)
    ensures multiset(Sampled(samples, x, pick)) <= multiset(seen + [x])
  {
    if |samples| >= MAX_SAMPLES && pick < MAX_SAMPLES && pick < |samples| {
      ReplacedMultiset(samples, pick, x);
    }
  }

  lemma {:induction false} ObserveSamples(size: int, acc: Accumulator, l: Line, services: map<string, AppEnv>, now: int,
      pick: nat, key: AccKey, seen: seq<real>)
    requires size > 0 && SamplesFrom(acc, key, seen)
    ensures var mine := Attribution(l, services) == Some(key.owner) && BucketAt(size, now) == key.bucket;
            SamplesFrom(Observe(size, acc, l, services, now, pick), key, seen + if mine then [LatencyMs(l)] else [])
  {
    SampledFrom(BucketIn(acc, key).samples, seen, LatencyMs(l), pick);
    assert seen + [] == seen;
  }

  lemma {:induction false} DrainSamples(size: int, s: State, step: Step, key: AccKey, seen: seq<real>)
    requires size > 0 && step.Drain? && SamplesFrom(s.acc, key, seen)
    ensures var after := Exec(size, s, step).acc;
            SamplesFrom(after, key, if key in s.acc && key !in after then [] else seen)
  {
  }

  lemma {:induction false} StepSamples(size: int, s: State, step: Step, key: AccKey, seen: seq<real>)
    requires size > 0 && SamplesFrom(s.acc, key, seen)
    ensures SamplesFrom(Exec(size, s, step).acc, key, NextLatencies(size, s, step, key, seen))
  {
    match step
    case LineIn(l, services, now, pick) => ObserveSamples(size, s.acc, l, services, now, pick, key, seen);
    case Drain(_, _) => DrainSamples(size, s, step, key, seen);
    case Settle(_, _) =>
    case Scrape(_) =>
  }

  /** In every reachable state each bucket samples its own lines: its samples are a sub-multiset of the latencies of
      the lines counted into it, whatever the dice say, and it has counted each of those lines once. */
  lemma {:induction false} ReservoirHoldsSeen(size: int, steps: seq<Step>, key: AccKey)
    requires size > 0
    ensures SamplesFrom(RunFrom(size, INIT, steps).acc, key, Latencies(size, steps, key))
    decreases |steps|
  {
    if steps != [] {
      var front := steps[..|steps| - 1];
      ReservoirHoldsSeen(size, front, key);
      StepSamples(size, RunFrom(size, INIT, front), steps[|steps| - 1], key, Latencies(size, front, key));
    }
  }

  lemma {:induction false} ReplacedMultiset(s: seq<real>, i: nat, x: real)
    requires i < |s|
    ensures multiset(s[i := x]) <= multiset(s) + multiset{x}
  {
    assert s == s[..i] + [s[i]] + s[i + 1..];
    assert s[i := x] == s[..i] + [x] + s[i + 1..];
  }

  // ---- Draining at shutdown ----

  /** The moment shutdown pretends it is. */
  function ShutdownTime(size: int, now: int): int {
    now + size / SECOND + 1
  }

  lemma {:induction false} BucketBounds(size: int, t: int)
    requires size > 0 && t >= 0
    ensures BucketAt(size, t) <= t < BucketAt(size, t) + StepSeconds(size)
  {
    var n := StepSeconds(size);
    assert t == (t / n) * n + t % n;
  }

  lemma {:induction false} BucketsAreSpaced(size: int, t: int, later: int)
    requires size > 0 && 0 <= t && t + StepSeconds(size) <= later
    ensures BucketAt(size, t) < BucketAt(size, later)
  {
    BucketBounds(size, t);
    BucketBounds(size, later);
    var n, a, b := StepSeconds(size), BucketAt(size, t), BucketAt(size, later);
    assert b > later - n >= t >= a;
  }

  /** Shutdown closes every bucket a line can have opened exactly when the bucket size is a second or more; below
      that, the fallback of five seconds is drained only in its last second. */
  lemma {:induction false} ShutdownDrainsIff(size: int, now: int)
    requires size > 0 && now >= 0
    ensures (forall t | 0 <= t <= now :: BucketAt(size, t) < BucketAt(size, ShutdownTime(size, now)))
            <==> size >= SECOND || now % 5 == 4
  {
    var end := ShutdownTime(size, now);
    if size >= SECOND {
      forall t | 0 <= t <= now ensures BucketAt(size, t) < BucketAt(size, end) {
        BucketsAreSpaced(size, t, end);
      }
    } else {
      assert end == now + 1 && StepSeconds(size) == 5;
      assert BucketAt(size, now) == now / 5 * 5 && BucketAt(size, end) == (now + 1) / 5 * 5;
      if now % 5 == 4 {
        forall t | 0 <= t <= now ensures BucketAt(size, t) < BucketAt(size, end) {
          assert t / 5 <= now / 5;
        }
      } else {
        assert BucketAt(size, now) == BucketAt(size, end);
      }
    }
  }

  ghost predicate TimedBy(size: int, acc: Accumulator, now: int)
    requires size > 0
  {
    forall x <- acc.Keys :: exists t :: 0 <= t <= now && x.bucket == BucketAt(size, t)
  }

  lemma {:induction false} RunIsTimed(size: int, steps: seq<Step>, now: int)
    requires size > 0 && forall x <- steps :: x.LineIn? ==> 0 <= x.now <= now
    ensures TimedBy(size, RunFrom(size, INIT, steps).acc, now)
    decreases |steps|
  {
    if steps != [] {
      var before, step := RunFrom(size, INIT, steps[..|steps| - 1]), steps[|steps| - 1];
      RunIsTimed(size, steps[..|steps| - 1], now);
      var after := Exec(size, before, step).acc;
      assert step in steps;
      forall x <- after.Keys ensures exists t :: 0 <= t <= now && x.bucket == BucketAt(size, t) {
        if x !in before.acc {
          assert x.bucket == BucketAt(size, step.now);
        }
      }
    }
  }

  lemma {:induction false} AllClosed(size: int, acc: Accumulator, now: int, order: seq<AccKey>)
    requires size > 0 && now >= 0 && (size >= SECOND || now % 5 == 4) && TimedBy(size, acc, now)
    requires DrainOrder(acc, BucketAt(size, ShutdownTime(size, now)), order)
    ensures acc - Elements(order) == map[]
  {
    ShutdownDrainsIff(size, now);
    forall x <- acc.Keys ensures x in Elements(order) {
      var t :| 0 <= t <= now && x.bucket == BucketAt(size, t);
    }
  }

  /** The shutdown flush after lines timed no later than `now` leaves nothing in the accumulator. */
  ghost predicate ShutdownEmpties(size: int, steps: seq<Step>, now: int, order: seq<AccKey>)
    requires size > 0
  {
    var s, end := RunFrom(size, INIT, steps), ShutdownTime(size, now);
    && (forall x <- steps :: x.LineIn? ==> 0 <= x.now <= now)
    && s.inFlight == [] && DrainOrder(s.acc, BucketAt(size, end), order)
    ==> Exec(size, s, Drain(end, order)).acc == map[]
  }

  lemma {:induction false} ShutdownLeavesNothing(size: int, steps: seq<Step>, now: int, order: seq<AccKey>)
    requires size > 0 && now >= 0 && (size >= SECOND || now % 5 == 4)
    ensures ShutdownEmpties(size, steps, now, order)
  {
    var s := RunFrom(size, INIT, steps);
    if (forall x <- steps :: x.LineIn? ==> 0 <= x.now <= now) && s.inFlight == []
       && DrainOrder(s.acc, BucketAt(size, ShutdownTime(size, now)), order) {
      RunIsTimed(size, steps, now);
      AllClosed(size, s.acc, now, order);
    }
  }

  /** A line that counts for an app environment. */
  predicate CountsFor(step: Step, owner: AppEnv) {
    step.LineIn? && Attribution(step.line, step.services) == Some(owner)
  }

  lemma {:induction false} OneLine(size: int, step: Step, owner: AppEnv)
    requires size > 0 && CountsFor(step, owner)
    ensures RunFrom(size, INIT, [step]).acc.Keys == {AccKey(owner, BucketAt(size, step.now))}
    ensures RunFrom(size, INIT, [step]).inFlight == []
  {
    assert [step][..0] == [];
  }

  lemma {:induction false} StillOpen(size: int, now: int)
    requires 0 < size < SECOND && now >= 0 && now % 5 != 4
    ensures BucketAt(size, ShutdownTime(size, now)) == BucketAt(size, now)
  {
    assert ShutdownTime(size, now) == now + 1 && StepSeconds(size) == 5;
  }

  lemma {:induction false} OpenBucketsStay(size: int, s: State, time: int)
    requires size > 0 && s.inFlight == [] && forall x <- s.acc.Keys :: x.bucket >= BucketAt(size, time)
    ensures DrainOrder(s.acc, BucketAt(size, time), []) && Exec(size, s, Drain(time, [])).acc == s.acc
  {
    assert s.acc - Elements([]) == s.acc;
  }

  /** Below a second, unless the clock is in the last of five, a line of that very moment stays behind. */
  lemma {:induction false} ShutdownCanLeaveALine(size: int, now: int, step: Step, owner: AppEnv)
    requires 0 < size < SECOND && now >= 0 && now % 5 != 4
    requires CountsFor(step, owner) && step.now == now
    ensures !ShutdownEmpties(size, [step], now, [])
  {
    OneLine(size, step, owner);
    StillOpen(size, now);
    OpenBucketsStay(size, RunFrom(size, INIT, [step]), ShutdownTime(size, now));
    assert AccKey(owner, BucketAt(size, now)) in RunFrom(size, INIT, [step]).acc;
  }

  lemma {:induction false} SomeLine(now: int) returns (step: Step, owner: AppEnv)
    ensures CountsFor(step, owner) && step.now == now
  {
    var name := "a";
    owner := AppEnv("ns", "app", "env", "project");
    step := LineIn(Line(name, 200, 0, 0, 0, 0), map[name := owner], now, 0);
    assert IndexOf(name, '@', 0) == -1;
    assert StripPort(name) == name;
  }

  /** Over all runs, the shutdown flush empties the accumulator exactly then. */
  lemma {:induction false} ShutdownEmptiesIff(size: int, now: int)
    requires size > 0 && now >= 0
    ensures (forall steps, order :: ShutdownEmpties(size, steps, now, order)) <==> size >= SECOND || now % 5 == 4
  {
    if size >= SECOND || now % 5 == 4 {
      forall steps, order ensures ShutdownEmpties(size, steps, now, order) {
        ShutdownLeavesNothing(size, steps, now, order);
      }
    } else {
      var step, owner := SomeLine(now);
      ShutdownCanLeaveALine(size, now, step, owner);
    }
  }

  // ---- The collector ----

  class TrafficCollector {
    const size: int
    var accumulator: Accumulator
    var pending: seq<Entry>
    var stored: seq<Entry>
    var prom: Prom
    ghost var live: seq<Entry>
    ghost var requeued: seq<Entry>
    ghost var since: map<PromKey, nat>

    constructor (size: int)
      requires size > 0
      ensures this.size == size && Value() == INIT
    {
      this.size := size;
      accumulator, pending, stored, prom := map[], [], [], map[];
      live, requeued, since := [], [], map[];
    }

    ghost function Value(): State
      reads this
    {
      State(accumulator, pending, [], stored, prom, live, requeued, since)
    }

    method ProcessLine(l: Line, services: map<string, AppEnv>, now: int, pick: nat)
      requires size > 0
      modifies this`accumulator
      ensures Value() == Exec(size, old(Value()), LineIn(l, services, now, pick))
    {
      var status := EffectiveStatus(l);
      if l.service == "" || status == 0 {
        return;
      }
      var lookup := StripPort(l.service);
      if lookup !in services {
        return;
      }
      var key := AccKey(services[lookup], BucketAt(size, now));
      var b := if key in accumulator then accumulator[key] else EMPTY;
      var c := b.counts;
      c := c.(requests := c.requests + 1);
      if status >= 500 {
        c := c.(s5xx := c.s5xx + 1);
      } else if status >= 400 {
        c := c.(s4xx := c.s4xx + 1);
      } else if status >= 300 {
        c := c.(s3xx := c.s3xx + 1);
      } else if status >= 200 {
        c := c.(s2xx := c.s2xx + 1);
      }
      c := c.(bytesIn := c.bytesIn + l.bytesIn, bytesOut := c.bytesOut + l.bytesOut);
      var samples := b.samples;
      if |samples| < MAX_SAMPLES {
        samples := samples + [LatencyMs(l)];
      } else if pick < MAX_SAMPLES && pick < |samples| {
        samples := samples[pick := LatencyMs(l)];
      }
      assert c == Add(b.counts, LineCounts(l));
      accumulator := accumulator[key := Bucket(c, samples, b.latencyCount + 1)];
    }

    /** Closed buckets leave the accumulator, in whatever order the map yields them. */
    method TakeClosed(current: int) returns (entries: seq<Entry>, ghost order: seq<AccKey>)
      modifies this`accumulator
      ensures DrainOrder(old(accumulator), current, order)
      ensures entries == EntriesOf(old(accumulator), order)
      ensures accumulator == old(accumulator) - Elements(order)
    {
      entries, order := [], [];
      ghost var closed := set x | x in accumulator && x.bucket < current;
      var rest := accumulator.Keys;
      while rest != {}
        invariant rest <= old(accumulator).Keys
        invariant NoDuplicates(order) && Elements(order) == closed - rest
        invariant accumulator == old(accumulator) - Elements(order)
        invariant entries == EntriesOf(old(accumulator), order)
        decreases rest
      {
        var key :| key in rest;
        rest := rest - {key};
        assert key !in Elements(order);
        if key.bucket < current {
          ElementsAppend(order, key);
          entries := entries + [EntryOf(key, accumulator[key])];
          order := order + [key];
          accumulator := accumulator - {key};
        }
      }
    }

    method AdvanceCounters(entries: seq<Entry>, at: int)
      modifies this`prom
      ensures prom == AddAll(old(prom), entries, at)
    {
      for i := 0 to |entries|
        invariant prom == AddAll(old(prom), entries[..i], at)
      {
        assert entries[..i + 1][..i] == entries[..i];
        prom := AddTraffic(prom, entries[i], at);
      }
      assert entries[..|entries|] == entries;
    }

    /** One flush: drain, feed the live cache, insert, and then either count the rows or put them back. */
    method FlushBefore(now: int, insertOk: bool, at: int) returns (ghost order: seq<AccKey>)
      requires size > 0
      modifies this
      ensures DrainOrder(old(accumulator), BucketAt(size, now), order)
      ensures Value() == Exec(size, Exec(size, old(Value()), Drain(now, order)), Settle(insertOk, at))
    {
      var entries := pending;
      pending := [];
      var closed;
      closed, order := TakeClosed(BucketAt(size, now));
      entries := entries + closed;
      live := live + entries;
      if |entries| == 0 {
        return;
      }
      if !insertOk {
        pending := pending + entries;
        requeued := requeued + entries;
        return;
      }
      stored := stored + entries;
      AdvanceCounters(entries, at);
    }

    /** Shutdown: under that condition, and with no line timed later, the accumulator ends up empty. */
    method FlushAll(now: int, insertOk: bool) returns (ghost order: seq<AccKey>)
      requires size > 0
      modifies this
      ensures Value() == Exec(size, Exec(size, old(Value()), Drain(ShutdownTime(size, now), order)),
                Settle(insertOk, now))
      ensures now >= 0 && (size >= SECOND || now % 5 == 4) && TimedBy(size, old(accumulator), now) ==>
                accumulator == map[]
    {
      order := FlushBefore(ShutdownTime(size, now), insertOk, now);
      if now >= 0 && (size >= SECOND || now % 5 == 4) && TimedBy(size, old(accumulator), now) {
        AllClosed(size, old(accumulator), now, order);
      }
    }
  }
}
