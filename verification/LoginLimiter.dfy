/** Login throttling: a token bucket per key, a lockout after repeated failures, and a bounded table. */
module LoginLimiter {
  import opened Options

  /** Times and durations count nanoseconds; the zero time lies before every clock reading. */
  const SECOND := 1_000_000_000
  const MINUTE := 60 * SECOND
  const IDLE_EVICT := 30 * MINUTE
  const MAX_ENTRIES := 10000
  const ZERO_TIME := 0

  datatype Config = Config(ratePerMin: int, burst: int, lockoutAfter: int, lockoutMinutes: int) {
    predicate Ok() {
      ratePerMin > 0 && burst > 0 && lockoutAfter > 0 && lockoutMinutes > 0
    }

    function Lockout(): int {
      lockoutMinutes * MINUTE
    }
  }

  datatype Entry = Entry(tokens: real, lastRefill: int, failures: int, lockedUntil: int, lastSeen: int)

  type Table = map<string, Entry>

  datatype Reply = Allowed | Denied(retryAfter: int)

  // ---- Tokens ----

  /** What the bucket gains in a duration. */
  function Gain(c: Config, elapsed: int): real {
    elapsed as real / MINUTE as real * c.ratePerMin as real
  }

  function Min(a: real, b: real): real {
    if a <= b then a else b
  }

  function TokensAt(c: Config, e: Entry, now: int): real {
    Min(c.burst as real, e.tokens + Gain(c, now - e.lastRefill))
  }

  function FreshEntry(c: Config, now: int): Entry {
    Entry(c.burst as real, now, 0, ZERO_TIME, now)
  }

  lemma {:induction false} GainAdds(c: Config, a: int, b: int)
    ensures Gain(c, a + b) == Gain(c, a) + Gain(c, b)
  {
    var x, y, m := a as real, b as real, MINUTE as real;
    assert (x + y) / m == x / m + y / m;
    assert (x / m + y / m) * c.ratePerMin as real == x / m * c.ratePerMin as real + y / m * c.ratePerMin as real;
  }

  lemma {:induction false} GainGrows(c: Config, a: int, b: int)
    requires c.Ok() && a <= b
    ensures Gain(c, a) <= Gain(c, b) && Gain(c, 0) == 0.0
  {
    GainAdds(c, a, b - a);
    var x := (b - a) as real / MINUTE as real;
    assert x >= 0.0;
    assert x * c.ratePerMin as real >= 0.0;
  }

  // ---- The operations ----

  predicate Prunable(e: Entry, now: int) {
    now - e.lastSeen > IDLE_EVICT && now > e.lockedUntil
  }

  function Pruned(t: Table, now: int): Table {
    map k | k in t && !Prunable(t[k], now) :: t[k]
  }

  /** Room is made only for a new key that finds the table full. */
  function Room(t: Table, key: string, now: int): Table {
    if key in t || |t| < MAX_ENTRIES then t else Pruned(t, now)
  }

  /** The key's entry, new if need be; none when the table stays full. */
  function Touched(c: Config, t: Table, key: string, now: int): Option<Entry> {
    if key in t then Some(t[key].(lastSeen := now))
    else if |Room(t, key, now)| >= MAX_ENTRIES then None
    else Some(FreshEntry(c, now))
  }

  function Wait(c: Config, tokens: real): int
    requires c.ratePerMin > 0
  {
    ((1.0 - tokens) / c.ratePerMin as real * MINUTE as real).Floor
  }

  function Decide(c: Config, e: Entry, now: int): (Entry, Reply)
    requires c.ratePerMin > 0
  {
    if now < e.lockedUntil then (e, Denied(e.lockedUntil - now)) else
    var tokens := TokensAt(c, e, now);
    if tokens >= 1.0 then (e.(tokens := tokens - 1.0, lastRefill := now), Allowed)
    else (e.(tokens := tokens, lastRefill := now), Denied(Wait(c, tokens)))
  }

  function AllowStep(c: Config, t: Table, key: string, now: int): (Table, Reply)
    requires c.ratePerMin > 0
  {
    var e := Touched(c, t, key, now);
    if e.None? then (Room(t, key, now), Allowed) else
    var d := Decide(c, e.value, now);
    (Room(t, key, now)[key := d.0], d.1)
  }

  function Failed(c: Config, e: Entry, now: int): Entry {
    var n := e.failures + 1;
    if n >= c.lockoutAfter then e.(failures := n, lockedUntil := now + c.Lockout()) else e.(failures := n)
  }

  function FailStep(c: Config, t: Table, key: string, now: int): Table {
    var e := Touched(c, t, key, now);
    if e.None? then Room(t, key, now) else Room(t, key, now)[key := Failed(c, e.value, now)]
  }

  class LoginLimiter {
    const config: Config
    var entries: Table

    constructor (config: Config)
      requires config.Ok()
      ensures this.config == config && entries == map[]
    {
      this.config, entries := config, map[];
    }

    method Prune(now: int)
      modifies this
      ensures entries == Pruned(old(entries), now)
    {
      var rest := entries.Keys;
      while rest != {}
        invariant rest <= old(entries).Keys
        invariant entries == map k | k in old(entries) &&
                    (k in rest || !Prunable(old(entries)[k], now)) :: old(entries)[k]
        decreases rest
      {
        var k :| k in rest;
        rest := rest - {k};
        if now - entries[k].lastSeen > IDLE_EVICT && now > entries[k].lockedUntil {
          entries := entries - {k};
        }
      }
    }

    method Allow(key: string, now: int) returns (ok: bool, retryAfter: int)
      requires config.ratePerMin > 0
      modifies this
      ensures var d := AllowStep(config, old(entries), key, now);
              entries == d.0 && ok == d.1.Allowed? && retryAfter == if ok then 0 else d.1.retryAfter
    {
      var e: Entry;
      if key in entries {
        e := entries[key];
      } else {
        if |entries| >= MAX_ENTRIES {
          Prune(now);
        }
        if |entries| >= MAX_ENTRIES {
          return true, 0;
        }
        e := FreshEntry(config, now);
      }
      e := e.(lastSeen := now);
      assert Touched(config, old(entries), key, now) == Some(e) && entries == Room(old(entries), key, now);
      if now < e.lockedUntil {
        entries := entries[key := e];
        return false, e.lockedUntil - now;
      }
      e := e.(tokens := TokensAt(config, e, now), lastRefill := now);
      ok := e.tokens >= 1.0;
      retryAfter := if ok then 0 else Wait(config, e.tokens);
      if ok {
        e := e.(tokens := e.tokens - 1.0);
      }
      entries := entries[key := e];
    }

    method RecordFailure(key: string, now: int)
      modifies this
      ensures entries == FailStep(config, old(entries), key, now)
    {
      var e: Entry;
      if key in entries {
        e := entries[key];
      } else {
        if |entries| >= MAX_ENTRIES {
          Prune(now);
        }
        if |entries| >= MAX_ENTRIES {
          return;
        }
        e := FreshEntry(config, now);
      }
      e := e.(lastSeen := now, failures := e.failures + 1);
      if e.failures >= config.lockoutAfter {
        e := e.(lockedUntil := now + config.Lockout());
      }
      entries := entries[key := e];
    }

    method RecordSuccess(key: string)
      modifies this
      ensures entries == old(entries) - {key}
    {
      entries := entries - {key};
    }
  }

  // ---- What every run keeps ----

  ghost predicate EntryOk(c: Config, e: Entry, now: int) {
    && 0.0 <= e.tokens <= c.burst as real
    && e.lastRefill <= e.lastSeen <= now
    && (e.lockedUntil <= e.lastRefill || e.lastRefill + c.Lockout() <= e.lockedUntil)
    && e.lockedUntil <= e.lastSeen + c.Lockout()
  }

  ghost predicate TableOk(c: Config, t: Table, now: int) {
    && now > ZERO_TIME && |t| <= MAX_ENTRIES
    && forall k <- t.Keys :: EntryOk(c, t[k], now)
  }

  datatype Op = Attempt(key: string) | Failure(key: string) | Success(key: string)

  datatype Event = Event(op: Op, now: int)

  function Apply(c: Config, t: Table, e: Event): Table
    requires c.ratePerMin > 0
  {
    match e.op
    case Attempt(k) => AllowStep(c, t, k, e.now).0
    case Failure(k) => FailStep(c, t, k, e.now)
    case Success(k) => t - {k}
  }

  function Run(c: Config, t: Table, events: seq<Event>): Table
    requires c.ratePerMin > 0
    decreases |events|
  {
    if events == [] then t else Run(c, Apply(c, t, events[0]), events[1..])
  }

  ghost predicate Timed(events: seq<Event>, start: int, end: int) {
    if events == [] then start <= end
    else start <= events[0].now && Timed(events[1..], events[0].now, end)
  }

  lemma {:induction false} Later(c: Config, t: Table, now: int, later: int)
    requires TableOk(c, t, now) && now <= later
    ensures TableOk(c, t, later)
  {
    forall k <- t.Keys ensures EntryOk(c, t[k], later) {
      assert EntryOk(c, t[k], now);
    }
  }

  lemma {:induction false} RoomIsOk(c: Config, t: Table, key: string, now: int)
    requires TableOk(c, t, now)
    ensures TableOk(c, Room(t, key, now), now)
    ensures Touched(c, t, key, now).Some? && key !in Room(t, key, now) ==> |Room(t, key, now)| < MAX_ENTRIES
  {
    var p := Pruned(t, now);
    assert p.Keys <= t.Keys;
    SubsetSize(p.Keys, t.Keys);
    assert |p| == |p.Keys| && |t| == |t.Keys|;
  }

  lemma {:induction false} SubsetSize<T>(a: set<T>, b: set<T>)
    requires a <= b
    ensures |a| <= |b|
  {
    assert b == a + (b - a);
  }

  lemma {:induction false} PutSize(t: Table, key: string, e: Entry)
    ensures |t[key := e]| == if key in t then |t| else |t| + 1
  {
    assert t[key := e].Keys == t.Keys + {key};
    assert |t[key := e]| == |t[key := e].Keys| && |t| == |t.Keys|;
  }

  lemma {:induction false} DecidedOk(c: Config, e: Entry, now: int)
    requires c.Ok() && EntryOk(c, e, now) && e.lastSeen == now
    ensures EntryOk(c, Decide(c, e, now).0, now)
  {
    GainGrows(c, 0, now - e.lastRefill);
  }

  lemma {:induction false} PutKeepsOk(c: Config, room: Table, key: string, e: Entry, now: int)
    requires TableOk(c, room, now) && EntryOk(c, e, now) && (key !in room ==> |room| < MAX_ENTRIES)
    ensures TableOk(c, room[key := e], now)
  {
    PutSize(room, key, e);
  }

  lemma {:induction false} RemoveKeepsOk(c: Config, t: Table, key: string, now: int)
    requires TableOk(c, t, now)
    ensures TableOk(c, t - {key}, now)
  {
    var rest := t - {key};
    assert rest.Keys <= t.Keys;
    SubsetSize(rest.Keys, t.Keys);
    assert |rest| == |rest.Keys| && |t| == |t.Keys|;
  }

  /** One step keeps the table within its cap and every entry sound. */
  lemma {:induction false} StepKeepsTableOk(c: Config, t: Table, e: Event)
    requires c.Ok() && TableOk(c, t, e.now)
    ensures TableOk(c, Apply(c, t, e), e.now)
  {
    var key, now := e.op.key, e.now;
    if e.op.Success? {
      RemoveKeepsOk(c, t, key, now);
    } else {
      RoomIsOk(c, t, key, now);
      var touched := Touched(c, t, key, now);
      if touched.Some? {
        assert EntryOk(c, touched.value, now);
        DecidedOk(c, touched.value, now);
        PutKeepsOk(c, Room(t, key, now), key,
          if e.op.Attempt? then Decide(c, touched.value, now).0 else Failed(c, touched.value, now), now);
      }
    }
  }

  /** The table never exceeds its cap, whatever happens. */
  lemma {:induction false} TableIsBounded(c: Config, t: Table, events: seq<Event>, start: int, end: int)
    requires c.Ok() && TableOk(c, t, start) && Timed(events, start, end)
    ensures TableOk(c, Run(c, t, events), end) && |Run(c, t, events)| <= MAX_ENTRIES
    decreases |events|
  {
    if events == [] {
      Later(c, t, start, end);
    } else {
      Later(c, t, start, events[0].now);
      StepKeepsTableOk(c, t, events[0]);
      TableIsBounded(c, Apply(c, t, events[0]), events[1..], events[0].now, end);
    }
  }

  // ---- The budget of a key ----

  /** What a key could spend now: a full bucket if it is not in the table. */
  ghost function Credit(c: Config, t: Table, key: string, now: int): real {
    if key in t then TokensAt(c, t[key], now) else c.burst as real
  }

  /** The first moment an idle entry may be dropped comes no earlier than the moment its bucket is full. */
  predicate EvictionIsHarmless(c: Config) {
    c.ratePerMin * (IDLE_EVICT + 1) >= c.burst * MINUTE
  }

  lemma {:induction false} GainByEviction(c: Config)
    requires c.Ok()
    ensures Gain(c, IDLE_EVICT + 1) >= c.burst as real <==> EvictionIsHarmless(c)
  {
    var i, r, m, b := (IDLE_EVICT + 1) as real, c.ratePerMin as real, MINUTE as real, c.burst as real;
    assert i / m * r == (i * r) / m;
    assert i * r == (c.ratePerMin * (IDLE_EVICT + 1)) as real;
    assert b * m == (c.burst * MINUTE) as real;
    assert (i * r) / m >= b <==> i * r >= b * m;
  }

  /** Dropping an idle entry gives the key no more than keeping it would, for every entry exactly under this
      condition. */
  lemma {:induction false} PruningIsHarmlessIff(c: Config)
    requires c.Ok()
    ensures EvictionIsHarmless(c) <==>
            forall e: Entry, now: int | EntryOk(c, e, now) && Prunable(e, now) :: TokensAt(c, e, now) == c.burst as real
  {
    GainByEviction(c);
    if EvictionIsHarmless(c) {
      forall e: Entry, now: int | EntryOk(c, e, now) && Prunable(e, now)
        ensures TokensAt(c, e, now) == c.burst as real
      {
        PrunedIsFull(c, e, now);
      }
    } else {
      var e, now := Entry(0.0, 0, 0, ZERO_TIME, 0), IDLE_EVICT + 1;
      assert EntryOk(c, e, now) && Prunable(e, now);
      assert TokensAt(c, e, now) < c.burst as real;
    }
  }

  lemma {:induction false} PrunedIsFull(c: Config, e: Entry, now: int)
    requires c.Ok() && EvictionIsHarmless(c) && EntryOk(c, e, now) && Prunable(e, now)
    ensures TokensAt(c, e, now) == c.burst as real
  {
    GainByEviction(c);
    GainGrows(c, IDLE_EVICT + 1, now - e.lastRefill);
  }

  function Spent(c: Config, t: Table, e: Event, key: string): real
    requires c.ratePerMin > 0
  {
    if e.op == Attempt(key) && AllowStep(c, t, key, e.now).1.Allowed? then 1.0 else 0.0
  }

  /** Making room for another key did not drop this one. */
  predicate KeepsKey(t: Table, e: Event, key: string) {
    e.op.Success? || key !in t || key in Room(t, e.op.key, e.now)
  }

  /** The key was throttled: it did not sign in, it did not meet a table full of busy entries, and it was not dropped
      when idle unless dropping is harmless. */
  ghost predicate Throttled(c: Config, t: Table, e: Event, key: string)
    requires c.ratePerMin > 0
  {
    && e.op != Success(key)
    && (e.op == Attempt(key) ==> Touched(c, t, key, e.now).Some?)
    && (EvictionIsHarmless(c) || KeepsKey(t, e, key))
  }

  lemma {:induction false} RefilledNow(c: Config, e: Entry, now: int)
    requires c.Ok() && EntryOk(c, e, now)
    ensures TokensAt(c, Decide(c, e, now).0, now) + (if Decide(c, e, now).1.Allowed? then 1.0 else 0.0)
              == TokensAt(c, e, now)
    ensures TokensAt(c, Failed(c, e, now), now) == TokensAt(c, e, now)
    ensures TokensAt(c, FreshEntry(c, now), now) == c.burst as real
  {
    GainGrows(c, 0, now - e.lastRefill);
  }

  lemma {:induction false} RoomKeepsCredit(c: Config, t: Table, e: Event, key: string)
    requires c.Ok() && TableOk(c, t, e.now) && !e.op.Success? && (EvictionIsHarmless(c) || KeepsKey(t, e, key))
    ensures Credit(c, Room(t, e.op.key, e.now), key, e.now) == Credit(c, t, key, e.now)
  {
    if key in t && key !in Room(t, e.op.key, e.now) {
      PrunedIsFull(c, t[key], e.now);
    }
  }

  /** An attempt spends from the key's credit what it is allowed, and no event adds to it. */
  lemma {:induction false} CreditIsSpent(c: Config, t: Table, e: Event, key: string)
    requires c.Ok() && TableOk(c, t, e.now) && Throttled(c, t, e, key)
    ensures Credit(c, Apply(c, t, e), key, e.now) + Spent(c, t, e, key) == Credit(c, t, key, e.now)
  {
    var other, now := e.op.key, e.now;
    var room, touched := Room(t, other, now), Touched(c, t, other, now);
    if !e.op.Success? {
      RoomKeepsCredit(c, t, e, key);
    }
    if touched.Some? && other == key {
      RoomIsOk(c, t, key, now);
      assert EntryOk(c, touched.value, now);
      RefilledNow(c, touched.value, now);
    }
  }

  lemma {:induction false} CreditGrows(c: Config, t: Table, key: string, now: int, later: int)
    requires c.Ok() && now <= later
    ensures Credit(c, t, key, later) <= Credit(c, t, key, now) + Gain(c, later - now)
  {
    GainGrows(c, 0, later - now);
    if key in t {
      GainAdds(c, now - t[key].lastRefill, later - now);
    }
  }

  function AllowedCount(c: Config, t: Table, events: seq<Event>, key: string): real
    requires c.ratePerMin > 0
    decreases |events|
  {
    if events == [] then 0.0
    else Spent(c, t, events[0], key) + AllowedCount(c, Apply(c, t, events[0]), events[1..], key)
  }

  ghost predicate AlwaysThrottled(c: Config, t: Table, events: seq<Event>, key: string)
    requires c.ratePerMin > 0
    decreases |events|
  {
    events == [] || (Throttled(c, t, events[0], key) && AlwaysThrottled(c, Apply(c, t, events[0]), events[1..], key))
  }

  lemma {:induction false} CreditStep(c: Config, t: Table, e: Event, key: string, start: int, end: int)
    requires c.Ok() && TableOk(c, t, start) && start <= e.now && Throttled(c, t, e, key)
    ensures TableOk(c, Apply(c, t, e), e.now)
    ensures Spent(c, t, e, key) + (Credit(c, Apply(c, t, e), key, e.now) + Gain(c, end - e.now))
            <= Credit(c, t, key, start) + Gain(c, end - start)
  {
    Later(c, t, start, e.now);
    CreditGrows(c, t, key, start, e.now);
    CreditIsSpent(c, t, e, key);
    StepKeepsTableOk(c, t, e);
    GainAdds(c, e.now - start, end - e.now);
  }

  lemma {:induction false} CreditAtRest(c: Config, t: Table, key: string, start: int, end: int)
    requires c.Ok() && TableOk(c, t, start) && start <= end
    ensures 0.0 <= Credit(c, t, key, start) + Gain(c, end - start)
  {
    CreditInRange(c, t, key, start);
    GainGrows(c, 0, end - start);
  }

  lemma {:induction false} CreditBoundsRun(c: Config, t: Table, events: seq<Event>, key: string, start: int, end: int)
    requires c.Ok() && TableOk(c, t, start) && Timed(events, start, end)
    requires AlwaysThrottled(c, t, events, key)
    ensures AllowedCount(c, t, events, key) <= Credit(c, t, key, start) + Gain(c, end - start)
    decreases |events|
  {
    if events == [] {
      CreditAtRest(c, t, key, start, end);
    } else {
      CreditStep(c, t, events[0], key, start, end);
      CreditBoundsRun(c, Apply(c, t, events[0]), events[1..], key, events[0].now, end);
    }
  }

  /** In any window, whatever other keys do, the attempts allowed to a throttled key number at most the burst plus
      the rate times the window's minutes.  A key that stays in the table needs nothing of the configuration. */
  lemma {:induction false} AttemptsAreBounded(c: Config, t: Table, events: seq<Event>, key: string, start: int,
      end: int)
    requires c.Ok() && TableOk(c, t, start) && Timed(events, start, end)
    requires AlwaysThrottled(c, t, events, key)
    ensures AllowedCount(c, t, events, key) <= c.burst as real + Gain(c, end - start)
  {
    CreditBoundsRun(c, t, events, key, start, end);
    CreditInRange(c, t, key, start);
  }

  lemma {:induction false} CreditInRange(c: Config, t: Table, key: string, now: int)
    requires c.Ok() && TableOk(c, t, now)
    ensures 0.0 <= Credit(c, t, key, now) <= c.burst as real
  {
    if key in t {
      GainGrows(c, 0, now - t[key].lastRefill);
    }
  }

  // ---- The advertised delay ----

  /** What the login handler puts in Retry-After. */
  function HeaderSeconds(retryAfter: int): int {
    retryAfter / SECOND + 1
  }

  ghost predicate Same(t: Table, later: Table, key: string) {
    key !in later || (key in t && later[key] == t[key])
  }

  lemma {:induction false} WaitCovers(c: Config, tokens: real, elapsed: int)
    requires c.Ok() && tokens < 1.0
    ensures tokens + Gain(c, elapsed) >= 1.0 <==>
            elapsed as real >= (1.0 - tokens) / c.ratePerMin as real * MINUTE as real
  {
    var x, r, m, need := elapsed as real, c.ratePerMin as real, MINUTE as real, 1.0 - tokens;
    assert x / m * r == x * r / m;
    assert x * r / m >= need <==> x * r >= need * m;
    assert need / r * m == need * m / r;
    assert x >= need * m / r <==> x * r >= need * m;
  }

  /** A lockout is long enough to earn a token. */
  lemma {:induction false} LockoutRefills(c: Config, e: Entry, now: int, later: int)
    requires c.Ok() && EntryOk(c, e, now) && now < e.lockedUntil <= later
    ensures TokensAt(c, e, later) >= 1.0
  {
    assert e.lastRefill + MINUTE <= later;
    GainGrows(c, MINUTE, later - e.lastRefill);
    assert Gain(c, MINUTE) == c.ratePerMin as real;
  }

  lemma {:induction false} RefusedEntry(c: Config, t: Table, key: string, now: int)
    requires c.Ok() && TableOk(c, t, now) && AllowStep(c, t, key, now).1.Denied?
    ensures Touched(c, t, key, now).Some? && EntryOk(c, Touched(c, t, key, now).value, now)
    ensures AllowStep(c, t, key, now).0[key] == Decide(c, Touched(c, t, key, now).value, now).0
  {
  }

  /** A refused client that waits for the advertised seconds is allowed, whether it was out of tokens or locked out. */
  lemma {:induction false} HeaderDelayIsEnough(c: Config, t: Table, key: string, now: int, later: Table, time: int)
    requires c.Ok() && TableOk(c, t, now) && AllowStep(c, t, key, now).1.Denied?
    requires Same(AllowStep(c, t, key, now).0, later, key)
    requires time >= now + HeaderSeconds(AllowStep(c, t, key, now).1.retryAfter) * SECOND
    ensures AllowStep(c, later, key, time).1.Allowed?
  {
    RefusedEntry(c, t, key, now);
    var e := Touched(c, t, key, now).value;
    var after, delay := Decide(c, e, now).0, AllowStep(c, t, key, now).1.retryAfter;
    NeedIsPositive(c, TokensAt(c, e, now));
    assert delay >= 0 && time > now + delay;
    if key !in later {
      NewKeyIsAllowed(c, later, key, time);
    } else if now < e.lockedUntil {
      LockoutRefills(c, e, now, time);
    } else {
      var tokens := TokensAt(c, e, now);
      assert delay + 1 >= 0 && (delay + 1) as real >= (1.0 - tokens) / c.ratePerMin as real * MINUTE as real;
      WaitCovers(c, tokens, time - now);
    }
  }

  /** The delay itself is cut down to whole nanoseconds, so waiting for exactly that long is enough just when nothing
      was cut. */
  lemma {:induction false} RawDelayIsEnoughIff(c: Config, t: Table, key: string, now: int)
    requires c.Ok() && TableOk(c, t, now) && AllowStep(c, t, key, now).1.Denied?
    ensures var step, e := AllowStep(c, t, key, now), Touched(c, t, key, now).value;
            var exact := (1.0 - TokensAt(c, e, now)) / c.ratePerMin as real * MINUTE as real;
            AllowStep(c, step.0, key, now + step.1.retryAfter).1.Allowed?
            <==> now < e.lockedUntil || exact == exact.Floor as real
  {
    RefusedEntry(c, t, key, now);
    var e := Touched(c, t, key, now).value;
    if now < e.lockedUntil {
      LockoutRefills(c, e, now, e.lockedUntil);
    } else {
      var tokens := TokensAt(c, e, now);
      WaitCovers(c, tokens, Wait(c, tokens));
      GainGrows(c, 0, now - e.lastRefill);
      NeedIsPositive(c, tokens);
    }
  }

  // ---- When the delay is always enough ----

  predicate IsWhole(x: real) {
    x == x.Floor as real
  }

  /** How long one token takes, when that is a whole number of nanoseconds. */
  function PerToken(c: Config): int
    requires c.ratePerMin > 0
  {
    MINUTE / c.ratePerMin
  }

  /** What tokens are worth in time. */
  function Worth(c: Config, tokens: real): real
    requires c.ratePerMin > 0
  {
    tokens * PerToken(c) as real
  }

  predicate WholeTokens(c: Config, tokens: real)
    requires c.ratePerMin > 0
  {
    IsWhole(Worth(c, tokens))
  }

  lemma {:induction false} WorthAdds(c: Config, a: real, b: real)
    requires c.Ok()
    ensures Worth(c, a + b) == Worth(c, a) + Worth(c, b) && Worth(c, a - b) == Worth(c, a) - Worth(c, b)
  {
  }

  lemma {:induction false} WorthOfInt(c: Config, n: int)
    requires c.Ok()
    ensures Worth(c, n as real) == (n * PerToken(c)) as real && WholeTokens(c, n as real)
  {
    WholeInt(n * PerToken(c));
  }

  lemma {:induction false} WholeInt(n: int)
    ensures IsWhole(n as real)
  {
    assert (n as real).Floor == n;
  }

  lemma {:induction false} WholeSum(a: real, b: real)
    requires IsWhole(a) && IsWhole(b)
    ensures IsWhole(a + b) && IsWhole(a - b)
  {
    WholeInt(a.Floor + b.Floor);
    WholeInt(a.Floor - b.Floor);
  }

  lemma {:induction false} Cancel(n: real, p: real, q: real, m: real)
    requires p > 0.0 && m > 0.0 && p * q == m
    ensures n / p * m == n * q
    ensures n / m * p * q == n
  {
    var x, y := n / p, n / m;
    assert x * p == n && y * m == n;
    assert x * (p * q) == (x * p) * q;
    assert y * (p * q) == (y * p) * q;
  }

  lemma {:induction false} GainIsTime(c: Config, elapsed: int)
    requires c.Ok() && MINUTE % c.ratePerMin == 0
    ensures Worth(c, Gain(c, elapsed)) == elapsed as real && WholeTokens(c, Gain(c, elapsed))
  {
    assert c.ratePerMin * PerToken(c) == MINUTE;
    Cancel(elapsed as real, c.ratePerMin as real, PerToken(c) as real, MINUTE as real);
    WholeInt(elapsed);
  }

  lemma {:induction false} NeedIsWorth(c: Config, tokens: real)
    requires c.Ok() && MINUTE % c.ratePerMin == 0
    ensures (1.0 - tokens) / c.ratePerMin as real * MINUTE as real == Worth(c, 1.0 - tokens)
  {
    assert c.ratePerMin * PerToken(c) == MINUTE;
    Cancel(1.0 - tokens, c.ratePerMin as real, PerToken(c) as real, MINUTE as real);
  }

  lemma {:induction false} WholeTokensAdd(c: Config, a: real, b: real)
    requires c.Ok() && WholeTokens(c, a) && WholeTokens(c, b)
    ensures WholeTokens(c, a + b) && WholeTokens(c, a - b)
  {
    WorthAdds(c, a, b);
    WholeSum(Worth(c, a), Worth(c, b));
  }

  lemma {:induction false} WholeTokensKept(c: Config, e: Entry, now: int)
    requires c.Ok() && MINUTE % c.ratePerMin == 0 && WholeTokens(c, e.tokens)
    ensures WholeTokens(c, TokensAt(c, e, now)) && WholeTokens(c, TokensAt(c, e, now) - 1.0) &&
              WholeTokens(c, 1.0 - TokensAt(c, e, now))
  {
    GainIsTime(c, now - e.lastRefill);
    WholeTokensAdd(c, e.tokens, Gain(c, now - e.lastRefill));
    WorthOfInt(c, c.burst);
    WorthOfInt(c, 1);
    WholeTokensAdd(c, TokensAt(c, e, now), 1.0);
    WholeTokensAdd(c, 1.0, TokensAt(c, e, now));
  }

  ghost predicate WholeTable(c: Config, t: Table)
    requires c.ratePerMin > 0
  {
    forall k <- t.Keys :: WholeTokens(c, t[k].tokens)
  }

  lemma {:induction false} TouchedWhole(c: Config, t: Table, key: string, now: int)
    requires c.Ok() && MINUTE % c.ratePerMin == 0 && WholeTable(c, t)
    ensures var e := Touched(c, t, key, now);
            e.Some? ==> WholeTokens(c, e.value.tokens) && WholeTokens(c, Decide(c, e.value, now).0.tokens)
                        && WholeTokens(c, 1.0 - TokensAt(c, e.value, now))
  {
    WorthOfInt(c, c.burst);
    var e := Touched(c, t, key, now);
    if e.Some? {
      WholeTokensKept(c, e.value, now);
    }
  }

  lemma {:induction false} StepKeepsWhole(c: Config, t: Table, e: Event)
    requires c.Ok() && MINUTE % c.ratePerMin == 0 && WholeTable(c, t)
    ensures WholeTable(c, Apply(c, t, e))
  {
    TouchedWhole(c, t, e.op.key, e.now);
  }

  lemma {:induction false} RunKeepsWhole(c: Config, t: Table, events: seq<Event>)
    requires c.Ok() && MINUTE % c.ratePerMin == 0 && WholeTable(c, t)
    ensures WholeTable(c, Run(c, t, events))
    decreases |events|
  {
    if events != [] {
      StepKeepsWhole(c, t, events[0]);
      RunKeepsWhole(c, Apply(c, t, events[0]), events[1..]);
    }
  }

  /** An attempt that is refused and repeated after exactly the returned delay is allowed. */
  ghost predicate DelaySuffices(c: Config, t: Table, key: string, now: int)
    requires c.ratePerMin > 0
  {
    var step := AllowStep(c, t, key, now);
    step.1.Denied? ==> AllowStep(c, step.0, key, now + step.1.retryAfter).1.Allowed?
  }

  lemma {:induction false} WholeTableSuffices(c: Config, t: Table, key: string, now: int)
    requires c.Ok() && MINUTE % c.ratePerMin == 0 && TableOk(c, t, now) && WholeTable(c, t)
    ensures DelaySuffices(c, t, key, now)
  {
    if AllowStep(c, t, key, now).1.Denied? {
      RawDelayIsEnoughIff(c, t, key, now);
      TouchedWhole(c, t, key, now);
      NeedIsWorth(c, TokensAt(c, Touched(c, t, key, now).value, now));
    }
  }

  /** The delay suffices after a run from an empty table. */
  ghost predicate RawDelaySuffices(c: Config, events: seq<Event>, start: int, key: string, now: int)
    requires c.ratePerMin > 0
  {
    start > ZERO_TIME && Timed(events, start, now) ==> DelaySuffices(c, Run(c, map[], events), key, now)
  }

  lemma {:induction false} WholeRateSuffices(c: Config, events: seq<Event>, start: int, key: string, now: int)
    requires c.Ok() && MINUTE % c.ratePerMin == 0
    ensures RawDelaySuffices(c, events, start, key, now)
  {
    if start > ZERO_TIME && Timed(events, start, now) {
      TableIsBounded(c, map[], events, start, now);
      RunKeepsWhole(c, map[], events);
      WholeTableSuffices(c, Run(c, map[], events), key, now);
    }
  }

  /** Attempts that use up a bucket at one moment. */
  function Burst(n: nat): seq<Event> {
    seq(n, _ => Event(Attempt("k"), 1))
  }

  function Left(tokens: int): Table {
    map["k" := Entry(tokens as real, 1, 0, ZERO_TIME, 1)]
  }

  lemma {:induction false} BurstDrains(c: Config, left: nat, n: nat)
    requires c.Ok() && n <= left <= c.burst
    ensures Run(c, Left(left), Burst(n)) == Left(left - n) && Timed(Burst(n), 1, 1)
  {
    if n > 0 {
      GainGrows(c, 0, 0);
      assert Burst(n)[1..] == Burst(n - 1);
      assert Apply(c, Left(left), Burst(n)[0]) == Left(left - 1);
      BurstDrains(c, left - 1, n - 1);
    }
  }

  lemma {:induction false} BurstFromEmpty(c: Config)
    requires c.Ok()
    ensures Run(c, map[], Burst(c.burst)) == Left(0) && Timed(Burst(c.burst), 1, 1)
  {
    GainGrows(c, 0, 0);
    assert Burst(c.burst)[1..] == Burst(c.burst - 1);
    assert Apply(c, map[], Burst(c.burst)[0]) == Left(c.burst - 1);
    BurstDrains(c, c.burst - 1, c.burst - 1);
  }

  lemma {:induction false} TokenTimeIsNotWhole(c: Config)
    requires c.Ok() && MINUTE % c.ratePerMin != 0
    ensures !IsWhole((1.0 - 0.0) / c.ratePerMin as real * MINUTE as real)
  {
    var p, m := c.ratePerMin as real, MINUTE as real;
    var x := (1.0 - 0.0) / p * m;
    assert x * p == m;
    if IsWhole(x) {
      var n := x.Floor;
      assert n as real * p == (n * c.ratePerMin) as real;
      assert n * c.ratePerMin == MINUTE;
      assert (n * c.ratePerMin) % c.ratePerMin == 0 by {
        MultipleLeavesNothing(n, c.ratePerMin);
      }
    }
  }

  lemma {:induction false} MultipleLeavesNothing(n: int, p: int)
    requires p > 0
    ensures (n * p) % p == 0
  {
    var d, rest := (n * p) / p, (n * p) % p;
    assert n * p == d * p + rest && 0 <= rest < p;
    assert (n - d) * p == rest;
    assert n - d >= 1 ==> (n - d) * p >= p;
    assert n - d <= -1 ==> (n - d) * p <= -p;
  }

  /** An input on which the delay is too short, for every rate that does not divide a minute: use up the bucket at one
      moment, ask again, and wait exactly as long as told. */
  lemma {:induction false} RawDelayCanFallShort(c: Config)
    requires c.Ok() && MINUTE % c.ratePerMin != 0
    ensures !RawDelaySuffices(c, Burst(c.burst), 1, "k", 1)
  {
    BurstFromEmpty(c);
    var t := Left(0);
    assert EntryOk(c, t["k"], 1) && TableOk(c, t, 1);
    GainGrows(c, 0, 0);
    assert Touched(c, t, "k", 1) == Some(t["k"]) && TokensAt(c, t["k"], 1) == 0.0;
    assert AllowStep(c, t, "k", 1).1.Denied?;
    TokenTimeIsNotWhole(c);
    RawDelayIsEnoughIff(c, t, "k", 1);
  }

  /** The returned delay is always enough exactly for the rates that divide a minute into whole nanoseconds. */
  lemma {:induction false} RawDelaySufficesIff(c: Config)
    requires c.Ok()
    ensures (forall events, start, key, now :: RawDelaySuffices(c, events, start, key, now))
              <==> MINUTE % c.ratePerMin == 0
  {
    if MINUTE % c.ratePerMin == 0 {
      forall events, start, key, now ensures RawDelaySuffices(c, events, start, key, now) {
        WholeRateSuffices(c, events, start, key, now);
      }
    } else {
      RawDelayCanFallShort(c);
    }
  }

  lemma {:induction false} NeedIsPositive(c: Config, tokens: real)
    requires c.Ok()
    ensures tokens < 1.0 ==> (1.0 - tokens) / c.ratePerMin as real * MINUTE as real > 0.0 && Wait(c, tokens) >= 0
  {
    if tokens < 1.0 {
      assert (1.0 - tokens) / c.ratePerMin as real > 0.0;
    }
  }

  lemma {:induction false} NewKeyIsAllowed(c: Config, t: Table, key: string, now: int)
    requires c.Ok() && key !in t && now > ZERO_TIME
    ensures AllowStep(c, t, key, now).1.Allowed?
  {
    GainGrows(c, 0, 0);
  }

  lemma {:induction false} OthersLeaveEntry(c: Config, t: Table, events: seq<Event>, key: string)
    requires c.Ok() && forall e <- events :: e.op.key != key
    ensures Same(t, Run(c, t, events), key)
    decreases |events|
  {
    if events != [] {
      OthersLeaveEntry(c, Apply(c, t, events[0]), events[1..], key);
    }
  }

  /** The same over a run: whatever other keys do meanwhile, the wait that was advertised ends in an allowed attempt. */
  lemma {:induction false} WaitingIsRewarded(c: Config, t: Table, key: string, now: int, events: seq<Event>, time: int)
    requires c.Ok() && TableOk(c, t, now) && AllowStep(c, t, key, now).1.Denied?
    requires forall e <- events :: e.op.key != key
    requires time >= now + HeaderSeconds(AllowStep(c, t, key, now).1.retryAfter) * SECOND
    ensures AllowStep(c, Run(c, AllowStep(c, t, key, now).0, events), key, time).1.Allowed?
  {
    var after := AllowStep(c, t, key, now).0;
    OthersLeaveEntry(c, after, events, key);
    HeaderDelayIsEnough(c, t, key, now, Run(c, after, events), time);
  }

  // ---- The lockout ----

  ghost predicate LockedTo(t: Table, key: string, until: int) {
    key in t && t[key].lockedUntil >= until
  }

  /** Until then every attempt is refused, unless the key signs in: pruning does not lift a lockout and failures only
      extend it. */
  lemma {:induction false} LockoutHolds(c: Config, t: Table, events: seq<Event>, key: string, start: int, end: int,
      until: int)
    requires c.Ok() && TableOk(c, t, start) && Timed(events, start, end) && end < until && LockedTo(t, key, until)
    requires forall e <- events :: e.op != Success(key)
    ensures LockedTo(Run(c, t, events), key, until)
    ensures AllowedCount(c, t, events, key) == 0.0
    decreases |events|
  {
    if events != [] {
      TimesEnd(events, start, end);
      var e := events[0];
      Later(c, t, start, e.now);
      StepKeepsTableOk(c, t, e);
      assert EntryOk(c, t[key], e.now);
      LockoutHolds(c, Apply(c, t, e), events[1..], key, e.now, end, until);
    }
  }

  lemma {:induction false} TimesEnd(events: seq<Event>, start: int, end: int)
    requires Timed(events, start, end)
    ensures start <= end && (events != [] ==> events[0].now <= end)
    decreases |events|
  {
    if events != [] {
      TimesEnd(events[1..], events[0].now, end);
    }
  }

  /** The failure that reaches the threshold starts a lockout of the full length, provided the table has an entry for
      the key. */
  lemma {:induction false} ThresholdLocks(c: Config, t: Table, key: string, now: int)
    requires c.Ok() && Touched(c, t, key, now).Some?
    ensures var after := FailStep(c, t, key, now);
            && key in after && after[key].failures == (if key in t then t[key].failures else 0) + 1
            && (after[key].failures >= c.lockoutAfter ==> LockedTo(after, key, now + c.Lockout()))
  {
  }
}
