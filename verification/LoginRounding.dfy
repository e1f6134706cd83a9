/** The login throttle's bucket in the code's own arithmetic, binary64 rounded to nearest (IEEE 754, section 4.3.1): an
    input on which the returned delay is too short at the default rate, where in exact arithmetic it never is. */
module LoginRounding {
  import opened Limiter = LoginLimiter

  function Pow2(k: nat): (r: real)
    ensures r > 0.0
  {
    if k == 0 then 1.0 else 2.0 * Pow2(k - 1)
  }

  const SIGNIFICANDS := 0x20_0000_0000_0000

  /** Less than half a unit away from a number of 53 binary digits, the last of them `k` places down. */
  predicate Near(x: real, m: nat, k: nat) {
    SIGNIFICANDS / 2 < m < SIGNIFICANDS && -0.5 < x * Pow2(k) - m as real < 0.5
  }

  predicate Exact(round: real -> real, n: int) {
    round(n as real) == n as real
  }

  /** What is used of rounding to nearest: it is about numbers nearer to one of 53 bits than to any other, powers of two
      and ties aside, and about integers of 53 bits. */
  ghost predicate RoundsToNearest(round: real -> real) {
    && (forall x, m: nat, k: nat | Near(x, m, k) :: round(x) == m as real / Pow2(k))
    && (forall n | 0 <= n < SIGNIFICANDS :: Exact(round, n))
  }

  lemma {:induction false} Pow2Adds(a: nat, b: nat)
    ensures Pow2(a + b) == Pow2(a) * Pow2(b)
    decreases a
  {
    if a > 0 {
      Pow2Adds(a - 1, b);
    }
  }

  lemma {:induction false} Pow2Doubles(a: nat, b: nat)
    requires a < b
    ensures Pow2(b) == Pow2(a) * Pow2(b - a) && Pow2(b - a) >= 2.0
    decreases b
  {
    Pow2Adds(a, b - a);
    if b - a > 1 {
      Pow2Doubles(a, b - 1);
    }
  }

  lemma {:induction false} AtLeastDoubled(x: real, a: real, factor: real, bound: real)
    requires factor >= 2.0 && bound > 0.0 && 2.0 * (x * a) > bound
    ensures x * (a * factor) > bound
  {
    var y, more := x * a, factor - 2.0;
    assert y * more >= 0.0;
    assert y * factor == y * more + 2.0 * y;
    assert x * (a * factor) == y * factor;
  }

  lemma {:induction false} FurtherDownIsTooBig(x: real, m: nat, k: nat, l: nat)
    requires Near(x, m, k) && k < l
    ensures x * Pow2(l) > SIGNIFICANDS as real
  {
    Pow2Doubles(k, l);
    AtLeastDoubled(x, Pow2(k), Pow2(l - k), SIGNIFICANDS as real);
  }

  lemma {:induction false} NearIsUnique(x: real, m: nat, k: nat, n: nat, l: nat)
    requires Near(x, m, k) && Near(x, n, l)
    ensures m == n && k == l
  {
    if k < l {
      FurtherDownIsTooBig(x, m, k, l);
    } else if l < k {
      FurtherDownIsTooBig(x, n, l, k);
    }
  }

  ghost function Nearest(x: real): real {
    if m: nat, k: nat :| Near(x, m, k) then m as real / Pow2(k) else x
  }

  lemma {:induction false} Pow2IsInt(k: nat) returns (n: int)
    ensures n as real == Pow2(k)
  {
    if k == 0 {
      n := 1;
    } else {
      n := Pow2IsInt(k - 1);
      n := 2 * n;
    }
  }

  lemma {:induction false} NearInteger(n: int, m: nat, k: nat)
    requires Near(n as real, m, k)
    ensures m as real / Pow2(k) == n as real
  {
    var p := Pow2IsInt(k);
    assert n as real * p as real == (n * p) as real;
    assert n * p == m;
    assert m as real == n as real * Pow2(k);
  }

  lemma {:induction false} NearestAt(x: real, m: nat, k: nat)
    requires Near(x, m, k)
    ensures Nearest(x) == m as real / Pow2(k)
  {
    var n: nat, l: nat :| Near(x, n, l) && Nearest(x) == n as real / Pow2(l);
    NearIsUnique(x, m, k, n, l);
  }

  lemma {:induction false} NearestIsExact(n: int, x: real)
    requires x == n as real
    ensures Nearest(x) == x
  {
    if m: nat, k: nat :| Near(x, m, k) {
      NearestAt(x, m, k);
      NearInteger(n, m, k);
    }
  }

  /** There is such a rounding. */
  lemma {:induction false} NearestRounds()
    ensures RoundsToNearest(Nearest)
  {
    forall x, m: nat, k: nat | Near(x, m, k) ensures Nearest(x) == m as real / Pow2(k) {
      NearestAt(x, m, k);
    }
    forall n | 0 <= n < SIGNIFICANDS ensures Exact(Nearest, n) {
      NearestIsExact(n, n as real);
    }
  }

  // ---- The bucket with every operation rounded ----

  function Minutes(round: real -> real, elapsed: int): real {
    round((elapsed / MINUTE) as real + round((elapsed % MINUTE) as real / MINUTE as real))
  }

  function TokensIn(round: real -> real, c: Config, e: Entry, now: int): real {
    Min(c.burst as real, round(e.tokens + round(Minutes(round, now - e.lastRefill) * c.ratePerMin as real)))
  }

  function WaitIn(round: real -> real, c: Config, tokens: real): int
    requires c.ratePerMin > 0
  {
    round(round(round(1.0 - tokens) / c.ratePerMin as real) * MINUTE as real).Floor
  }

  function DecideIn(round: real -> real, c: Config, e: Entry, now: int): (Entry, Reply)
    requires c.ratePerMin > 0
  {
    if now < e.lockedUntil then (e, Denied(e.lockedUntil - now)) else
    var tokens := TokensIn(round, c, e, now);
    if tokens >= 1.0 then (e.(tokens := round(tokens - 1.0), lastRefill := now), Allowed)
    else (e.(tokens := tokens, lastRefill := now), Denied(WaitIn(round, c, tokens)))
  }

  lemma {:induction false} MinutesAddUp(elapsed: int)
    ensures (elapsed / MINUTE) as real + (elapsed % MINUTE) as real / MINUTE as real == elapsed as real / MINUTE as real
  {
    var whole, rest := elapsed / MINUTE, elapsed % MINUTE;
    assert elapsed as real == whole as real * MINUTE as real + rest as real;
  }

  lemma {:induction false} TokensWithoutRounding(round: real -> real, c: Config, e: Entry, now: int)
    requires forall x :: round(x) == x
    ensures TokensIn(round, c, e, now) == TokensAt(c, e, now)
  {
    MinutesAddUp(now - e.lastRefill);
    assert Minutes(round, now - e.lastRefill) == (now - e.lastRefill) as real / MINUTE as real;
  }

  /** Without rounding this is the exact bucket. */
  lemma {:induction false} ExactWithoutRounding(round: real -> real, c: Config, e: Entry, now: int)
    requires c.ratePerMin > 0 && forall x :: round(x) == x
    ensures DecideIn(round, c, e, now) == Decide(c, e, now)
  {
    TokensWithoutRounding(round, c, e, now);
    var tokens := TokensAt(c, e, now);
    assert WaitIn(round, c, tokens) == Wait(c, tokens);
  }

  // ---- A delay that is too short ----

  const P19 := 524288.0
  const P53 := 9007199254740992.0
  const P55 := 36028797018963968.0
  const P57 := 144115188075855872.0

  lemma {:induction false} SmallPowers()
    ensures Pow2(2) == 4.0 && Pow2(17) == 131072.0 && Pow2(19) == P19
  {
    assert Pow2(1) == 2.0 && Pow2(2) == 4.0;
    Pow2Adds(2, 2);
    Pow2Adds(4, 4);
    Pow2Adds(8, 8);
    Pow2Adds(16, 1);
    Pow2Adds(17, 2);
  }

  lemma {:induction false} Powers()
    ensures Pow2(19) == P19 && Pow2(53) == P53 && Pow2(55) == P55 && Pow2(57) == P57
  {
    SmallPowers();
    Pow2Adds(17, 17);
    Pow2Adds(34, 19);
    Pow2Adds(53, 2);
    Pow2Adds(55, 2);
  }

  lemma {:induction false} Rounds(round: real -> real, x: real, m: nat, k: nat, power: real)
    requires RoundsToNearest(round) && power == Pow2(k) && SIGNIFICANDS / 2 < m < SIGNIFICANDS
    requires -0.5 < x * power - m as real < 0.5
    ensures round(x) == m as real / power
  {
    assert Near(x, m, k);
  }

  lemma {:induction false} Stays(round: real -> real, m: nat, k: nat, power: real)
    requires RoundsToNearest(round) && power == Pow2(k) && SIGNIFICANDS / 2 < m < SIGNIFICANDS
    ensures round(m as real / power) == m as real / power
  {
    assert m as real / power * power == m as real;
    Rounds(round, m as real / power, m, k, power);
  }

  /** Two seconds are worth a sixth of a token, rounded down. */
  lemma {:induction false} TwoSeconds(round: real -> real)
    requires RoundsToNearest(round)
    ensures round(Minutes(round, 2 * SECOND) * 5.0) == 6004799503160661.0 / P55
  {
    Powers();
    Rounds(round, 2000000000.0 / 60000000000.0, 4803839602528529, 57, P57);
    Stays(round, 4803839602528529, 57, P57);
    assert Minutes(round, 2 * SECOND) == 4803839602528529.0 / P57;
    Rounds(round, 4803839602528529.0 / P57 * 5.0, 6004799503160661, 55, P55);
  }

  /** Ten seconds are worth five sixths of a token, rounded down. */
  lemma {:induction false} TenSeconds(round: real -> real)
    requires RoundsToNearest(round)
    ensures round(Minutes(round, 10 * SECOND) * 5.0) == 7505999378950826.0 / P53
  {
    Powers();
    Rounds(round, 10000000000.0 / 60000000000.0, 6004799503160661, 55, P55);
    Stays(round, 6004799503160661, 55, P55);
    assert Minutes(round, 10 * SECOND) == 6004799503160661.0 / P55;
    Rounds(round, 6004799503160661.0 / P55 * 5.0, 7505999378950826, 53, P53);
  }

  lemma {:induction false} TenSecondsToWait(round: real -> real, c: Config)
    requires RoundsToNearest(round) && c.ratePerMin == 5
    ensures WaitIn(round, c, 6004799503160661.0 / P55) == 10 * SECOND
  {
    Powers();
    Rounds(round, 1.0 - 6004799503160661.0 / P55, 7505999378950827, 53, P53);
    Rounds(round, 7505999378950827.0 / P53 / 5.0, 6004799503160662, 55, P55);
    Rounds(round, 6004799503160662.0 / P55 * 60000000000.0, 5242880000000001, 19, P19);
  }

  lemma {:induction false} NotQuiteOne(round: real -> real)
    requires RoundsToNearest(round)
    ensures round(6004799503160661.0 / P55 + 7505999378950826.0 / P53) == 9007199254740991.0 / P53 < 1.0
  {
    Powers();
    Rounds(round, 6004799503160661.0 / P55 + 7505999378950826.0 / P53, 9007199254740991, 53, P53);
  }

  /** The key's entry after `n` attempts at one moment. */
  function AfterBurst(round: real -> real, c: Config, e: Entry, now: int, n: nat): Entry
    requires c.ratePerMin > 0
  {
    if n == 0 then e else DecideIn(round, c, AfterBurst(round, c, e, now, n - 1), now).0
  }

  lemma {:induction false} AttemptTakesOne(round: real -> real, c: Config, e: Entry, now: int, n: nat)
    requires RoundsToNearest(round) && c.Ok() && 1 <= n <= c.burst < SIGNIFICANDS
    requires e.lockedUntil <= now == e.lastRefill && e.tokens == n as real
    ensures DecideIn(round, c, e, now) == (e.(tokens := (n - 1) as real), Allowed)
  {
    assert Exact(round, 0) && Exact(round, n) && Exact(round, n - 1);
    assert Minutes(round, 0) == 0.0;
    assert n as real - 1.0 == (n - 1) as real;
  }

  lemma {:induction false} BurstEmpties(round: real -> real, c: Config, now: int, n: nat)
    requires RoundsToNearest(round) && c.Ok() && n <= c.burst < SIGNIFICANDS && now > ZERO_TIME
    ensures AfterBurst(round, c, FreshEntry(c, now), now, n) == FreshEntry(c, now).(tokens := (c.burst - n) as real)
  {
    if n > 0 {
      BurstEmpties(round, c, now, n - 1);
      AttemptTakesOne(round, c, FreshEntry(c, now).(tokens := (c.burst - n + 1) as real), now, c.burst - n + 1);
    }
  }

  lemma {:induction false} RefusedFirst(round: real -> real, c: Config, e: Entry, now: int)
    requires RoundsToNearest(round) && c.Ok() && c.ratePerMin == 5
    requires e.lockedUntil <= now && now - e.lastRefill == 2 * SECOND && e.tokens == 0.0
    ensures DecideIn(round, c, e, now)
            == (e.(tokens := 6004799503160661.0 / P55, lastRefill := now), Denied(10 * SECOND))
  {
    Powers();
    Stays(round, 6004799503160661, 55, P55);
    TwoSeconds(round);
    TenSecondsToWait(round, c);
  }

  lemma {:induction false} RefusedAgain(round: real -> real, c: Config, e: Entry, now: int)
    requires RoundsToNearest(round) && c.Ok() && c.ratePerMin == 5
    requires e.lockedUntil <= now && now - e.lastRefill == 10 * SECOND && e.tokens == 6004799503160661.0 / P55
    ensures DecideIn(round, c, e, now).1.Denied?
  {
    TenSeconds(round);
    NotQuiteOne(round);
  }

  /** At the default rate: a burst, an attempt two seconds later that is refused with a delay of exactly ten seconds,
      and an attempt exactly ten seconds after that, which is refused again. */
  lemma {:induction false} RawDelayFallsShort(round: real -> real, c: Config, now: int)
    requires RoundsToNearest(round) && c.Ok() && c.ratePerMin == 5 && c.burst < SIGNIFICANDS && now > ZERO_TIME
    ensures var refused := DecideIn(round, c, AfterBurst(round, c, FreshEntry(c, now), now, c.burst), now + 2 * SECOND);
            && refused.1 == Denied(10 * SECOND)
            && DecideIn(round, c, refused.0, now + 2 * SECOND + 10 * SECOND).1.Denied?
  {
    BurstEmpties(round, c, now, c.burst);
    var empty := FreshEntry(c, now).(tokens := 0.0);
    RefusedFirst(round, c, empty, now + 2 * SECOND);
    var refused := DecideIn(round, c, empty, now + 2 * SECOND).0;
    RefusedAgain(round, c, refused, now + 2 * SECOND + 10 * SECOND);
  }
}
