/** The per-app proxy manager: one listener per key, created once however many callers ask.

    A caller finds a running proxy, waits for the one that is being created, or creates it.
    The sections under the lock are given as functions on the manager's state; the class
    computes them on its fields; the interleavings of any number of callers are below.
 */
module ProxyManager {
  import Decimal

  /** `listener` stands for the open socket. */
  datatype Entry = Entry(port: int, url: string, listener: nat)

  datatype CreateError = AppNotFound | EnvDisabled | InvalidTarget | ListenFailed

  datatype Creation = Made(entry: Entry) | NotMade(error: CreateError)

  datatype Claim = Found(entry: Entry) | Wait(done: nat) | Create(done: nat)

  /** The two tables, which channels have been closed, which listeners are open, and a supply of
      fresh names for both. */
  datatype Manager = Manager(proxies: map<string, Entry>, pending: map<string, nat>, closed: set<nat>, open: set<nat>,
      supply: nat)

  const EMPTY := Manager(map[], map[], {}, {}, 0)

  // ---- The sections under the lock ----

  /** Look the key up; the first caller to find nothing registers itself as the creator. */
  function ClaimKey(m: Manager, key: string): (Manager, Claim) {
    if key in m.proxies then (m, Found(m.proxies[key]))
    else if key in m.pending then (m, Wait(m.pending[key]))
    else (m.(pending := m.pending[key := m.supply], supply := m.supply + 1), Create(m.supply))
  }

  /** Publish a creation or give up on it, and wake the waiters in either case. */
  function PublishKey(m: Manager, key: string, done: nat, c: Creation): Manager {
    m.(proxies := if c.Made? then m.proxies[key := c.entry] else m.proxies,
       pending := m.pending - {key},
       closed := m.closed + {done})
  }

  /** Close and forget a published proxy. */
  function DisconnectKey(m: Manager, key: string): Manager {
    if key in m.proxies
    then m.(open := m.open - {m.proxies[key].listener}, proxies := m.proxies - {key})
    else m
  }

  /** Outside the lock: the creator opens a listener on a port of the system's choosing. */
  function OpenListener(m: Manager, port: int): (Manager, Entry) {
    (m.(open := m.open + {m.supply}, supply := m.supply + 1),
     Entry(port, "http://localhost:" + Decimal.Print(port), m.supply))
  }

  class AppProxyManager {
    var proxies: map<string, Entry>
    var pending: map<string, nat>
    var closed: set<nat>
    var open: set<nat>
    var supply: nat

    function View(): Manager
      reads this
    {
      Manager(proxies, pending, closed, open, supply)
    }

    constructor ()
      ensures View() == EMPTY
    {
      proxies, pending, closed, open, supply := map[], map[], {}, {}, 0;
    }

    method Claim(key: string) returns (c: Claim)
      modifies this
      ensures (View(), c) == ClaimKey(old(View()), key)
    {
      if key in proxies {
        return Found(proxies[key]);
      }
      if key in pending {
        return Wait(pending[key]);
      }
      var done := supply;
      supply := supply + 1;
      pending := pending[key := done];
      c := Create(done);
    }

    method Listen(port: int) returns (e: Entry)
      modifies this
      ensures (View(), e) == OpenListener(old(View()), port)
    {
      e := Entry(port, "http://localhost:" + Decimal.Print(port), supply);
      open := open + {supply};
      supply := supply + 1;
    }

    method Publish(key: string, done: nat, c: Creation)
      modifies this
      ensures View() == PublishKey(old(View()), key, done, c)
    {
      if c.Made? {
        proxies := proxies[key := c.entry];
      }
      pending := pending - {key};
      closed := closed + {done};
    }

    method Disconnect(key: string) returns (found: bool)
      modifies this
      ensures View() == DisconnectKey(old(View()), key)
      ensures found == (key in old(proxies))
    {
      found := key in proxies;
      if found {
        open := open - {proxies[key].listener};
        proxies := proxies - {key};
      }
    }
  }

  // ---- Callers ----

  datatype Phase =
    | Starting(key: string)
    | Waiting(key: string, done: nat)
    | Creating(key: string, done: nat)
    | Created(key: string, done: nat, creation: Creation)
    | Returned(key: string, entry: Entry)
    | Failed(error: CreateError)
    | Canceled
    | Stopping(key: string)
    | Stopped(found: bool)

  /** What the environment decides when a caller moves. */
  datatype Choice = Proceed | Cancel | ListenOk(port: int) | ListenFails(error: CreateError)

  datatype Step = Step(caller: nat, choice: Choice)

  datatype State = State(mgr: Manager, callers: seq<Phase>)

  predicate Finished(p: Phase) {
    p.Returned? || p.Failed? || p.Canceled? || p.Stopped?
  }

  predicate Holds(p: Phase) {
    p.Creating? || p.Created?
  }

  function Move(m: Manager, p: Phase, choice: Choice): (Manager, Phase) {
    match p
    case Starting(key) =>
      var (m', c) := ClaimKey(m, key);
      (match c
       case Found(e) => (m', Returned(key, e))
       case Wait(done) => (m', Waiting(key, done))
       case Create(done) => (m', Creating(key, done)))
    case Waiting(key, done) =>
      if choice.Cancel? then (m, Canceled)
      else if done in m.closed then (m, Starting(key))
      else (m, p)
    case Creating(key, done) =>
      (match choice
       case ListenOk(port) => var (m', e) := OpenListener(m, port); (m', Created(key, done, Made(e)))
       case ListenFails(error) => (m, Created(key, done, NotMade(error)))
       case _ => (m, p))
    case Created(key, done, c) =>
      (PublishKey(m, key, done, c), if c.Made? then Returned(key, c.entry) else Failed(c.error))
    case Stopping(key) => (DisconnectKey(m, key), Stopped(key in m.proxies))
    case _ => (m, p)
  }

  /** One atomic step of one caller; an impossible step changes nothing. */
  function Exec(s: State, step: Step): State {
    if step.caller >= |s.callers| then s else
    var (m, p) := Move(s.mgr, s.callers[step.caller], step.choice);
    State(m, s.callers[step.caller := p])
  }

  predicate Fresh(p: Phase) {
    p.Starting? || p.Stopping?
  }

  function Run(callers: seq<Phase>, steps: seq<Step>): (s: State)
    ensures |s.callers| == |callers|
    decreases |steps|
  {
    if steps == [] then State(EMPTY, callers)
    else Exec(Run(callers, steps[..|steps| - 1]), steps[|steps| - 1])
  }

  // ---- What every interleaving keeps ----

  /** Names in use are below the supply; the tables do not overlap; a pending channel is not
      closed; published listeners are open and no two keys share one. */
  ghost predicate ManagerOk(m: Manager) {
    && (forall k | k in m.proxies :: k !in m.pending)
    && (forall k | k in m.pending :: m.pending[k] < m.supply && m.pending[k] !in m.closed)
    && (forall k | k in m.proxies :: m.proxies[k].listener in m.open)
    && (forall n <- m.open :: n < m.supply) && (forall n <- m.closed :: n < m.supply)
    && (forall j, k | j in m.pending && k in m.pending :: m.pending[j] == m.pending[k] ==> j == k)
    && (forall j, k | j in m.proxies && k in m.proxies :: m.proxies[j].listener == m.proxies[k].listener ==> j == k)
  }

  /** A creator owns the pending record of its key, and its unpublished listener is its alone; a
      waiter's channel is closed or is the pending one. */
  ghost predicate CallerOk(m: Manager, p: Phase) {
    && (Holds(p) ==> p.key in m.pending && m.pending[p.key] == p.done)
    && (p.Waiting? ==> p.done < m.supply && (p.done in m.closed || (p.key in m.pending && m.pending[p.key] == p.done)))
    && (p.Created? && p.creation.Made? ==>
          && p.creation.entry.listener in m.open
          && forall k | k in m.proxies :: m.proxies[k].listener != p.creation.entry.listener)
  }

  ghost predicate Held(p: Phase, l: nat) {
    p.Created? && p.creation.Made? && p.creation.entry.listener == l
  }

  ghost predicate Inv(s: State) {
    && ManagerOk(s.mgr)
    && (forall i | 0 <= i < |s.callers| :: CallerOk(s.mgr, s.callers[i]))
    && (forall i, j | 0 <= i < j < |s.callers| && Holds(s.callers[i]) &&
        Holds(s.callers[j]) :: s.callers[i].key != s.callers[j].key)
    && (forall i, j | 0 <= i < j < |s.callers| :: forall l <- s.mgr.open ::
        !(Held(s.callers[i], l) && Held(s.callers[j], l)))
    && (forall k | k in s.mgr.pending ::
          exists i | 0 <= i < |s.callers| :: Holds(s.callers[i]) && s.callers[i].key == k)
    && (forall l <- s.mgr.open :: (exists k | k in s.mgr.proxies :: s.mgr.proxies[k].listener == l)
                                  || exists i | 0 <= i < |s.callers| :: Held(s.callers[i], l))
  }

  // Each section keeps the manager's invariant and does no harm to another caller `q`.

  lemma {:induction false} ClaimIsSafe(m: Manager, key: string, q: Phase)
    requires ManagerOk(m) && key !in m.proxies && key !in m.pending
    ensures ManagerOk(ClaimKey(m, key).0)
    ensures CallerOk(m, q) ==> CallerOk(ClaimKey(m, key).0, q)
  {
  }

  lemma {:induction false} ListenIsSafe(m: Manager, port: int, q: Phase)
    requires ManagerOk(m)
    ensures var (m', e) := OpenListener(m, port);
            && ManagerOk(m') && e.listener == m.supply && m' == m.(open := m.open + {m.supply}, supply := m.supply + 1)
            && (CallerOk(m, q) ==> CallerOk(m', q))
            && (forall k | k in m.proxies :: m.proxies[k].listener != e.listener)
  {
  }

  lemma {:induction false} PublishIsSafe(m: Manager, key: string, done: nat, c: Creation, q: Phase)
    requires ManagerOk(m) && key in m.pending && m.pending[key] == done
    requires c.Made? ==>
              c.entry.listener in m.open && forall k | k in m.proxies :: m.proxies[k].listener != c.entry.listener
    requires Holds(q) ==> q.key != key
    requires c.Made? ==> !Held(q, c.entry.listener)
    ensures ManagerOk(PublishKey(m, key, done, c))
    ensures CallerOk(m, q) ==> CallerOk(PublishKey(m, key, done, c), q)
  {
  }

  lemma {:induction false} DisconnectIsSafe(m: Manager, key: string, q: Phase)
    requires ManagerOk(m)
    ensures ManagerOk(DisconnectKey(m, key))
    ensures CallerOk(m, q) ==> CallerOk(DisconnectKey(m, key), q)
  {
  }

  lemma {:induction false} MoveIsSafe(m: Manager, p: Phase, choice: Choice, q: Phase)
    requires ManagerOk(m) && CallerOk(m, p) && CallerOk(m, q)
    requires Holds(p) && Holds(q) ==> p.key != q.key
    requires forall l <- m.open :: !(Held(p, l) && Held(q, l))
    ensures ManagerOk(Move(m, p, choice).0) && CallerOk(Move(m, p, choice).0, q)
  {
    match p
    case Starting(key) =>
      if key !in m.proxies && key !in m.pending { ClaimIsSafe(m, key, q); }
    case Creating(_, _) =>
      if choice.ListenOk? { ListenIsSafe(m, choice.port, q); }
    case Created(key, done, c) => PublishIsSafe(m, key, done, c, q);
    case Stopping(key) => DisconnectIsSafe(m, key, q);
    case _ =>
  }

  lemma {:induction false} MoverIsOk(m: Manager, p: Phase, choice: Choice)
    requires ManagerOk(m) && CallerOk(m, p)
    ensures CallerOk(Move(m, p, choice).0, Move(m, p, choice).1)
  {
    match p
    case Creating(_, _) =>
      if choice.ListenOk? { ListenIsSafe(m, choice.port, Canceled); }
    case _ =>
  }

  lemma {:induction false} StepPreservesInv(s: State, step: Step)
    requires Inv(s)
    ensures Inv(Exec(s, step))
  {
    if step.caller < |s.callers| {
      var c, t := step.caller, Exec(s, step);
      var p := s.callers[c];
      MoverIsOk(s.mgr, p, step.choice);
      MoveIsSafe(s.mgr, p, step.choice, Canceled);
      forall i | 0 <= i < |t.callers| ensures CallerOk(t.mgr, t.callers[i]) {
        if i != c {
          MoveIsSafe(s.mgr, p, step.choice, s.callers[i]);
        }
      }
      CreatorsStayApart(s, step);
      PendingHasCreator(s, step);
      ListenersHaveHolders(s, step);
    }
  }

  /** What a move does to the creators: it may become one for a key that had none, or open a
      listener nobody had. */
  lemma {:induction false} MoveKeepsApart(m: Manager, p: Phase, choice: Choice, q: Phase)
    requires ManagerOk(m) && CallerOk(m, p) && CallerOk(m, q)
    requires Holds(p) && Holds(q) ==> p.key != q.key
    requires forall l <- m.open :: !(Held(p, l) && Held(q, l))
    ensures var (m', p') := Move(m, p, choice);
            && (Holds(p') && Holds(q) ==> p'.key != q.key)
            && (forall l <- m'.open :: !(Held(p', l) && Held(q, l)))
  {
  }

  lemma {:induction false} CreatorsStayApart(s: State, step: Step)
    requires Inv(s) && step.caller < |s.callers|
    ensures var t := Exec(s, step);
            && (forall i, j | 0 <= i < j < |t.callers| && Holds(t.callers[i]) &&
                Holds(t.callers[j]) :: t.callers[i].key != t.callers[j].key)
            && (forall i, j | 0 <= i < j < |t.callers| :: forall l <- t.mgr.open ::
                !(Held(t.callers[i], l) && Held(t.callers[j], l)))
  {
    var c, t := step.caller, Exec(s, step);
    forall i | 0 <= i < |s.callers| && i != c
      ensures Holds(s.callers[i]) && Holds(t.callers[c]) ==> s.callers[i].key != t.callers[c].key
      ensures forall l <- t.mgr.open :: !(Held(s.callers[i], l) && Held(t.callers[c], l))
    {
      MoveKeepsApart(s.mgr, s.callers[c], step.choice, s.callers[i]);
    }
    MoveOpens(s.mgr, s.callers[c], step.choice);
    forall i, j | 0 <= i < j < |t.callers| ensures forall l <- t.mgr.open ::
        !(Held(t.callers[i], l) && Held(t.callers[j], l)) {
      if i != c && j != c {
        forall l <- t.mgr.open ensures !(Held(s.callers[i], l) && Held(s.callers[j], l)) {
          if l !in s.mgr.open {
            assert CallerOk(s.mgr, s.callers[i]);
          }
        }
      }
    }
  }

  lemma {:induction false} MoveOpens(m: Manager, p: Phase, choice: Choice)
    requires ManagerOk(m) && CallerOk(m, p)
    ensures var (m', p') := Move(m, p, choice);
            && (forall l <- m'.open :: l in m.open || Held(p', l))
            && (forall k | k in m'.pending :: k in m.pending || (Holds(p') && p'.key == k))
            && (forall k | k in m.pending :: Holds(p) && p.key == k && k in m'.pending ==> Holds(p') && p'.key == k)
            && (forall l <- m'.open :: Held(p, l) ==> p.key in m'.proxies && m'.proxies[p.key].listener == l)
            && (forall k | k in m.proxies :: m.proxies[k].listener in m'.open ==>
                k in m'.proxies && m'.proxies[k] == m.proxies[k])
  {
  }

  lemma {:induction false} PendingHasCreator(s: State, step: Step)
    requires Inv(s) && step.caller < |s.callers|
    ensures var t := Exec(s, step);
            forall k | k in t.mgr.pending ::
              exists i | 0 <= i < |t.callers| :: Holds(t.callers[i]) && t.callers[i].key == k
  {
    var c, t := step.caller, Exec(s, step);
    MoveOpens(s.mgr, s.callers[c], step.choice);
    forall k | k in t.mgr.pending
      ensures exists i | 0 <= i < |t.callers| :: Holds(t.callers[i]) && t.callers[i].key == k
    {
      if k in s.mgr.pending {
        var i :| 0 <= i < |s.callers| && Holds(s.callers[i]) && s.callers[i].key == k;
        assert Holds(t.callers[i]) && t.callers[i].key == k;
      } else {
        assert Holds(t.callers[c]);
      }
    }
  }

  lemma {:induction false} ListenersHaveHolders(s: State, step: Step)
    requires Inv(s) && step.caller < |s.callers|
    ensures var t := Exec(s, step);
            forall l <- t.mgr.open :: (exists k | k in t.mgr.proxies :: t.mgr.proxies[k].listener == l)
                                      || exists i | 0 <= i < |t.callers| :: Held(t.callers[i], l)
  {
    var c, t := step.caller, Exec(s, step);
    var p := s.callers[c];
    MoveOpens(s.mgr, p, step.choice);
    forall l <- t.mgr.open
      ensures (exists k | k in t.mgr.proxies :: t.mgr.proxies[k].listener == l)
              || exists i | 0 <= i < |t.callers| :: Held(t.callers[i], l)
    {
      if l !in s.mgr.open {
        assert Held(t.callers[c], l);
      } else if k :| k in s.mgr.proxies && s.mgr.proxies[k].listener == l {
        assert k in t.mgr.proxies && t.mgr.proxies[k].listener == l;
      } else {
        var i :| 0 <= i < |s.callers| && Held(s.callers[i], l);
        if i == c {
          assert t.mgr.proxies[p.key].listener == l;
        } else {
          assert Held(t.callers[i], l);
        }
      }
    }
  }

  lemma {:induction false} RunKeepsInv(callers: seq<Phase>, steps: seq<Step>)
    requires forall i | 0 <= i < |callers| :: Fresh(callers[i])
    ensures Inv(Run(callers, steps))
    decreases |steps|
  {
    if steps != [] {
      RunKeepsInv(callers, steps[..|steps| - 1]);
      StepPreservesInv(Run(callers, steps[..|steps| - 1]), steps[|steps| - 1]);
    }
  }

  /** A listener is held for a key either by the published entry or by a creator that has opened
      it and not yet published. */
  ghost predicate OpenFor(s: State, key: string, l: nat) {
    l in s.mgr.open &&
    (|| (key in s.mgr.proxies && s.mgr.proxies[key].listener == l)
     || exists i | 0 <= i < |s.callers| :: Held(s.callers[i], l) && s.callers[i].key == key)
  }

  /** Single flight.  In every reachable state a key is never both pending and published, has at
      most one creator and at most one open listener; every open listener belongs to a key; and a
      waiter's channel is closed or belongs to a creator that is still at work. */
  lemma {:induction false} SingleFlight(callers: seq<Phase>, steps: seq<Step>, key: string)
    requires forall i | 0 <= i < |callers| :: Fresh(callers[i])
    ensures var s := Run(callers, steps);
            && !(key in s.mgr.proxies && key in s.mgr.pending)
            && (forall i, j | 0 <= i < |s.callers| && 0 <= j < |s.callers| && Holds(s.callers[i]) &&
                Holds(s.callers[j]) ::
                  s.callers[i].key == s.callers[j].key ==> i == j)
            && (forall l, l' | OpenFor(s, key, l) && OpenFor(s, key, l') :: l == l')
            && (forall l <- s.mgr.open :: exists k :: OpenFor(s, k, l))
            && (forall i | 0 <= i < |s.callers| && s.callers[i].Waiting? ::
                  || s.callers[i].done in s.mgr.closed
                  || exists j | 0 <= j < |s.callers| :: Holds(s.callers[j]) && s.callers[j].done == s.callers[i].done)
            && (forall i | 0 <= i < |s.callers| && s.callers[i].Created? :: s.callers[i].done !in s.mgr.closed)
  {
    RunKeepsInv(callers, steps);
    var s := Run(callers, steps);
    forall i | 0 <= i < |s.callers| && s.callers[i].Created? ensures s.callers[i].done !in s.mgr.closed {
      assert CallerOk(s.mgr, s.callers[i]);
    }
    forall l, l' | OpenFor(s, key, l) && OpenFor(s, key, l') ensures l == l' {
      forall i | 0 <= i < |s.callers| && Holds(s.callers[i]) ensures s.callers[i].key in s.mgr.pending {
        assert CallerOk(s.mgr, s.callers[i]);
      }
    }
    forall l <- s.mgr.open ensures exists k :: OpenFor(s, k, l) {
      if k :| k in s.mgr.proxies && s.mgr.proxies[k].listener == l {
        assert OpenFor(s, k, l);
      } else {
        var i :| 0 <= i < |s.callers| && Held(s.callers[i], l);
        assert OpenFor(s, s.callers[i].key, l);
      }
    }
    forall i | 0 <= i < |s.callers| && s.callers[i].Waiting?
      ensures s.callers[i].done in s.mgr.closed
              || exists j | 0 <= j < |s.callers| :: Holds(s.callers[j]) && s.callers[j].done == s.callers[i].done
    {
      assert CallerOk(s.mgr, s.callers[i]);
      if s.callers[i].done !in s.mgr.closed {
        var j :| 0 <= j < |s.callers| && Holds(s.callers[j]) && s.callers[j].key == s.callers[i].key;
        assert CallerOk(s.mgr, s.callers[j]);
      }
    }
  }

  /** A caller that succeeds returns an entry that is published, with its listener open, at the
      very step of its return. */
  lemma {:induction false} ReturnsWhatIsPublished(callers: seq<Phase>, steps: seq<Step>, step: Step)
    requires forall i | 0 <= i < |callers| :: Fresh(callers[i])
    requires step.caller < |callers|
    requires !Run(callers, steps).callers[step.caller].Returned? &&
              Run(callers, steps + [step]).callers[step.caller].Returned?
    ensures var t := Run(callers, steps + [step]);
            var p := t.callers[step.caller];
            p.key in t.mgr.proxies && t.mgr.proxies[p.key] == p.entry && p.entry.listener in t.mgr.open
  {
    assert (steps + [step])[..|steps|] == steps;
    RunKeepsInv(callers, steps);
    var s := Run(callers, steps);
    assert CallerOk(s.mgr, s.callers[step.caller]);
    ReturnPublishes(s.mgr, s.callers[step.caller], step.choice);
  }

  lemma {:induction false} ReturnPublishes(m: Manager, p: Phase, choice: Choice)
    requires ManagerOk(m) && CallerOk(m, p) && !p.Returned? && Move(m, p, choice).1.Returned?
    ensures var (m', p') := Move(m, p, choice);
            p'.key in m'.proxies && m'.proxies[p'.key] == p'.entry && p'.entry.listener in m'.open
  {
  }

  // ---- Progress ----

  /** Work left for a caller within its present attempt. */
  function Rank(closed: set<nat>, p: Phase): nat {
    match p
    case Waiting(_, done) => if done in closed then 4 else 2
    case Starting(_) => 3
    case Creating(_, _) => 2
    case Created(_, _, _) => 1
    case Stopping(_) => 1
    case _ => 0
  }

  function Ranks(closed: set<nat>, callers: seq<Phase>): nat {
    if callers == [] then 0 else Rank(closed, callers[0]) + Ranks(closed, callers[1..])
  }

  function Unfinished(callers: seq<Phase>): nat {
    if callers == [] then 0 else (if Finished(callers[0]) then 0 else 1) + Unfinished(callers[1..])
  }

  function Left(s: State): nat {
    Unfinished(s.callers) * (4 * |s.callers| + 1) + Ranks(s.mgr.closed, s.callers)
  }

  lemma {:induction false} Counts(closed: set<nat>, callers: seq<Phase>)
    ensures Ranks(closed, callers) <= 4 * |callers|
    ensures Unfinished(callers) <= |callers|
    ensures Unfinished(callers) == 0 <==> forall i | 0 <= i < |callers| :: Finished(callers[i])
  {
    if callers != [] {
      Counts(closed, callers[1..]);
      assert forall i | 0 < i < |callers| :: callers[i] == callers[1..][i - 1];
    }
  }

  lemma {:induction false} CountsUpdate(closed: set<nat>, callers: seq<Phase>, c: nat, p: Phase)
    requires c < |callers|
    ensures Ranks(closed, callers[c := p]) == Ranks(closed, callers) - Rank(closed, callers[c]) + Rank(closed, p)
    ensures Unfinished(callers[c := p]) == Unfinished(callers)
            - (if Finished(callers[c]) then 0 else 1) + (if Finished(p) then 0 else 1)
  {
    if c > 0 {
      CountsUpdate(closed, callers[1..], c - 1, p);
      assert callers[c := p][1..] == callers[1..][c - 1 := p];
    } else {
      assert callers[c := p][1..] == callers[1..];
    }
  }

  lemma {:induction false} MoveUsesWork(m: Manager, callers: seq<Phase>, c: nat, choice: Choice)
    requires c < |callers| && ManagerOk(m) && CallerOk(m, callers[c])
    requires Move(m, callers[c], choice) != (m, callers[c])
    ensures var (m', q) := Move(m, callers[c], choice);
            Left(State(m', callers[c := q])) < Left(State(m, callers))
  {
    var (m', q) := Move(m, callers[c], choice);
    MoveLowersRank(m, callers[c], choice);
    CountsUpdate(m.closed, callers, c, q);
    CountsUpdate(m'.closed, callers, c, q);
    Counts(m'.closed, callers[c := q]);
    if Finished(q) {
      OneLess(Unfinished(callers), Unfinished(callers[c := q]), 4 * |callers| + 1);
    }
  }

  /** Every step that changes anything uses up some of the work left. */
  lemma {:induction false} StepUsesWork(s: State, step: Step)
    requires Inv(s) && Exec(s, step) != s
    ensures Left(Exec(s, step)) < Left(s)
  {
    var c := step.caller;
    assert CallerOk(s.mgr, s.callers[c]);
    assert s.callers[c := s.callers[c]] == s.callers;
    MoveUsesWork(s.mgr, s.callers, c, step.choice);
  }

  lemma {:induction false} OneLess(a: nat, b: nat, k: nat)
    requires a == b + 1
    ensures a * k == b * k + k
  {
  }

  lemma {:induction false} MoveLowersRank(m: Manager, p: Phase, choice: Choice)
    requires ManagerOk(m) && CallerOk(m, p)
    ensures var (m', p') := Move(m, p, choice);
            if p' == p then m' == m
            else !Finished(p) && (Finished(p') || (m'.closed == m.closed && Rank(m.closed, p') < Rank(m.closed, p)))
  {
  }

  /** The move a caller makes when nobody cancels. */
  function NextChoice(p: Phase, port: int): Choice {
    if p.Creating? then ListenOk(port) else Proceed
  }

  lemma {:induction false} CanMove(m: Manager, p: Phase, port: int)
    requires !Finished(p) && (p.Waiting? ==> p.done in m.closed)
    ensures Move(m, p, NextChoice(p, port)).1 != p
  {
  }

  lemma {:induction false} CreatorOf(s: State, key: string) returns (c: nat)
    requires Inv(s) && key in s.mgr.pending
    ensures c < |s.callers| && Holds(s.callers[c])
  {
    c :| 0 <= c < |s.callers| && Holds(s.callers[c]) && s.callers[c].key == key;
  }

  /** No caller is stuck: while someone is unfinished, someone can move. */
  lemma {:induction false} SomeoneCanMove(s: State, port: int) returns (c: nat)
    requires Inv(s) && exists i | 0 <= i < |s.callers| :: !Finished(s.callers[i])
    ensures c < |s.callers| && Exec(s, Step(c, NextChoice(s.callers[c], port))) != s
  {
    c :| 0 <= c < |s.callers| && !Finished(s.callers[c]);
    var p := s.callers[c];
    assert CallerOk(s.mgr, p);
    if p.Waiting? && p.done !in s.mgr.closed {
      c := CreatorOf(s, p.key);
    }
    CanMove(s.mgr, s.callers[c], port);
    assert Exec(s, Step(c, NextChoice(s.callers[c], port))).callers[c] != s.callers[c];
  }

  function Changes(callers: seq<Phase>, steps: seq<Step>): nat
    decreases |steps|
  {
    if steps == [] then 0 else
    var front := steps[..|steps| - 1];
    Changes(callers, front) + if Run(callers, steps) == Run(callers, front) then 0 else 1
  }

  lemma {:induction false} ChangesUseWork(callers: seq<Phase>, steps: seq<Step>)
    requires forall i | 0 <= i < |callers| :: Fresh(callers[i])
    ensures Changes(callers, steps) + Left(Run(callers, steps)) <= Left(State(EMPTY, callers))
    decreases |steps|
  {
    if steps != [] {
      var front := steps[..|steps| - 1];
      ChangesUseWork(callers, front);
      RunKeepsInv(callers, front);
      if Run(callers, steps) != Run(callers, front) {
        StepUsesWork(Run(callers, front), steps[|steps| - 1]);
      }
    }
  }

  /** No livelock: whatever the schedule, n callers make at most n(4n+1)+4n moves between them,
      however often waiters wake, lose the race to a disconnect and start over. */
  lemma {:induction false} MovesAreBounded(callers: seq<Phase>, steps: seq<Step>)
    requires forall i | 0 <= i < |callers| :: Fresh(callers[i])
    ensures Changes(callers, steps) <= |callers| * (4 * |callers| + 1) + 4 * |callers|
  {
    ChangesUseWork(callers, steps);
    Counts({}, callers);
    MulLe(Unfinished(callers), |callers|, 4 * |callers| + 1);
  }

  lemma {:induction false} MulLe(a: nat, b: nat, k: nat)
    requires a <= b
    ensures a * k <= b * k
  {
  }

  /** Every schedule can be completed: from any reachable state some continuation finishes every
      caller. */
  lemma {:induction false} EveryoneCanFinish(s: State) returns (steps: seq<Step>, end: State)
    requires Inv(s)
    ensures forall i | 0 <= i < |end.callers| :: Finished(end.callers[i])
    ensures Follows(s, steps, end)
    decreases Left(s)
  {
    if forall i | 0 <= i < |s.callers| :: Finished(s.callers[i]) {
      steps, end := [], s;
    } else {
      var c := SomeoneCanMove(s, 8080);
      var step := Step(c, NextChoice(s.callers[c], 8080));
      StepUsesWork(s, step);
      StepPreservesInv(s, step);
      var rest, e := EveryoneCanFinish(Exec(s, step));
      steps, end := [step] + rest, e;
      assert steps[1..] == rest;
    }
  }

  ghost predicate Follows(s: State, steps: seq<Step>, end: State)
    decreases |steps|
  {
    if steps == [] then s == end else Follows(Exec(s, steps[0]), steps[1..], end)
  }
}
