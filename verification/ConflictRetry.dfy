/** Optimistic concurrency on one versioned API object.

    Any number of requests run the same loop: read the object, decide what it should
    become, and write it back on condition that its version has not moved.  The decision
    is a parameter, so the activity log and the env-var Secret share one proof.
 */
module ConflictRetry {
  import opened Options

  const MAX_ATTEMPTS: nat := 5

  /** What the API server holds.  Creating gives version 1 and every update adds one. */
  datatype Object<+V> = Absent | Present(value: V, version: nat)
  {
    function Content(): Option<V> {
      match this
      case Absent => None
      case Present(v, _) => Some(v)
    }

    function Version(): nat {
      match this
      case Absent => 0
      case Present(_, n) => n
    }

    predicate Valid() {
      Present? ==> version > 0
    }
  }

  /** The answer of one load-modify-write cycle. */
  datatype Verdict<+V> = Write(value: V) | Keep | Refuse

  /** How a request ended.  `Skipped` is the return without a write when the namespace is
      gone; `Failed` covers every other error, including an update whose reply was lost. */
  datatype Outcome = Committed | Kept | Refused | GaveUp | Skipped | Failed

  datatype Phase<+V> =
    | Ready(attempt: nat)
    | Loaded(attempt: nat, snapshot: Object<V>)
    | Returned(outcome: Outcome)

  /** A write that reached the server: whose it was and the clock its attempt read. */
  datatype Commit = Commit(writer: nat, now: int)

  datatype State<+V> = State(obj: Object<V>, phases: seq<Phase<V>>, commits: seq<Commit>)

  datatype Step =
    | Get(writer: nat)
    | Put(writer: nat, now: int, ackLost: bool)
    | Abort(writer: nat, skipped: bool)

  type Decision<!V, !Op> = (Option<V>, Op, int) -> Verdict<V>

  function Init<V>(obj: Object<V>, writers: nat): State<V> {
    State(obj, seq(writers, _ => Ready(0)), [])
  }

  function WithPhase<V>(s: State<V>, w: nat, p: Phase<V>): State<V>
    requires w < |s.phases|
  {
    s.(phases := s.phases[w := p])
  }

  /** A conditional write: it goes through only against the version that was loaded. */
  function ExecPut<V, Op>(decide: Decision<V, Op>, ops: seq<Op>, s: State<V>, w: nat, now: int, ackLost: bool): State<V>
    requires |ops| == |s.phases| && w < |ops| && s.phases[w].Loaded?
  {
    var Loaded(attempt, snapshot) := s.phases[w];
    match decide(snapshot.Content(), ops[w], now)
    case Refuse => WithPhase(s, w, Returned(Refused))
    case Keep => WithPhase(s, w, Returned(Kept))
    case Write(v) =>
      if snapshot.Version() == s.obj.Version() then
        State(Present(v, s.obj.Version() + 1),
              s.phases[w := Returned(if ackLost then Failed else Committed)],
              s.commits + [Commit(w, now)])
      else if attempt + 1 < MAX_ATTEMPTS then
        WithPhase(s, w, Ready(attempt + 1))
      else
        WithPhase(s, w, Returned(GaveUp))
  }

  /** One atomic step; a step that is not possible changes nothing. */
  function Exec<V, Op>(decide: Decision<V, Op>, ops: seq<Op>, s: State<V>, step: Step): State<V>
    requires |ops| == |s.phases|
    ensures |Exec(decide, ops, s, step).phases| == |ops|
  {
    if step.writer >= |ops| then s else
    var p := s.phases[step.writer];
    match step
    case Get(w) => if p.Ready? then WithPhase(s, w, Loaded(p.attempt, s.obj)) else s
    case Put(w, now, ackLost) => if p.Loaded? then ExecPut(decide, ops, s, w, now, ackLost) else s
    case Abort(w, skipped) => if p.Returned? then s else WithPhase(s, w, Returned(if skipped then Skipped else Failed))
  }

  /** An interleaving is any finite list of steps. */
  function Run<V, Op>(decide: Decision<V, Op>, ops: seq<Op>, obj: Object<V>, steps: seq<Step>): (s: State<V>)
    ensures |s.phases| == |ops|
    decreases |steps|
  {
    if steps == [] then Init(obj, |ops|)
    else Exec(decide, ops, Run(decide, ops, obj, steps[..|steps| - 1]), steps[|steps| - 1])
  }

  /** The sequential meaning: the decisions of the committed requests, one after another. */
  function Fold<V, Op>(decide: Decision<V, Op>, ops: seq<Op>, init: Option<V>, commits: seq<Commit>): Option<V>
    requires forall c <- commits :: c.writer < |ops|
    decreases |commits|
  {
    if commits == [] then init else
    var before := Fold(decide, ops, init, commits[..|commits| - 1]);
    var c := commits[|commits| - 1];
    match decide(before, ops[c.writer], c.now)
    case Write(v) => Some(v)
    case _ => before
  }

  /** Each commit was decided, as a write, against exactly what its predecessors left. */
  ghost predicate AllApplied<V, Op>(decide: Decision<V, Op>, ops: seq<Op>, init: Option<V>, commits: seq<Commit>)
    requires forall c <- commits :: c.writer < |ops|
    decreases |commits|
  {
    commits == [] ||
    var before, c := commits[..|commits| - 1], commits[|commits| - 1];
    && AllApplied(decide, ops, init, before)
    && decide(Fold(decide, ops, init, before), ops[c.writer], c.now).Write?
  }

  function CommitsOf(commits: seq<Commit>, w: nat): nat
    decreases |commits|
  {
    if commits == [] then 0
    else CommitsOf(commits[..|commits| - 1], w) + if commits[|commits| - 1].writer == w then 1 else 0
  }

  /** How often a request in this phase may have written. */
  predicate CountMatches<V>(p: Phase<V>, n: nat) {
    if p == Returned(Committed) then n == 1
    else if p == Returned(Failed) then n <= 1
    else n == 0
  }

  /** The object is the fold of its commits and carries one version per commit. */
  ghost predicate StoreOk<V, Op>(decide: Decision<V, Op>, ops: seq<Op>, obj: Object<V>, s: State<V>) {
    && (forall c <- s.commits :: c.writer < |ops|)
    && s.obj.Valid()
    && s.obj.Version() == obj.Version() + |s.commits|
    && s.obj.Content() == Fold(decide, ops, obj.Content(), s.commits)
    && AllApplied(decide, ops, obj.Content(), s.commits)
  }

  /** What is known of one request: its snapshot is current whenever its version is, and every
      failed attempt is paid for by a commit. */
  ghost predicate WriterOk<V>(base: nat, s: State<V>, w: nat)
    requires w < |s.phases|
  {
    var p := s.phases[w];
    && CountMatches(p, CommitsOf(s.commits, w))
    && (p.Loaded? ==>
          && p.snapshot.Valid()
          && base + p.attempt <= p.snapshot.Version() <= s.obj.Version()
          && (p.snapshot.Version() == s.obj.Version() ==> p.snapshot.Content() == s.obj.Content()))
    && (p.Ready? ==> base + p.attempt <= s.obj.Version())
    && (p == Returned(GaveUp) ==> base + MAX_ATTEMPTS <= s.obj.Version())
  }

  ghost predicate Inv<V, Op>(decide: Decision<V, Op>, ops: seq<Op>, obj: Object<V>, s: State<V>) {
    && |s.phases| == |ops|
    && StoreOk(decide, ops, obj, s)
    && (forall w | 0 <= w < |ops| :: WriterOk(obj.Version(), s, w))
  }

  lemma {:induction false} CommitKeepsStoreOk<V, Op>(decide: Decision<V, Op>, ops: seq<Op>, obj: Object<V>, s: State<V>,
      c: Commit, v: V, t: State<V>)
    requires StoreOk(decide, ops, obj, s) && c.writer < |ops|
    requires decide(s.obj.Content(), ops[c.writer], c.now) == Write(v)
    requires t.obj == Present(v, s.obj.Version() + 1) && t.commits == s.commits + [c]
    ensures StoreOk(decide, ops, obj, t)
  {
    assert t.commits[..|s.commits|] == s.commits;
  }

  lemma {:induction false} CommitKeepsWriterOk<V>(base: nat, s: State<V>, c: Commit, t: State<V>, w: nat)
    requires w < |s.phases| == |t.phases| && WriterOk(base, s, w)
    requires t.obj.Version() == s.obj.Version() + 1 && t.commits == s.commits + [c]
    requires if w == c.writer then s.phases[w].Loaded? && t.phases[w] in {Returned(Committed), Returned(Failed)}
             else t.phases[w] == s.phases[w]
    ensures WriterOk(base, t, w)
  {
    assert t.commits[..|s.commits|] == s.commits;
  }

  lemma {:induction false} CommitPreservesInv<V, Op>(decide: Decision<V, Op>, ops: seq<Op>, obj: Object<V>, s: State<V>,
      step: Step)
    requires Inv(decide, ops, obj, s) && Exec(decide, ops, s, step).commits != s.commits
    ensures Inv(decide, ops, obj, Exec(decide, ops, s, step))
  {
    var t, w, c := Exec(decide, ops, s, step), step.writer, Commit(step.writer, step.now);
    assert WriterOk(obj.Version(), s, w);
    CommitKeepsStoreOk(decide, ops, obj, s, c, t.obj.value, t);
    forall v | 0 <= v < |ops| ensures WriterOk(obj.Version(), t, v) {
      assert WriterOk(obj.Version(), s, v);
      CommitKeepsWriterOk(obj.Version(), s, c, t, v);
    }
  }

  lemma {:induction false} StepPreservesInv<V, Op>(decide: Decision<V, Op>, ops: seq<Op>, obj: Object<V>, s: State<V>,
      step: Step)
    requires Inv(decide, ops, obj, s)
    ensures Inv(decide, ops, obj, Exec(decide, ops, s, step))
  {
    var t := Exec(decide, ops, s, step);
    if t.commits != s.commits {
      CommitPreservesInv(decide, ops, obj, s, step);
    } else {
      forall v | 0 <= v < |ops| ensures WriterOk(obj.Version(), t, v) {
        assert WriterOk(obj.Version(), s, v);
      }
    }
  }

  lemma {:induction false} RunKeepsInv<V, Op>(decide: Decision<V, Op>, ops: seq<Op>, obj: Object<V>, steps: seq<Step>)
    requires obj.Valid()
    ensures Inv(decide, ops, obj, Run(decide, ops, obj, steps))
    decreases |steps|
  {
    if steps != [] {
      var before := steps[..|steps| - 1];
      RunKeepsInv(decide, ops, obj, before);
      StepPreservesInv(decide, ops, obj, Run(decide, ops, obj, before), steps[|steps| - 1]);
    }
  }

  /** A step leaves the content alone or replaces it by a decision about that very content. */
  lemma {:induction false} StepContent<V, Op>(decide: Decision<V, Op>, ops: seq<Op>, obj: Object<V>, s: State<V>,
      step: Step)
    requires Inv(decide, ops, obj, s)
    ensures var t := Exec(decide, ops, s, step);
            || (t.obj == s.obj && t.commits == s.commits)
            || (&& step.Put? && step.writer < |ops| && t.obj.Present?
                && t.commits == s.commits + [Commit(step.writer, step.now)]
                && decide(s.obj.Content(), ops[step.writer], step.now) == Write(t.obj.value))
  {
    if step.writer < |ops| {
      assert WriterOk(obj.Version(), s, step.writer);
    }
  }

  /** Main result.  Under every interleaving the object is the sequential fold of the committed
      requests, each of which was decided against exactly the state its predecessors left, and
      a request wrote once if it reported success, at most once if its reply was lost, and
      never in any other case. */
  lemma {:induction false} EveryInterleavingIsSequential<V, Op>(decide: Decision<V, Op>, ops: seq<Op>, obj: Object<V>,
      steps: seq<Step>)
    requires obj.Valid()
    ensures var s := Run(decide, ops, obj, steps);
            && (forall c <- s.commits :: c.writer < |ops|)
            && s.obj.Content() == Fold(decide, ops, obj.Content(), s.commits)
            && AllApplied(decide, ops, obj.Content(), s.commits)
            && (forall w | 0 <= w < |ops| :: CountMatches(s.phases[w], CommitsOf(s.commits, w)))
  {
    RunKeepsInv(decide, ops, obj, steps);
    var s := Run(decide, ops, obj, steps);
    forall w | 0 <= w < |ops| ensures CountMatches(s.phases[w], CommitsOf(s.commits, w)) {
      assert WriterOk(obj.Version(), s, w);
    }
  }

  lemma {:induction false} CommitCountBound(commits: seq<Commit>, writers: nat, idle: nat)
    requires idle < writers
    requires forall c <- commits :: c.writer < writers
    requires forall w | 0 <= w < writers :: CommitsOf(commits, w) <= 1
    requires CommitsOf(commits, idle) == 0
    ensures |commits| < writers
  {
    forall i, j | 0 <= i < j < |commits|
      ensures commits[i].writer != commits[j].writer
    {
      if commits[i].writer == commits[j].writer {
        TwoCommits(commits, i, j);
      }
    }
    var used := set i | 0 <= i < |commits| :: commits[i].writer;
    DistinctCount(commits, used);
    if idle in used {
      var i :| 0 <= i < |commits| && commits[i].writer == idle;
      OneCommit(commits, i);
    }
    assert used <= NatsBelow(writers) - {idle};
    SubsetCount(used, NatsBelow(writers) - {idle});
  }

  lemma {:induction false} OneCommit(commits: seq<Commit>, i: nat)
    requires i < |commits|
    ensures CommitsOf(commits, commits[i].writer) >= 1
    decreases |commits|
  {
    if i < |commits| - 1 {
      OneCommit(commits[..|commits| - 1], i);
    }
  }

  lemma {:induction false} TwoCommits(commits: seq<Commit>, i: nat, j: nat)
    requires i < j < |commits| && commits[i].writer == commits[j].writer
    ensures CommitsOf(commits, commits[i].writer) >= 2
    decreases |commits|
  {
    var front := commits[..|commits| - 1];
    if j < |commits| - 1 {
      TwoCommits(front, i, j);
    } else {
      OneCommit(front, i);
    }
  }

  lemma {:induction false} DistinctCount(commits: seq<Commit>, used: set<nat>)
    requires forall i, j | 0 <= i < j < |commits| :: commits[i].writer != commits[j].writer
    requires used == set i | 0 <= i < |commits| :: commits[i].writer
    ensures |used| == |commits|
    decreases |commits|
  {
    if commits != [] {
      var front, last := commits[..|commits| - 1], commits[|commits| - 1].writer;
      var fewer := set i | 0 <= i < |front| :: front[i].writer;
      assert used == fewer + {last};
      DistinctCount(front, fewer);
    }
  }

  function NatsBelow(n: nat): (r: set<nat>)
    ensures forall w: nat :: w in r <==> w < n
    ensures |r| == n
  {
    if n == 0 then {} else NatsBelow(n - 1) + {n - 1}
  }

  lemma {:induction false} SubsetCount<T>(a: set<T>, b: set<T>)
    requires a <= b
    ensures |a| <= |b|
    decreases a
  {
    if a != {} {
      var x :| x in a;
      SubsetCount(a - {x}, b - {x});
    }
  }

  /** A conflict always means that somebody else made progress: a request that runs out of
      attempts saw five foreign commits, so with at most five requests in flight none gives up. */
  lemma {:induction false} GivingUpNeedsFiveOthers<V, Op>(decide: Decision<V, Op>, ops: seq<Op>, obj: Object<V>,
      steps: seq<Step>, w: nat)
    requires obj.Valid() && w < |ops|
    requires Run(decide, ops, obj, steps).phases[w] == Returned(GaveUp)
    ensures |Run(decide, ops, obj, steps).commits| >= MAX_ATTEMPTS
    ensures |ops| > MAX_ATTEMPTS
  {
    RunKeepsInv(decide, ops, obj, steps);
    var s := Run(decide, ops, obj, steps);
    assert WriterOk(obj.Version(), s, w);
    forall v | 0 <= v < |ops| ensures CommitsOf(s.commits, v) <= 1 {
      assert WriterOk(obj.Version(), s, v);
    }
    CommitCountBound(s.commits, |ops|, w);
  }

  /** The object after other writers stored `values` one after another. */
  function After<V>(o: Object<V>, values: seq<V>): Object<V>
    decreases |values|
  {
    if values == [] then o
    else Present(values[|values| - 1], After(o, values[..|values| - 1]).Version() + 1)
  }

  /** The object as attempt `a` reads it, when `rivals[i]` landed during attempt `i`. */
  function Seen<V>(o: Object<V>, rivals: seq<seq<V>>, a: nat): Object<V>
    requires a <= |rivals|
  {
    if a == 0 then o else After(Seen(o, rivals, a - 1), rivals[a - 1])
  }

  lemma {:induction false} AfterVersion<V>(o: Object<V>, values: seq<V>)
    ensures After(o, values).Version() == o.Version() + |values|
    decreases |values|
  {
    if values != [] {
      AfterVersion(o, values[..|values| - 1]);
    }
  }

  /** Attempt `a` wanted to write what it had read, and something landed first. */
  ghost predicate Contended<V, Op>(o: Object<V>, decide: Decision<V, Op>, op: Op, clock: nat -> int,
      rivals: seq<seq<V>>, a: nat)
    requires a < |rivals|
  {
    rivals[a] != [] && decide(Seen(o, rivals, a).Content(), op, clock(a)).Write?
  }

  /** How attempt `a` ends a request that found `seen` and was left alone if it wrote. */
  ghost predicate EndsAt<V>(verdict: Verdict<V>, seen: Object<V>, alone: bool, outcome: Outcome, stored: Object<V>) {
    match verdict
    case Write(v) => outcome == Committed && alone && stored == Present(v, seen.Version() + 1)
    case Keep => outcome == Kept && stored == seen
    case Refuse => outcome == Refused && stored == seen
  }

  class ApiObject<V> {
    var stored: Object<V>

    constructor (o: Object<V>)
      ensures stored == o
    {
      stored := o;
    }

    /** A conditional create or update: refused when the version has moved. */
    method Put(seen: Object<V>, v: V) returns (accepted: bool)
      modifies this
      ensures accepted == (seen.Version() == old(stored).Version())
      ensures stored == if accepted then Present(v, old(stored).Version() + 1) else old(stored)
    {
      accepted := seen.Version() == stored.Version();
      if accepted {
        stored := Present(v, stored.Version() + 1);
      }
    }

    /** Writes of other requests, landing one by one. */
    method Interfere(values: seq<V>)
      modifies this
      ensures stored == After(old(stored), values)
    {
      for i := 0 to |values|
        invariant stored == After(old(stored), values[..i])
      {
        assert values[..i + 1][..i] == values[..i];
        stored := Present(values[i], stored.Version() + 1);
      }
      assert values[..|values|] == values;
    }

    /** The retry loop against arbitrary interference: `rivals[i]` lands between the read and
        the write of attempt `i`.  It stops at the first attempt that was left alone or did
        not want to write, and what it stores was decided on exactly what it replaces. */
    method UpdateWithConflictRetry<Op>(decide: Decision<V, Op>, op: Op, clock: nat -> int, rivals: seq<seq<V>>)
      returns (outcome: Outcome, attempt: nat)
      requires |rivals| == MAX_ATTEMPTS
      modifies this
      ensures attempt <= MAX_ATTEMPTS
      ensures forall b | 0 <= b < attempt :: Contended(old(stored), decide, op, clock, rivals, b)
      ensures attempt == MAX_ATTEMPTS ==> outcome == GaveUp && stored == Seen(old(stored), rivals, attempt)
      ensures attempt < MAX_ATTEMPTS ==>
                var seen := Seen(old(stored), rivals, attempt);
                EndsAt(decide(seen.Content(), op, clock(attempt)), seen, rivals[attempt] == [], outcome, stored)
    {
      attempt := 0;
      while attempt < MAX_ATTEMPTS
        invariant attempt <= MAX_ATTEMPTS
        invariant stored == Seen(old(stored), rivals, attempt)
        invariant forall b | 0 <= b < attempt :: Contended(old(stored), decide, op, clock, rivals, b)
      {
        var seen := stored;
        match decide(seen.Content(), op, clock(attempt)) {
          case Keep => return Kept, attempt;
          case Refuse => return Refused, attempt;
          case Write(v) =>
            AfterVersion(seen, rivals[attempt]);
            Interfere(rivals[attempt]);
            var accepted := Put(seen, v);
            if accepted {
              return Committed, attempt;
            }
            attempt := attempt + 1;
        }
      }
      outcome := GaveUp;
    }
  }
}
