/** Concurrent appends to one activity log.

    The object is shared by any number of appenders that retry on conflict.  What readers
    number pages by is the view: the stored buffer with its backfill.
 */
module ActivityStore {
  import opened Options
  import opened ConflictRetry
  import opened ActivityLog

  function AppendDecision(size: EntrySize): Decision<seq<Event>, Event> {
    (stored, e, now) => Write(Appended(stored, e, now, size))
  }

  function View(stored: Option<seq<Event>>): seq<Event> {
    match stored
    case None => []
    case Some(events) => Backfilled(events)
  }

  /** An empty or absent log, an all-legacy one, and any one whose numbers leave room. */
  ghost predicate WellNumbered(stored: Option<seq<Event>>) {
    stored.Some? ==> NonNegative(stored.value) && Room(stored.value)
  }

  lemma {:induction false} SuffixTrans(a: seq<Event>, b: seq<Event>, c: seq<Event>)
    requires IsSuffix(a, b) && IsSuffix(b, c)
    ensures IsSuffix(a, c)
  {
  }

  lemma {:induction false} SuffixSnoc(a: seq<Event>, b: seq<Event>, e: Event)
    requires IsSuffix(a, b)
    ensures IsSuffix(a + [e], b + [e])
  {
  }

  lemma {:induction false} SuffixIncreasing(a: seq<Event>, b: seq<Event>)
    requires IsSuffix(a, b) && Increasing(b)
    ensures Increasing(a)
  {
    forall i | 0 <= i < |a| ensures a[i] == b[|b| - |a| + i] {
    }
  }

  // ---- One append ----

  lemma {:induction false} TrimRetentionIsSuffix(events: seq<Event>, now: int)
    ensures IsSuffix(TrimRetention(events, now), events)
    decreases |events|
  {
    if events != [] && events[0].ts < now - RETENTION {
      TrimRetentionIsSuffix(events[1..], now);
    }
  }

  lemma {:induction false} IncreasingIsRoomy(events: seq<Event>)
    requires Increasing(events)
    ensures NonNegative(events) && Room(events) && Backfilled(events) == events
  {
    BackfilledNumbered(events);
    BackfillIncreasingIffRoom(events);
  }

  /** One append keeps the numbering usable: the new view is the old one with a higher-numbered
      event behind it, less some entries from the front. */
  lemma {:induction false} AppendExtendsView(stored: Option<seq<Event>>, e: Event, now: int, size: EntrySize)
    requires WellNumbered(stored) && e.seqNo >= 0
    ensures var v, r := View(stored), Some(Appended(stored, e, now, size));
            var v' := View(r);
            && WellNumbered(r)
            && 0 < |v'| <= |v| + 1
            && IsSuffix(v', v + [v'[|v'| - 1]])
            && v'[|v'| - 1].seqNo > MaxSeq(v)
            && v'[|v'| - 1].detail == e.detail
  {
    match stored
    case None =>
      var r := [e];
      assert r[..0] == [];
      assert Backfilled(r) == [Numbered(e, [])];
    case Some(events) =>
      BackfillIncreasingIffRoom(events);
      PrunedAppend(Backfilled(events), e.(seqNo := NextSeq(Backfilled(events))), now, size);
      IncreasingIsRoomy(Appended(stored, e, now, size));
  }

  lemma {:induction false} PrunedAppend(v: seq<Event>, stamped: Event, now: int, size: EntrySize)
    requires Increasing(v) && stamped.seqNo > MaxSeq(v)
    ensures var r := TrimSize(TrimRetention(v, now) + [stamped], size);
            && 0 < |r| <= |v| + 1
            && IsSuffix(r, v + [stamped])
            && r[|r| - 1] == stamped
            && Increasing(r)
  {
    var kept := TrimRetention(v, now);
    TrimRetentionIsSuffix(v, now);
    SuffixSnoc(kept, v, stamped);
    TrimSizeIsNearlyBest(kept + [stamped], size);
    var r := TrimSize(kept + [stamped], size);
    SuffixTrans(r, kept + [stamped], v + [stamped]);
    IncreasingSnoc(v, stamped);
    SuffixIncreasing(r, v + [stamped]);
  }

  // ---- Runs ----

  ghost function Stored(size: EntrySize, ops: seq<Event>, obj: Object<seq<Event>>,
      steps: seq<Step>): Option<seq<Event>> {
    Run(AppendDecision(size), ops, obj, steps).obj.Content()
  }

  /** Everything ever shown, in order.  The present view is its end. */
  ghost function History(size: EntrySize, ops: seq<Event>, obj: Object<seq<Event>>, steps: seq<Step>): seq<Event>
    decreases |steps|
  {
    if steps == [] then View(obj.Content()) else
    var front := steps[..|steps| - 1];
    var before, v := History(size, ops, obj, front), View(Stored(size, ops, obj, steps));
    if v == [] || Stored(size, ops, obj, steps) == Stored(size, ops, obj, front) then before
    else before + [v[|v| - 1]]
  }

  ghost predicate HistoryOk(h: seq<Event>, stored: Option<seq<Event>>) {
    && WellNumbered(stored)
    && IsSuffix(View(stored), h)
    && Increasing(h)
    && (h != [] ==> View(stored) != [])
  }

  lemma {:induction false} StepExtendsHistory(h: seq<Event>, stored: Option<seq<Event>>, e: Event, now: int,
      size: EntrySize)
    requires HistoryOk(h, stored) && e.seqNo >= 0
    ensures var r := Some(Appended(stored, e, now, size));
            var v := View(r);
            && 0 < |v| <= |View(stored)| + 1
            && HistoryOk(h + [v[|v| - 1]], r)
  {
    AppendExtendsView(stored, e, now, size);
    var v, v' := View(stored), View(Some(Appended(stored, e, now, size)));
    var newest := v'[|v'| - 1];
    SuffixIncreasing(v, h);
    MaxSeqOfIncreasing(v);
    MaxSeqOfIncreasing(h);
    IncreasingSnoc(h, newest);
    SuffixSnoc(v, h, newest);
    SuffixTrans(v', v + [newest], h + [newest]);
  }

  /** From one state to a later one the history only grows and the view only moves forward. */
  ghost predicate Advances(h: seq<Event>, v: seq<Event>, h': seq<Event>, v': seq<Event>) {
    && h <= h'
    && |h| - |v| <= |h'| - |v'|
  }

  ghost function Commits(size: EntrySize, ops: seq<Event>, obj: Object<seq<Event>>, steps: seq<Step>): seq<Commit> {
    Run(AppendDecision(size), ops, obj, steps).commits
  }

  lemma {:induction false} StoredStep(size: EntrySize, ops: seq<Event>, obj: Object<seq<Event>>, steps: seq<Step>)
    requires obj.Valid() && steps != []
    ensures var front, step := steps[..|steps| - 1], steps[|steps| - 1];
            if Commits(size, ops, obj, steps) == Commits(size, ops, obj, front) then
              Stored(size, ops, obj, steps) == Stored(size, ops, obj, front)
            else
              && step.Put? && step.writer < |ops|
              && Commits(size, ops, obj, steps) == Commits(size, ops, obj, front) + [Commit(step.writer, step.now)]
              && Stored(size, ops, obj, steps)
                  == Some(Appended(Stored(size, ops, obj, front), ops[step.writer], step.now, size))
  {
    var decide, front := AppendDecision(size), steps[..|steps| - 1];
    RunKeepsInv(decide, ops, obj, front);
    StepContent(decide, ops, obj, Run(decide, ops, obj, front), steps[|steps| - 1]);
  }

  lemma {:induction false} CommitIsVisible(stored: Option<seq<Event>>, e: Event, now: int, size: EntrySize)
    requires WellNumbered(stored) && e.seqNo >= 0
    ensures var r := Some(Appended(stored, e, now, size));
            r != stored && View(r) != [] && View(r)[|View(r)| - 1].detail == e.detail
  {
    AppendExtendsView(stored, e, now, size);
    var v, v' := View(stored), View(Some(Appended(stored, e, now, size)));
    assert v != [] ==> v[|v| - 1] in v;
  }

  /** A step either commits one append, whose event the history gains, or shows nothing new. */
  lemma {:induction false} StepCases(size: EntrySize, ops: seq<Event>, obj: Object<seq<Event>>, steps: seq<Step>)
    requires obj.Valid() && steps != []
    requires forall i | 0 <= i < |ops| :: ops[i].seqNo >= 0
    requires WellNumbered(Stored(size, ops, obj, steps[..|steps| - 1]))
    ensures var front, step := steps[..|steps| - 1], steps[|steps| - 1];
            var before, v := Stored(size, ops, obj, front), View(Stored(size, ops, obj, steps));
            if Commits(size, ops, obj, steps) == Commits(size, ops, obj, front) then
              && Stored(size, ops, obj, steps) == before
              && History(size, ops, obj, steps) == History(size, ops, obj, front)
            else
              && step.Put? && step.writer < |ops| && v != []
              && Commits(size, ops, obj, steps) == Commits(size, ops, obj, front) + [Commit(step.writer, step.now)]
              && Stored(size, ops, obj, steps) == Some(Appended(before, ops[step.writer], step.now, size))
              && History(size, ops, obj, steps) == History(size, ops, obj, front) + [v[|v| - 1]]
              && v[|v| - 1].detail == ops[step.writer].detail
  {
    var front, step := steps[..|steps| - 1], steps[|steps| - 1];
    StoredStep(size, ops, obj, steps);
    if Commits(size, ops, obj, steps) != Commits(size, ops, obj, front) {
      CommitIsVisible(Stored(size, ops, obj, front), ops[step.writer], step.now, size);
    }
  }

  lemma {:induction false} StepAdvances(h: seq<Event>, stored: Option<seq<Event>>, e: Event, now: int, size: EntrySize)
    requires HistoryOk(h, stored) && e.seqNo >= 0
    ensures var r := Some(Appended(stored, e, now, size));
            var v := View(r);
            v != [] && HistoryOk(h + [v[|v| - 1]], r) && Advances(h, View(stored), h + [v[|v| - 1]], v)
  {
    StepExtendsHistory(h, stored, e, now, size);
  }

  lemma {:induction false} HistoryStep(size: EntrySize, ops: seq<Event>, obj: Object<seq<Event>>, steps: seq<Step>)
    requires obj.Valid() && steps != []
    requires forall i | 0 <= i < |ops| :: ops[i].seqNo >= 0
    ensures HistoryOk(History(size, ops, obj, steps[..|steps| - 1]), Stored(size, ops, obj, steps[..|steps| - 1])) ==>
              HistoryOk(History(size, ops, obj, steps), Stored(size, ops, obj, steps))
    ensures HistoryOk(History(size, ops, obj, steps[..|steps| - 1]), Stored(size, ops, obj, steps[..|steps| - 1])) ==>
              Advances(History(size, ops, obj, steps[..|steps| - 1]),
                  View(Stored(size, ops, obj, steps[..|steps| - 1])),
                       History(size, ops, obj, steps), View(Stored(size, ops, obj, steps)))
  {
    var front, step := steps[..|steps| - 1], steps[|steps| - 1];
    if HistoryOk(History(size, ops, obj, front), Stored(size, ops, obj, front)) {
      StepCases(size, ops, obj, steps);
      if Commits(size, ops, obj, steps) != Commits(size, ops, obj, front) {
        StepAdvances(History(size, ops, obj, front), Stored(size, ops, obj, front), ops[step.writer], step.now, size);
      }
    }
  }

  lemma {:induction false} HistoryIsKept(size: EntrySize, ops: seq<Event>, obj: Object<seq<Event>>, steps: seq<Step>)
    requires obj.Valid() && WellNumbered(obj.Content())
    requires forall i | 0 <= i < |ops| :: ops[i].seqNo >= 0
    ensures HistoryOk(History(size, ops, obj, steps), Stored(size, ops, obj, steps))
    decreases |steps|
  {
    if steps == [] {
      var c := obj.Content();
      assert Stored(size, ops, obj, steps) == c;
      if c.Some? {
        BackfillIncreasingIffRoom(c.value);
      }
    } else {
      HistoryIsKept(size, ops, obj, steps[..|steps| - 1]);
      HistoryStep(size, ops, obj, steps);
    }
  }

  function Details(events: seq<Event>): seq<Detail> {
    seq(|events|, i requires 0 <= i < |events| => events[i].detail)
  }

  function CommittedDetails(ops: seq<Event>, commits: seq<Commit>): seq<Detail>
    requires forall i | 0 <= i < |commits| :: commits[i].writer < |ops|
  {
    seq(|commits|, i requires 0 <= i < |commits| => ops[commits[i].writer].detail)
  }

  ghost predicate ByCommits(ops: seq<Event>, commits: seq<Commit>, start: seq<Detail>, h: seq<Event>) {
    && (forall i | 0 <= i < |commits| :: commits[i].writer < |ops|)
    && Details(h) == start + CommittedDetails(ops, commits)
  }

  lemma {:induction false} DetailsSnoc(ops: seq<Event>, before: seq<Commit>, c: Commit, start: seq<Detail>,
      h: seq<Event>, e: Event)
    requires ByCommits(ops, before, start, h) && c.writer < |ops| && e.detail == ops[c.writer].detail
    ensures ByCommits(ops, before + [c], start, h + [e])
  {
    assert Details(h + [e]) == Details(h) + [e.detail];
    assert CommittedDetails(ops, before + [c]) == CommittedDetails(ops, before) + [e.detail];
  }

  lemma {:induction false} CommitsStep(size: EntrySize, ops: seq<Event>, obj: Object<seq<Event>>, steps: seq<Step>,
      start: seq<Detail>)
    requires obj.Valid() && steps != []
    requires forall i | 0 <= i < |ops| :: ops[i].seqNo >= 0
    requires WellNumbered(Stored(size, ops, obj, steps[..|steps| - 1]))
    requires ByCommits(ops, Commits(size, ops, obj, steps[..|steps| - 1]), start,
              History(size, ops, obj, steps[..|steps| - 1]))
    ensures ByCommits(ops, Commits(size, ops, obj, steps), start, History(size, ops, obj, steps))
  {
    var front, step, v := steps[..|steps| - 1], steps[|steps| - 1], View(Stored(size, ops, obj, steps));
    StepCases(size, ops, obj, steps);
    if Commits(size, ops, obj, steps) != Commits(size, ops, obj, front) {
      DetailsSnoc(ops, Commits(size, ops, obj, front), Commit(step.writer, step.now), start,
          History(size, ops, obj, front), v[|v| - 1]);
    }
  }

  lemma {:induction false} NoCommits(ops: seq<Event>, h: seq<Event>)
    ensures ByCommits(ops, [], Details(h), h)
  {
    assert CommittedDetails(ops, []) == [];
  }

  lemma {:induction false} HistoryFollowsCommits(size: EntrySize, ops: seq<Event>, obj: Object<seq<Event>>,
      steps: seq<Step>)
    requires obj.Valid() && WellNumbered(obj.Content())
    requires forall i | 0 <= i < |ops| :: ops[i].seqNo >= 0
    ensures ByCommits(ops, Commits(size, ops, obj, steps), Details(View(obj.Content())), History(size, ops, obj, steps))
    decreases |steps|
  {
    if steps == [] {
      assert Commits(size, ops, obj, steps) == [];
      NoCommits(ops, View(obj.Content()));
    } else {
      HistoryFollowsCommits(size, ops, obj, steps[..|steps| - 1]);
      HistoryIsKept(size, ops, obj, steps[..|steps| - 1]);
      CommitsStep(size, ops, obj, steps, Details(View(obj.Content())));
    }
  }

  /** Everything ever shown is what was there at the start followed by the events of the
      committed appends, in commit order, each once. */
  lemma {:induction false} HistoryIsTheCommits(size: EntrySize, ops: seq<Event>, obj: Object<seq<Event>>,
      steps: seq<Step>)
    requires obj.Valid() && WellNumbered(obj.Content())
    requires forall i | 0 <= i < |ops| :: ops[i].seqNo >= 0
    ensures forall i | 0 <= i < |Commits(size, ops, obj, steps)| :: Commits(size, ops, obj, steps)[i].writer < |ops|
    ensures Details(History(size, ops, obj, steps))
            == Details(View(obj.Content())) + CommittedDetails(ops, Commits(size, ops, obj, steps))
  {
    HistoryFollowsCommits(size, ops, obj, steps);
  }

  lemma {:induction false} AdvancesTrans(h: seq<Event>, v: seq<Event>, h': seq<Event>, v': seq<Event>, h'': seq<Event>,
      v'': seq<Event>)
    requires Advances(h, v, h', v') && Advances(h', v', h'', v'')
    ensures Advances(h, v, h'', v'')
  {
  }

  lemma {:induction false} HistoryGrows(size: EntrySize, ops: seq<Event>, obj: Object<seq<Event>>, steps: seq<Step>,
      more: seq<Step>)
    requires obj.Valid() && WellNumbered(obj.Content())
    requires forall i | 0 <= i < |ops| :: ops[i].seqNo >= 0
    ensures Advances(History(size, ops, obj, steps), View(Stored(size, ops, obj, steps)),
                     History(size, ops, obj, steps + more), View(Stored(size, ops, obj, steps + more)))
    decreases |more|
  {
    if more == [] {
      assert steps + more == steps;
    } else {
      var front, all := steps + more[..|more| - 1], steps + more;
      assert all[..|all| - 1] == front;
      HistoryGrows(size, ops, obj, steps, more[..|more| - 1]);
      HistoryIsKept(size, ops, obj, front);
      HistoryStep(size, ops, obj, all);
      AdvancesTrans(History(size, ops, obj, steps), View(Stored(size, ops, obj, steps)),
                    History(size, ops, obj, front), View(Stored(size, ops, obj, front)),
                    History(size, ops, obj, all), View(Stored(size, ops, obj, all)));
    }
  }

  /** Cursors are sound for ever: in every reachable state the numbers are positive and strictly
      increasing, and a number seen once never names a different event in any later state,
      whatever was appended, aged out or trimmed in between. */
  lemma {:induction false} NumbersAreStable(size: EntrySize, ops: seq<Event>, obj: Object<seq<Event>>, steps: seq<Step>,
      more: seq<Step>, a: Event, b: Event)
    requires obj.Valid() && WellNumbered(obj.Content())
    requires forall i | 0 <= i < |ops| :: ops[i].seqNo >= 0
    requires a in View(Stored(size, ops, obj, steps))
    requires b in View(Stored(size, ops, obj, steps + more))
    ensures Increasing(View(Stored(size, ops, obj, steps)))
    ensures a.seqNo == b.seqNo ==> a == b
  {
    HistoryIsKept(size, ops, obj, steps);
    HistoryIsKept(size, ops, obj, steps + more);
    HistoryGrows(size, ops, obj, steps, more);
    var h, h' := History(size, ops, obj, steps), History(size, ops, obj, steps + more);
    SuffixIncreasing(View(Stored(size, ops, obj, steps)), h);
    SameNumberSameEvent(View(Stored(size, ops, obj, steps)), h, View(Stored(size, ops, obj, steps + more)), h', a, b);
  }

  lemma {:induction false} SameNumberSameEvent(v: seq<Event>, h: seq<Event>, v': seq<Event>, h': seq<Event>, a: Event,
      b: Event)
    requires IsSuffix(v, h) && IsSuffix(v', h') && h <= h' && Increasing(h')
    requires a in v && b in v'
    ensures a.seqNo == b.seqNo ==> a == b
  {
    var i := SuffixIndex(v, h, a);
    var j := SuffixIndex(v', h', b);
    assert h[i] == h'[i];
  }

  lemma {:induction false} SuffixIndex(v: seq<Event>, h: seq<Event>, e: Event) returns (i: nat)
    requires IsSuffix(v, h) && e in v
    ensures i < |h| && h[i] == e
  {
    var k :| 0 <= k < |v| && v[k] == e;
    i := |h| - |v| + k;
  }

  /** No append is lost or doubled: the log is the sequential fold of the committed appends, and
      every append that reported a commit is in it exactly once. */
  lemma {:induction false} AppendsAreNeitherLostNorDoubled(size: EntrySize, ops: seq<Event>, obj: Object<seq<Event>>,
      steps: seq<Step>)
    requires obj.Valid()
    ensures var s := Run(AppendDecision(size), ops, obj, steps);
            && (forall c <- s.commits :: c.writer < |ops|)
            && s.obj.Content() == Fold(AppendDecision(size), ops, obj.Content(), s.commits)
            && (forall w | 0 <= w < |ops| :: CountMatches(s.phases[w], CommitsOf(s.commits, w)))
            && (|ops| <= MAX_ATTEMPTS ==> forall w | 0 <= w < |ops| :: s.phases[w] != Returned(GaveUp))
  {
    EveryInterleavingIsSequential(AppendDecision(size), ops, obj, steps);
    var s := Run(AppendDecision(size), ops, obj, steps);
    forall w | 0 <= w < |ops| && s.phases[w] == Returned(GaveUp)
      ensures |ops| > MAX_ATTEMPTS
    {
      GivingUpNeedsFiveOthers(AppendDecision(size), ops, obj, steps, w);
    }
  }
}
