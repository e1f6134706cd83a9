/** The per-project activity log: numbering, pruning and appending.

    The functions give the meaning of the log operations; the methods are the loops over
    the slice, proved to compute them.
 */
module ActivityLog {
  import opened Options
  import opened ConflictRetry

  const CAP: nat := 2000
  const MAX_BYTES: nat := 768 * 1024
  /** Thirty days in nanoseconds. */
  const RETENTION: int := 30 * 24 * 3600 * 1_000_000_000

  datatype Detail = Detail(
    actor: string,
    action: string,
    kind: string,
    resource: string,
    project: string,
    msg: string,
    meta: map<string, string>)

  /** A zero sequence number marks an entry written before numbering existed. */
  datatype Event = Event(seqNo: int, ts: int, detail: Detail)

  /** The length of one marshalled entry. */
  type EntrySize = Event -> nat

  // ---- Sequence numbers ----

  function MaxSeq(events: seq<Event>): (m: int)
    ensures m >= 0
    ensures forall e <- events :: e.seqNo <= m
    decreases |events|
  {
    if events == [] then 0 else
    var m, last := MaxSeq(events[..|events| - 1]), events[|events| - 1].seqNo;
    assert forall e <- events :: e in events[..|events| - 1] || e == events[|events| - 1];
    if last > m then last else m
  }

  function NextSeq(events: seq<Event>): int {
    MaxSeq(events) + 1
  }

  /** An entry as it is read behind `before`: a zero number means "one past what came earlier". */
  function Numbered(e: Event, before: seq<Event>): Event {
    if e.seqNo == 0 then e.(seqNo := NextSeq(before)) else e
  }

  function Backfilled(events: seq<Event>): (r: seq<Event>)
    ensures |r| == |events|
    decreases |events|
  {
    if events == [] then [] else
    var before := Backfilled(events[..|events| - 1]);
    before + [Numbered(events[|events| - 1], before)]
  }

  ghost predicate NonNegative(events: seq<Event>) {
    forall i | 0 <= i < |events| :: events[i].seqNo >= 0
  }

  /** Positive and strictly increasing: what cursors rely on. */
  ghost predicate Increasing(events: seq<Event>) {
    && (forall i | 0 <= i < |events| :: events[i].seqNo > 0)
    && (forall i, j | 0 <= i < j < |events| :: events[i].seqNo < events[j].seqNo)
  }

  /** Every number already present leaves room for the unnumbered entries before it. */
  ghost predicate Room(events: seq<Event>) {
    && (forall i | 0 <= i < |events| && events[i].seqNo != 0 :: events[i].seqNo > i)
    && (forall i, j | 0 <= j < i < |events| && events[i].seqNo != 0 && events[j].seqNo != 0 ::
          events[i].seqNo - events[j].seqNo >= i - j)
  }

  lemma {:induction false} MaxSeqOfIncreasing(events: seq<Event>)
    requires Increasing(events)
    ensures MaxSeq(events) == if events == [] then 0 else events[|events| - 1].seqNo
  {
    if events != [] {
      MaxSeqOfIncreasing(events[..|events| - 1]);
    }
  }

  lemma {:induction false} MaxSeqSnoc(events: seq<Event>, e: Event)
    ensures MaxSeq(events + [e]) == if e.seqNo > MaxSeq(events) then e.seqNo else MaxSeq(events)
  {
    assert (events + [e])[..|events|] == events;
  }

  lemma {:induction false} BackfilledSnoc(events: seq<Event>, e: Event)
    ensures Backfilled(events + [e]) == Backfilled(events) + [Numbered(e, Backfilled(events))]
  {
    assert (events + [e])[..|events|] == events;
  }

  lemma {:induction false} BackfilledPrefix(events: seq<Event>, n: nat)
    requires n <= |events|
    ensures Backfilled(events)[..n] == Backfilled(events[..n])
    decreases |events|
  {
    if n < |events| {
      var front := events[..|events| - 1];
      BackfilledPrefix(front, n);
      assert front[..n] == events[..n];
    } else {
      assert events[..n] == events;
    }
  }

  lemma {:induction false} BackfilledAt(events: seq<Event>, i: nat)
    requires i < |events|
    ensures Backfilled(events)[i] == Numbered(events[i], Backfilled(events[..i]))
  {
    BackfilledPrefix(events, i + 1);
    assert events[..i + 1][..i] == events[..i];
    assert Backfilled(events)[..i + 1][i] == Backfilled(events)[i];
  }

  /** How far the numbering has got after `events`: the last number present plus the
      unnumbered entries since. */
  function Reached(events: seq<Event>): int
    decreases |events|
  {
    if events == [] then 0 else
    var last := events[|events| - 1].seqNo;
    if last == 0 then Reached(events[..|events| - 1]) + 1 else last
  }

  lemma {:induction false} ReachedFrom(events: seq<Event>)
    ensures Reached(events) == |events|
            || exists j | 0 <= j < |events| :: events[j].seqNo != 0 &&
                Reached(events) == events[j].seqNo + |events| - 1 - j
    decreases |events|
  {
    if events != [] {
      var front := events[..|events| - 1];
      if events[|events| - 1].seqNo == 0 {
        ReachedFrom(front);
        if Reached(front) != |front| {
          var j :| 0 <= j < |front| && front[j].seqNo != 0 && Reached(front) == front[j].seqNo + |front| - 1 - j;
          assert events[j].seqNo != 0;
        }
      }
    }
  }

  /** Appending a view entry above everything so far keeps the view increasing. */
  lemma {:induction false} IncreasingSnoc(view: seq<Event>, e: Event)
    requires Increasing(view) && e.seqNo > MaxSeq(view)
    ensures Increasing(view + [e])
  {
    forall i | 0 <= i < |view| ensures view[i].seqNo <= MaxSeq(view) {
      assert view[i] in view;
    }
  }

  lemma {:induction false} IncreasingGap(events: seq<Event>, j: nat, i: nat)
    requires Increasing(events) && j <= i < |events|
    ensures events[i].seqNo - events[j].seqNo >= i - j
    ensures events[i].seqNo > i
  {
    if i > j {
      IncreasingGap(events, j, i - 1);
    } else if i > 0 {
      IncreasingGap(events, 0, i - 1);
    }
  }

  lemma {:induction false} NextIsGreater(events: seq<Event>)
    requires NonNegative(events) && Room(events) && events != []
    requires MaxSeq(Backfilled(events[..|events| - 1])) == Reached(events[..|events| - 1])
    ensures Numbered(events[|events| - 1],
              Backfilled(events[..|events| - 1])).seqNo > MaxSeq(Backfilled(events[..|events| - 1]))
  {
    var n := |events| - 1;
    var front := events[..n];
    ReachedFrom(front);
    if events[n].seqNo != 0 && Reached(front) != n {
      var j :| 0 <= j < n && front[j].seqNo != 0 && Reached(front) == front[j].seqNo + n - 1 - j;
      assert events[j].seqNo != 0;
    }
  }

  lemma {:induction false} RoomSuffices(events: seq<Event>)
    requires NonNegative(events) && Room(events)
    ensures Increasing(Backfilled(events))
    ensures MaxSeq(Backfilled(events)) == Reached(events)
    decreases |events|
  {
    if events != [] {
      var n := |events| - 1;
      var front, before := events[..n], Backfilled(events[..n]);
      RoomSuffices(front);
      NextIsGreater(events);
      IncreasingSnoc(before, Numbered(events[n], before));
      MaxSeqOfIncreasing(Backfilled(events));
    }
  }

  /** When backfilling yields usable cursors, exactly: the numbers present must leave room.
      An all-legacy buffer qualifies, and so does any numbered buffer with legacy entries at
      its end; a legacy entry squeezed in front of a small number does not. */
  lemma {:induction false} BackfillIncreasingIffRoom(events: seq<Event>)
    requires NonNegative(events)
    ensures Increasing(Backfilled(events)) <==> Room(events)
  {
    if Room(events) {
      RoomSuffices(events);
    }
    var view := Backfilled(events);
    if Increasing(view) {
      forall i | 0 <= i < |events| && events[i].seqNo != 0
        ensures events[i].seqNo > i
        ensures view[i] == events[i]
      {
        BackfilledAt(events, i);
        IncreasingGap(view, 0, i);
      }
      forall i, j | 0 <= j < i < |events| && events[i].seqNo != 0 && events[j].seqNo != 0
        ensures events[i].seqNo - events[j].seqNo >= i - j
      {
        IncreasingGap(view, j, i);
      }
    }
  }

  /** The history the backfill was written for: legacy entries after numbered ones. */
  lemma {:induction false} RoomForLegacyTail(numbered: seq<Event>, legacy: seq<Event>)
    requires Increasing(numbered)
    requires forall i | 0 <= i < |legacy| :: legacy[i].seqNo == 0
    ensures Room(numbered + legacy)
  {
    var all := numbered + legacy;
    forall i | 0 <= i < |all| && all[i].seqNo != 0 ensures i < |numbered| && all[i].seqNo > i {
      IncreasingGap(numbered, 0, i);
    }
    forall i, j | 0 <= j < i < |all| && all[i].seqNo != 0 && all[j].seqNo != 0
      ensures all[i].seqNo - all[j].seqNo >= i - j
    {
      IncreasingGap(numbered, j, i);
    }
  }

  /** The claim that continuing the running maximum can never mint a duplicate is too strong. */
  lemma {:induction false} BackfillCanDuplicate(e: Event)
    ensures Backfilled([e.(seqNo := 0), e.(seqNo := 1)]) == [e.(seqNo := 1), e.(seqNo := 1)]
    ensures !Room([e.(seqNo := 0), e.(seqNo := 1)])
  {
    var s := [e.(seqNo := 0), e.(seqNo := 1)];
    assert s[..1] == [s[0]] && s[..1][..0] == [];
    assert s[1].seqNo == 1;
  }

  // ---- When no number is given twice ----

  ghost predicate DistinctNumbers(events: seq<Event>) {
    forall i, j | 0 <= i < j < |events| :: events[i].seqNo != events[j].seqNo
  }

  /** The numbers that were stored rise in buffer order, as the code writes them. */
  ghost predicate StoredRise(events: seq<Event>) {
    forall i, j | 0 <= i < j < |events| && events[i].seqNo != 0 &&
        events[j].seqNo != 0 :: events[i].seqNo < events[j].seqNo
  }

  ghost predicate HasNumber(events: seq<Event>, n: int) {
    exists i | 0 <= i < |events| :: events[i].seqNo == n
  }

  /** Every number between the last one stored and the last one reached was given to a legacy entry. */
  lemma {:induction false} GapIsFilled(events: seq<Event>, n: int)
    requires NonNegative(events) && Room(events) && 0 < n <= Reached(events)
    requires forall i | 0 <= i < |events| :: events[i].seqNo < n
    ensures HasNumber(Backfilled(events), n)
    decreases |events|
  {
    if events != [] {
      var k := |events| - 1;
      var front, view := events[..k], Backfilled(events);
      RoomSuffices(front);
      assert view[k] == Numbered(events[k], Backfilled(front));
      if n <= Reached(front) {
        GapIsFilled(front, n);
        var i :| 0 <= i < |Backfilled(front)| && Backfilled(front)[i].seqNo == n;
        assert view[i] == Backfilled(front)[i];
      } else {
        assert events[k].seqNo == 0 && view[k].seqNo == n;
      }
    }
  }

  lemma {:induction false} NumbersBelowLast(events: seq<Event>)
    requires StoredRise(events) && NonNegative(events) && events != [] && events[|events| - 1].seqNo != 0
    ensures var front, n := events[..|events| - 1], events[|events| - 1].seqNo;
            n > 0 && forall i | 0 <= i < |front| :: front[i].seqNo < n
  {
  }

  lemma {:induction false} NoRoomRepeats(events: seq<Event>)
    requires NonNegative(events) && StoredRise(events) && !Room(events)
    ensures !DistinctNumbers(Backfilled(events))
    decreases |events|
  {
    var k := |events| - 1;
    var front, view := events[..k], Backfilled(events);
    var before := Backfilled(front);
    assert view == before + [Numbered(events[k], before)];
    if !Room(front) {
      NoRoomRepeats(front);
      var i, j :| 0 <= i < j < |before| && before[i].seqNo == before[j].seqNo;
      assert view[i] == before[i] && view[j] == before[j];
    } else {
      RoomSuffices(front);
      if view[k].seqNo > MaxSeq(before) {
        IncreasingSnoc(before, view[k]);
        BackfillIncreasingIffRoom(events);
      }
      assert view[k].seqNo == events[k].seqNo <= Reached(front);
      NumbersBelowLast(events);
      GapIsFilled(front, events[k].seqNo);
      var i :| 0 <= i < |before| && before[i].seqNo == events[k].seqNo;
      assert view[i].seqNo == view[k].seqNo;
    }
  }

  /** When backfilling gives no number twice, exactly, for a log whose stored numbers rise. */
  lemma {:induction false} BackfillDistinctIffRoom(events: seq<Event>)
    requires NonNegative(events) && StoredRise(events)
    ensures DistinctNumbers(Backfilled(events)) <==> Room(events)
  {
    if Room(events) {
      RoomSuffices(events);
    } else {
      NoRoomRepeats(events);
    }
  }

  lemma {:induction false} BackfilledNumbered(events: seq<Event>)
    requires forall i | 0 <= i < |events| :: events[i].seqNo != 0
    ensures Backfilled(events) == events
    decreases |events|
  {
    if events != [] {
      BackfilledNumbered(events[..|events| - 1]);
    }
  }

  /** Backfilled numbers are never zero, so a second backfill changes nothing. */
  lemma {:induction false} BackfillIdempotent(events: seq<Event>)
    requires NonNegative(events)
    ensures Backfilled(Backfilled(events)) == Backfilled(events)
  {
    forall i | 0 <= i < |events| ensures Backfilled(events)[i].seqNo != 0 {
      BackfilledAt(events, i);
    }
    BackfilledNumbered(Backfilled(events));
  }

  /** A number once assigned is not changed, and a legacy entry gets a number and keeps everything else. */
  lemma {:induction false} BackfillKeepsNumbers(events: seq<Event>, i: nat)
    requires i < |events|
    ensures events[i].seqNo != 0 ==> Backfilled(events)[i] == events[i]
    ensures Backfilled(events)[i].ts == events[i].ts && Backfilled(events)[i].detail == events[i].detail
  {
    BackfilledAt(events, i);
  }

  /** An all-legacy buffer is numbered 1 to n. */
  lemma {:induction false} BackfillOfLegacy(events: seq<Event>, i: nat)
    requires forall k | 0 <= k < |events| :: events[k].seqNo == 0
    requires i < |events|
    ensures Backfilled(events)[i] == events[i].(seqNo := i + 1)
  {
    BackfilledAt(events, i);
    RoomSuffices(events[..i]);
    ReachedFrom(events[..i]);
  }

  // ---- Pruning ----

  function TrimRetention(events: seq<Event>, now: int): seq<Event> {
    if events != [] && events[0].ts < now - RETENTION then TrimRetention(events[1..], now) else events
  }

  /** The marshalled length: brackets, entries and the commas between them. */
  function Payload(events: seq<Event>, size: EntrySize): nat {
    if events == [] then 2
    else if |events| == 1 then 2 + size(events[0])
    else size(events[0]) + 1 + Payload(events[1..], size)
  }

  predicate Fits(events: seq<Event>, size: EntrySize) {
    Payload(events, size) <= MAX_BYTES
  }

  function Last(events: seq<Event>, n: nat): seq<Event>
    requires n <= |events|
  {
    events[|events| - n..]
  }

  ghost predicate IsSuffix(a: seq<Event>, b: seq<Event>) {
    |a| <= |b| && a == Last(b, |a|)
  }

  function CountCapped(events: seq<Event>): seq<Event> {
    if |events| > CAP then Last(events, CAP) else events
  }

  function Drop(n: nat): nat {
    if n / 8 == 0 then 1 else n / 8
  }

  function ByteTrimmed(events: seq<Event>, size: EntrySize): seq<Event>
    decreases |events|
  {
    if |events| <= 1 || Fits(events, size) then events
    else ByteTrimmed(events[Drop(|events|)..], size)
  }

  function TrimSize(events: seq<Event>, size: EntrySize): seq<Event> {
    ByteTrimmed(CountCapped(events), size)
  }

  lemma {:induction false} ShorterIsSmaller(events: seq<Event>, size: EntrySize, a: nat, b: nat)
    requires a <= b <= |events|
    ensures Payload(Last(events, a), size) <= Payload(Last(events, b), size)
    decreases b
  {
    if a < b {
      assert Last(events, b)[1..] == Last(events, b - 1);
      ShorterIsSmaller(events, size, a, b - 1);
    }
  }

  /** `kept` entries are what the last drop left of `n`, which were too big. */
  ghost predicate LastDrop(kept: nat, n: nat, events: seq<Event>, size: EntrySize) {
    kept < n <= |events| && kept == n - Drop(n) && !Fits(Last(events, n), size)
  }

  /** A fitting suffix longer than `kept` is shorter than the list the last drop was made from. */
  ghost predicate NearlyBest(kept: nat, events: seq<Event>, size: EntrySize) {
    forall k | 0 <= k <= |events| && Fits(Last(events, k), size) ::
      k <= kept || exists n: nat :: LastDrop(kept, n, events, size) && k < n
  }

  lemma {:induction false} OneDropIsNearlyBest(events: seq<Event>, size: EntrySize, kept: nat)
    requires |events| > 1 && !Fits(events, size)
    requires var rest := Last(events, |events| - Drop(|events|));
             NearlyBest(kept, rest, size) && kept <= |rest| && (Fits(rest, size) ==> kept == |rest|)
    ensures NearlyBest(kept, events, size)
  {
    var n := |events| - Drop(|events|);
    var rest := Last(events, n);
    assert Last(events, |events|) == events;
    forall k | 0 <= k <= |events| && Fits(Last(events, k), size)
      ensures k <= kept || exists n: nat :: LastDrop(kept, n, events, size) && k < n
    {
      if kept < k <= n {
        DropFromRest(events, size, kept, n, k);
      } else if k > n {
        ShorterIsSmaller(events, size, n, k);
        ShorterIsSmaller(events, size, k, |events|);
        assert LastDrop(kept, |events|, events, size);
      }
    }
  }

  lemma {:induction false} LastOfLast(events: seq<Event>, n: nat, k: nat)
    requires k <= n <= |events|
    ensures Last(Last(events, n), k) == Last(events, k)
  {
  }

  lemma {:induction false} DropFromRest(events: seq<Event>, size: EntrySize, kept: nat, n: nat, k: nat)
    requires n <= |events| && NearlyBest(kept, Last(events, n), size) && kept < k <= n && Fits(Last(events, k), size)
    ensures exists m: nat :: LastDrop(kept, m, events, size) && k < m
  {
    LastOfLast(events, n, k);
    var m: nat :| LastDrop(kept, m, Last(events, n), size) && k < m;
    LastOfLast(events, n, m);
    assert LastDrop(kept, m, events, size);
  }

  /** Byte trimming by eighths: what is kept is a suffix that fits or is a single entry, and a longer
      fitting suffix is longer by less than the last drop. */
  lemma {:induction false} ByteTrimmedIsNearlyBest(events: seq<Event>, size: EntrySize)
    requires events != []
    ensures var r := ByteTrimmed(events, size);
            && r != [] && IsSuffix(r, events)
            && (Fits(r, size) || |r| == 1)
            && NearlyBest(|r|, events, size)
    decreases |events|
  {
    if |events| > 1 && !Fits(events, size) {
      var rest := events[Drop(|events|)..];
      ByteTrimmedIsNearlyBest(rest, size);
      assert rest == Last(events, |events| - Drop(|events|));
      OneDropIsNearlyBest(events, size, |ByteTrimmed(events, size)|);
    } else {
      assert Last(events, |events|) == events;
    }
  }

  /** The same among the suffixes that pass the count cap first. */
  lemma {:induction false} CapKeepsNearlyBest(events: seq<Event>, size: EntrySize, kept: nat, k: nat)
    requires NearlyBest(kept, CountCapped(events), size) && k <= |events| && k <= CAP && Fits(Last(events, k), size)
    ensures k <= kept || exists n: nat :: n <= CAP && LastDrop(kept, n, events, size) && k < n
  {
    var c := CountCapped(events);
    assert Last(c, k) == Last(events, k);
    if k > kept {
      var n: nat :| LastDrop(kept, n, c, size) && k < n;
      assert Last(c, n) == Last(events, n);
      assert LastDrop(kept, n, events, size);
    }
  }

  /** The newest entry always survives, the result is bounded in count and in bytes unless a
      single entry is itself too big, nothing is dropped without need, and if a longer suffix would
      have fitted it is longer by less than the last drop from `n` entries, max(1, n/8). */
  lemma {:induction false} TrimSizeIsNearlyBest(events: seq<Event>, size: EntrySize)
    requires events != []
    ensures var r := TrimSize(events, size);
            && r != [] && IsSuffix(r, events) && r[|r| - 1] == events[|events| - 1]
            && |r| <= CAP
            && (Fits(r, size) || |r| == 1)
            && (|events| <= CAP && Fits(events, size) ==> r == events)
            && forall k | 0 <= k <= |events| && k <= CAP && Fits(Last(events, k), size) ::
                 k <= |r| || exists n: nat :: n <= CAP && LastDrop(|r|, n, events, size) && k < n
  {
    var c, r := CountCapped(events), TrimSize(events, size);
    ByteTrimmedIsNearlyBest(c, size);
    assert r == Last(events, |r|);
    forall k | 0 <= k <= |events| && k <= CAP && Fits(Last(events, k), size)
      ensures k <= |r| || exists n: nat :: n <= CAP && LastDrop(|r|, n, events, size) && k < n
    {
      CapKeepsNearlyBest(events, size, |r|, k);
    }
  }

  // ---- Appending ----

  /** One load-modify-write cycle: a first event is stored as it comes; later ones are numbered
      behind the backfilled buffer, after which old entries are pruned. */
  function Appended(stored: Option<seq<Event>>, e: Event, now: int, size: EntrySize): seq<Event> {
    match stored
    case None => [e]
    case Some(events) =>
      var numbered := Backfilled(events);
      TrimSize(TrimRetention(numbered, now) + [e.(seqNo := NextSeq(numbered))], size)
  }

  // ---- The loops ----

  lemma {:induction false} BackfillNext(before: seq<Event>, i: nat, view: seq<Event>, e: Event)
    requires i < |before| && view == Backfilled(before[..i]) && e == Numbered(before[i], view)
    ensures view + [e] == Backfilled(before[..i + 1])
    ensures MaxSeq(view + [e]) == if e.seqNo > MaxSeq(view) then e.seqNo else MaxSeq(view)
  {
    BackfilledSnoc(before[..i], before[i]);
    assert before[..i + 1] == before[..i] + [before[i]];
    MaxSeqSnoc(view, e);
  }

  /** In-place backfill with a running maximum. */
  method BackfillSeq(events: array<Event>)
    modifies events
    ensures events[..] == Backfilled(old(events[..]))
  {
    ghost var before := events[..];
    var runningMax := 0;
    for i := 0 to events.Length
      invariant events[..i] == Backfilled(before[..i])
      invariant forall k | i <= k < events.Length :: events[k] == before[k]
      invariant runningMax == MaxSeq(events[..i])
    {
      ghost var view := events[..i];
      if events[i].seqNo == 0 {
        events[i] := events[i].(seqNo := runningMax + 1);
      }
      BackfillNext(before, i, view, events[i]);
      assert events[..i + 1] == view + [events[i]];
      if events[i].seqNo > runningMax {
        runningMax := events[i].seqNo;
      }
    }
    assert events[..] == events[..events.Length] && before == before[..events.Length];
  }

  method FindNextSeq(events: seq<Event>) returns (next: int)
    ensures next == NextSeq(events)
  {
    var max := 0;
    for i := 0 to |events|
      invariant max == MaxSeq(events[..i])
    {
      assert events[..i + 1][..i] == events[..i];
      if events[i].seqNo > max {
        max := events[i].seqNo;
      }
    }
    assert events[..|events|] == events;
    next := max + 1;
  }

  method PruneOld(events: seq<Event>, now: int) returns (kept: seq<Event>)
    ensures kept == TrimRetention(events, now)
  {
    var firstKept := 0;
    while firstKept < |events| && events[firstKept].ts < now - RETENTION
      invariant firstKept <= |events|
      invariant TrimRetention(events, now) == TrimRetention(events[firstKept..], now)
    {
      assert events[firstKept..][1..] == events[firstKept + 1..];
      firstKept := firstKept + 1;
    }
    kept := events[firstKept..];
  }

  method PruneBig(events: seq<Event>, size: EntrySize) returns (kept: seq<Event>)
    ensures kept == TrimSize(events, size)
  {
    kept := events;
    if |kept| > CAP {
      kept := kept[|kept| - CAP..];
    }
    while |kept| > 1
      invariant ByteTrimmed(kept, size) == TrimSize(events, size)
      decreases |kept|
    {
      if Fits(kept, size) {
        break;
      }
      var drop := |kept| / 8;
      if drop == 0 {
        drop := 1;
      }
      kept := kept[drop..];
    }
  }

  /** The body of one append attempt, from the value read to the value to be written. */
  method ComputeAppend(stored: Option<seq<Event>>, e: Event, now: int, size: EntrySize) returns (r: seq<Event>)
    ensures r == Appended(stored, e, now, size)
  {
    match stored
    case None => r := [e];
    case Some(events) =>
      var buffer := new Event[|events|](i requires 0 <= i < |events| => events[i]);
      assert buffer[..] == events;
      BackfillSeq(buffer);
      var next := FindNextSeq(buffer[..]);
      var kept := PruneOld(buffer[..], now);
      r := PruneBig(kept + [e.(seqNo := next)], size);
  }

  /** The newest-first listing: `limit` is replaced by the cap when it is out of range. */
  method List(stored: Option<seq<Event>>, limit: int) returns (r: seq<Event>)
    ensures var events := if stored.Some? then stored.value else [];
            var n := if limit <= 0 || limit > CAP then CAP else limit;
            && |r| == (if |events| < n then |events| else n)
            && forall i | 0 <= i < |r| :: r[i] == events[|events| - 1 - i]
  {
    var n := if limit <= 0 || limit > CAP then CAP else limit;
    var events := if stored.Some? then stored.value else [];
    r := [];
    var i := |events|;
    while i > 0
      invariant 0 <= i <= |events| && |r| == |events| - i
      invariant forall j | 0 <= j < |r| :: r[j] == events[|events| - 1 - j]
    {
      i := i - 1;
      r := r + [events[i]];
    }
    if |r| > n {
      r := r[..n];
    }
  }
}
