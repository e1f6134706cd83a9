/** Newest-first paging through the activity log while it is being appended to and trimmed. */
module ActivityPaging {
  import opened Options
  import opened ConflictRetry
  import opened Ordering
  import opened Decimal
  import opened CursorPaging
  import opened ActivityLog
  import opened ActivityStore

  datatype Listing = BadCursor | Listed(events: seq<Event>, next: string)

  function EffectiveLimit(limit: int): nat {
    if limit <= 0 || limit > CAP then CAP else limit
  }

  predicate ValidCursor(cursor: string) {
    cursor == "" || (Parse(cursor).Some? && Parse(cursor).value > 0)
  }

  /** The bound a cursor stands for; zero means none. */
  function Bound(cursor: string): nat
    requires ValidCursor(cursor)
  {
    if cursor == "" then 0 else Parse(cursor).value
  }

  /** Newest first, at most `limit`, skipping what is not below the bound. */
  function PageFrom(view: seq<Event>, limit: nat, before: nat): seq<Event>
    decreases |view|
  {
    if view == [] || limit == 0 then [] else
    var rest, newest := view[..|view| - 1], view[|view| - 1];
    if before > 0 && newest.seqNo >= before then PageFrom(rest, limit, before)
    else [newest] + PageFrom(rest, limit - 1, before)
  }

  function NextCursor(view: seq<Event>, page: seq<Event>): string {
    if page != [] && view != [] && page[|page| - 1].seqNo > view[0].seqNo then Print(page[|page| - 1].seqNo) else ""
  }

  function ReadPage(stored: Option<seq<Event>>, limit: int, cursor: string): Listing {
    if !ValidCursor(cursor) then BadCursor else
    var page := PageFrom(View(stored), EffectiveLimit(limit), Bound(cursor));
    Listed(page, NextCursor(View(stored), page))
  }

  /** One page read.  A cursor this store cannot have produced is refused before the read. */
  method ListPage(stored: Option<seq<Event>>, limit: int, cursor: string) returns (r: Listing)
    ensures r == ReadPage(stored, limit, cursor)
  {
    var before := 0;
    if cursor != "" {
      var parsed := Parse(cursor);
      if parsed.None? || parsed.value <= 0 {
        return BadCursor;
      }
      before := parsed.value;
    }
    var n := if limit <= 0 || limit > CAP then CAP else limit;
    var view := ReadView(stored);
    var page := TakePage(view, n, before);
    PageIsFromView(view, n, before);
    var next := NextPage(view, page);
    r := Listed(page, next);
  }

  /** Reads never write: the numbers of legacy entries are computed in memory only. */
  method ReadView(stored: Option<seq<Event>>) returns (view: seq<Event>)
    ensures view == View(stored)
  {
    match stored
    case None => view := [];
    case Some(value) =>
      var events := new Event[|value|](i requires 0 <= i < |value| => value[i]);
      assert events[..] == value;
      BackfillSeq(events);
      view := events[..];
  }

  method NextPage(view: seq<Event>, page: seq<Event>) returns (next: string)
    requires view == [] ==> page == []
    ensures next == NextCursor(view, page)
  {
    var oldest := 0;
    if |view| > 0 {
      oldest := view[0].seqNo;
    }
    next := "";
    if |page| > 0 && page[|page| - 1].seqNo > oldest {
      next := Print(page[|page| - 1].seqNo);
    }
  }

  /** The page loop: from the newest entry down until the page is full. */
  method TakePage(view: seq<Event>, limit: nat, before: nat) returns (page: seq<Event>)
    ensures page == PageFrom(view, limit, before)
  {
    page := [];
    var i := |view|;
    assert view[..i] == view;
    while i > 0 && |page| < limit
      invariant 0 <= i <= |view| && |page| <= limit
      invariant PageFrom(view, limit, before) == page + PageFrom(view[..i], limit - |page|, before)
    {
      i := i - 1;
      assert view[..i + 1][..i] == view[..i];
      if before > 0 && view[i].seqNo >= before {
        continue;
      }
      page := page + [view[i]];
    }
  }

  lemma {:induction false} PageIsFromView(view: seq<Event>, limit: nat, before: nat)
    ensures |PageFrom(view, limit, before)| <= limit
    ensures forall i | 0 <= i < |PageFrom(view, limit, before)| ::
              var e := PageFrom(view, limit, before)[i]; e in view && (before > 0 ==> e.seqNo < before)
    ensures view == [] ==> PageFrom(view, limit, before) == []
    decreases |view|
  {
    if view != [] && limit > 0 {
      var rest, newest := view[..|view| - 1], view[|view| - 1];
      PageIsFromView(rest, limit, before);
      PageIsFromView(rest, limit - 1, before);
      assert forall e :: e in rest ==> e in view;
    }
  }

  // ---- A listing is a page in the sense of CursorPaging ----

  predicate Earlier(a: int, b: int) {
    a < b
  }

  function Numbers(events: seq<Event>): seq<int> {
    seq(|events|, i requires 0 <= i < |events| => events[i].seqNo)
  }

  ghost function NumberSet(events: seq<Event>): set<int> {
    set i | 0 <= i < |events| :: events[i].seqNo
  }

  function CursorOf(before: nat): Option<int> {
    if before == 0 then None else Some(before)
  }

  /** The page is the newest of the first `hi` entries, read backwards. */
  ghost predicate IsWindow(view: seq<Event>, hi: nat, limit: nat, page: seq<Event>) {
    && |page| == (if limit < hi <= |view| then limit else hi) <= hi <= |view|
    && forall i | 0 <= i < |page| :: page[i] == view[hi - 1 - i]
  }

  lemma {:induction false} WindowSkips(view: seq<Event>, hi: nat, limit: nat, page: seq<Event>)
    requires view != [] && IsWindow(view[..|view| - 1], hi, limit, page)
    ensures IsWindow(view, hi, limit, page)
  {
  }

  lemma {:induction false} WindowGrows(view: seq<Event>, limit: nat, page: seq<Event>)
    requires view != [] && limit > 0 && IsWindow(view[..|view| - 1], |view| - 1, limit - 1, page)
    ensures IsWindow(view, |view|, limit, [view[|view| - 1]] + page)
  {
  }

  /** With increasing numbers a page is a window of the view: `hi` entries lie below the bound and the page is the
      newest of those. */
  lemma {:induction false} PageWindow(view: seq<Event>, limit: nat, before: nat) returns (hi: nat)
    requires Increasing(view)
    ensures hi <= |view|
    ensures forall k | 0 <= k < hi :: before > 0 ==> view[k].seqNo < before
    ensures forall k | hi <= k < |view| :: before > 0 && view[k].seqNo >= before
    ensures IsWindow(view, hi, limit, PageFrom(view, limit, before))
    decreases |view|
  {
    if view == [] {
      hi := 0;
    } else {
      var rest, newest := view[..|view| - 1], view[|view| - 1];
      assert forall k | 0 <= k < |rest| :: rest[k] == view[k];
      if before > 0 && newest.seqNo >= before {
        hi := PageWindow(rest, limit, before);
        WindowSkips(view, hi, limit, PageFrom(rest, limit, before));
      } else {
        hi := |view|;
        if limit > 0 {
          var below := PageWindow(rest, limit - 1, before);
          assert below == |rest|;
          WindowGrows(view, limit, PageFrom(rest, limit - 1, before));
        }
      }
    }
  }

  lemma {:induction false} ListingIsPage(view: seq<Event>, limit: nat, before: nat)
    requires Increasing(view) && limit > 0
    ensures var page := PageFrom(view, limit, before);
            IsPage(Earlier, NumberSet(view), limit, CursorOf(before), Page(Numbers(page), NextCursor(view, page) != ""))
  {
    var page := PageFrom(view, limit, before);
    var more, keys := NextCursor(view, page) != "", Numbers(page);
    var hi := PageWindow(view, limit, before);
    if page != [] {
      ParsePrintNat(page[|page| - 1].seqNo);
    }
    assert more <==> |page| < hi;
    WindowIsPage(view, hi, limit, before, keys);
  }

  lemma {:induction false} WindowIsPage(view: seq<Event>, hi: nat, limit: nat, before: nat, keys: seq<int>)
    requires Increasing(view) && limit > 0 && hi <= |view|
    requires forall k | 0 <= k < hi :: before > 0 ==> view[k].seqNo < before
    requires forall k | hi <= k < |view| :: before > 0 && view[k].seqNo >= before
    requires |keys| == if limit < hi then limit else hi
    requires forall i | 0 <= i < |keys| :: keys[i] == view[hi - 1 - i].seqNo
    ensures IsPage(Earlier, NumberSet(view), limit, CursorOf(before), Page(keys, |keys| < hi))
  {
    forall n <- NumberSet(view) | Below(Earlier, n, CursorOf(before))
      ensures n in keys || (|keys| < hi && forall i | 0 <= i < |keys| :: Earlier(n, keys[i]))
    {
      var k :| 0 <= k < |view| && view[k].seqNo == n;
      if k >= hi - |keys| {
        assert keys[hi - 1 - k] == n;
      }
    }
    if |keys| < hi {
      var oldest := view[0].seqNo;
      assert oldest in NumberSet(view) && Below(Earlier, oldest, CursorOf(before)) && oldest !in keys;
    }
  }

  // ---- Reading while the log is written ----

  /** A reader's session over one run of the store: read `i` happens after the first `times[i]`
      steps, the first without a cursor and each later one with the cursor it was handed. */
  ghost predicate Session(size: EntrySize, ops: seq<Event>, obj: Object<seq<Event>>, steps: seq<Step>,
      times: seq<nat>, limits: seq<int>, got: seq<Listing>)
  {
    && 0 < |got| == |times| == |limits|
    && (forall i | 0 <= i < |times| :: times[i] <= |steps|)
    && (forall i, j | 0 <= i < j < |times| :: times[i] <= times[j])
    && (forall i | 0 <= i < |got| :: got[i].Listed?)
    && (forall i | 0 <= i < |got| - 1 :: got[i].next != "")
    && (forall i | 0 <= i < |got| :: ReadOk(size, ops, obj, steps, times, limits, got, i))
  }

  ghost predicate ReadOk(size: EntrySize, ops: seq<Event>, obj: Object<seq<Event>>, steps: seq<Step>,
      times: seq<nat>, limits: seq<int>, got: seq<Listing>, i: nat)
    requires i < |got| == |times| == |limits| && times[i] <= |steps|
    requires forall j | 0 <= j < |got| :: got[j].Listed?
  {
    got[i] == ReadPage(Stored(size, ops, obj, steps[..times[i]]), limits[i], if i == 0 then "" else got[i - 1].next)
  }

  ghost function ViewAt(size: EntrySize, ops: seq<Event>, obj: Object<seq<Event>>, steps: seq<Step>, t: nat): seq<Event>
    requires t <= |steps|
  {
    View(Stored(size, ops, obj, steps[..t]))
  }

  function Pages(got: seq<Listing>): seq<Page<int>>
    requires forall i | 0 <= i < |got| :: got[i].Listed?
  {
    seq(|got|, i requires 0 <= i < |got| => Page(Numbers(got[i].events), got[i].next != ""))
  }

  ghost function Views(size: EntrySize, ops: seq<Event>, obj: Object<seq<Event>>, steps: seq<Step>,
      times: seq<nat>): seq<set<int>>
    requires forall i | 0 <= i < |times| :: times[i] <= |steps|
  {
    seq(|times|, i requires 0 <= i < |times| => NumberSet(ViewAt(size, ops, obj, steps, times[i])))
  }

  function Limits(limits: seq<int>): seq<nat> {
    seq(|limits|, i requires 0 <= i < |limits| => EffectiveLimit(limits[i]))
  }

  /** The set-up under which the paging results hold: a well-numbered log of 64-bit numbers. */
  ghost predicate Setup(size: EntrySize, ops: seq<Event>, obj: Object<seq<Event>>, steps: seq<Step>) {
    && obj.Valid() && WellNumbered(obj.Content())
    && (forall i | 0 <= i < |ops| :: ops[i].seqNo >= 0)
    && (forall i | 0 <= i < |History(size, ops, obj, steps)| :: History(size, ops, obj, steps)[i].seqNo <= MAX_INT64)
  }

  lemma {:induction false} ViewsAdvance(size: EntrySize, ops: seq<Event>, obj: Object<seq<Event>>, steps: seq<Step>,
      s: nat, t: nat)
    requires Setup(size, ops, obj, steps) && s <= t <= |steps|
    ensures var h, h' := History(size, ops, obj, steps[..s]), History(size, ops, obj, steps[..t]);
            var v, v' := ViewAt(size, ops, obj, steps, s), ViewAt(size, ops, obj, steps, t);
            && Advances(h, v, h', v') && Increasing(h') && IsSuffix(v, h) && IsSuffix(v', h')
            && Increasing(v') && (forall i | 0 <= i < |v'| :: v'[i].seqNo <= MAX_INT64)
  {
    assert steps[..t] == steps[..s] + steps[s..t];
    HistoryGrows(size, ops, obj, steps[..s], steps[s..t]);
    HistoryIsKept(size, ops, obj, steps[..s]);
    ViewIsBounded(size, ops, obj, steps, t);
  }

  lemma {:induction false} ViewIsBounded(size: EntrySize, ops: seq<Event>, obj: Object<seq<Event>>, steps: seq<Step>,
      t: nat)
    requires Setup(size, ops, obj, steps) && t <= |steps|
    ensures var h', v' := History(size, ops, obj, steps[..t]), ViewAt(size, ops, obj, steps, t);
            && Increasing(h') && IsSuffix(v', h')
            && Increasing(v') && (forall i | 0 <= i < |v'| :: v'[i].seqNo <= MAX_INT64)
  {
    HistoryIsKept(size, ops, obj, steps[..t]);
    SuffixIncreasing(ViewAt(size, ops, obj, steps, t), History(size, ops, obj, steps[..t]));
    assert steps == steps[..t] + steps[t..];
    HistoryGrows(size, ops, obj, steps[..t], steps[t..]);
    NumbersBounded(ViewAt(size, ops, obj, steps, t), History(size, ops, obj, steps[..t]),
        History(size, ops, obj, steps));
  }

  lemma {:induction false} NumbersBounded(v: seq<Event>, h: seq<Event>, all: seq<Event>)
    requires IsSuffix(v, h) && h <= all
    requires forall i | 0 <= i < |all| :: all[i].seqNo <= MAX_INT64
    ensures forall i | 0 <= i < |v| :: v[i].seqNo <= MAX_INT64
  {
    forall i | 0 <= i < |v| ensures v[i] == all[|h| - |v| + i] {
    }
  }

  /** Nothing that shows up later has a number below one seen at the start. */
  lemma {:induction false} BelowStays(h: seq<Event>, v: seq<Event>, h': seq<Event>, v': seq<Event>, c: int, k: int)
    requires Advances(h, v, h', v') && Increasing(h') && IsSuffix(v, h) && IsSuffix(v', h')
    requires c in NumberSet(v) && k in NumberSet(v') && k <= c
    ensures k in NumberSet(v)
  {
    var i :| 0 <= i < |v| && v[i].seqNo == c;
    var j :| 0 <= j < |v'| && v'[j].seqNo == k;
    var p, q := |h| - |v| + i, |h'| - |v'| + j;
    assert h'[p] == h[p] == v[i] && h'[q] == v'[j];
    assert q <= p;
    assert v[q - (|h| - |v|)] == h[q] == h'[q];
  }

  lemma {:induction false} AllBelowStay(h: seq<Event>, v: seq<Event>, h': seq<Event>, v': seq<Event>, c: int,
      keys: seq<int>)
    requires Advances(h, v, h', v') && Increasing(h') && IsSuffix(v, h) && IsSuffix(v', h')
    requires c in NumberSet(v) && forall k <- keys :: k in NumberSet(v') && k <= c
    ensures forall k <- keys :: k in NumberSet(v)
  {
    forall k <- keys ensures k in NumberSet(v) {
      BelowStays(h, v, h', v', c, k);
    }
  }

  lemma {:induction false} SessionIsFollowed(size: EntrySize, ops: seq<Event>, obj: Object<seq<Event>>,
      steps: seq<Step>, times: seq<nat>, limits: seq<int>, got: seq<Listing>)
    requires Setup(size, ops, obj, steps) && Session(size, ops, obj, steps, times, limits, got)
    ensures Followed(Earlier, Views(size, ops, obj, steps, times), Limits(limits), Pages(got))
  {
    var views, pages := Views(size, ops, obj, steps, times), Pages(got);
    forall i | 0 <= i < |got|
      ensures pages[i].more ==> pages[i].keys != []
    {
      assert ReadOk(size, ops, obj, steps, times, limits, got, i);
    }
    forall i | 0 <= i < |got|
      ensures PageOk(Earlier, views, Limits(limits), pages, i)
    {
      assert ReadOk(size, ops, obj, steps, times, limits, got, i);
      assert i > 0 ==> ReadOk(size, ops, obj, steps, times, limits, got, i - 1);
      ReadIsPage(size, ops, obj, steps, times, limits, got, i);
    }
  }

  lemma {:induction false} ReadIsPage(size: EntrySize, ops: seq<Event>, obj: Object<seq<Event>>, steps: seq<Step>,
      times: seq<nat>, limits: seq<int>, got: seq<Listing>, i: nat)
    requires Setup(size, ops, obj, steps)
    requires i < |got| == |times| == |limits| && forall j | 0 <= j < |times| :: times[j] <= |steps|
    requires forall j | 0 <= j < |got| :: got[j].Listed?
    requires forall j | 0 <= j < |got| - 1 :: Pages(got)[j].keys != []
    requires ReadOk(size, ops, obj, steps, times, limits, got, i)
    requires i > 0 ==> got[i - 1].next != "" && ReadOk(size, ops, obj, steps, times, limits, got, i - 1)
    ensures PageOk(Earlier, Views(size, ops, obj, steps, times), Limits(limits), Pages(got), i)
  {
    ViewIsBounded(size, ops, obj, steps, times[i]);
    var cursor := if i == 0 then "" else got[i - 1].next;
    if i > 0 {
      CursorMatches(size, ops, obj, steps, times, limits, got, i);
    }
    PagesCursor(got, i);
    ReadPageIsPage(Stored(size, ops, obj, steps[..times[i]]), limits[i], cursor, got[i]);
    IsPageAt(Views(size, ops, obj, steps, times), Limits(limits), Pages(got), i, CursorOf(Bound(cursor)));
  }

  lemma {:induction false} PagesCursor(got: seq<Listing>, i: nat)
    requires i < |got| && forall j | 0 <= j < |got| :: got[j].Listed?
    requires forall j | 0 <= j < |got| - 1 :: Pages(got)[j].keys != []
    requires i > 0 ==> got[i - 1].events != [] && ValidCursor(got[i - 1].next)
                       && CursorOf(Bound(got[i - 1].next)) == Some(Numbers(got[i - 1].events)[|got[i - 1].events| - 1])
    ensures CursorAt(Pages(got), i) == CursorOf(Bound(if i == 0 then "" else got[i - 1].next))
  {
    if i > 0 {
      assert Pages(got)[i - 1].keys == Numbers(got[i - 1].events);
    }
  }

  lemma {:induction false} IsPageAt(views: seq<set<int>>, limits: seq<nat>, pages: seq<Page<int>>, i: nat,
      cursor: Option<int>)
    requires i < |pages| == |views| == |limits| && (forall j | 0 <= j < |pages| - 1 :: pages[j].keys != [])
    requires CursorAt(pages, i) == cursor && IsPage(Earlier, views[i], limits[i], cursor, pages[i])
    ensures PageOk(Earlier, views, limits, pages, i)
  {
  }

  lemma {:induction false} KeysBelow(views: seq<set<int>>, limits: seq<nat>, pages: seq<Page<int>>, i: nat)
    requires i < |pages| == |views| == |limits| && (forall j | 0 <= j < |pages| - 1 :: pages[j].keys != [])
    requires PageOk(Earlier, views, limits, pages, i)
    ensures forall k <- pages[i].keys :: k in views[i]
    ensures i > 0 ==> CursorAt(pages, i).Some? && CursorAt(pages, i).value in pages[i - 1].keys
                      && forall k <- pages[i].keys :: k <= CursorAt(pages, i).value
  {
  }

  lemma {:induction false} ReadPageIsPage(stored: Option<seq<Event>>, limit: int, cursor: string, r: Listing)
    requires r == ReadPage(stored, limit, cursor) && r.Listed? && Increasing(View(stored))
    ensures IsPage(Earlier, NumberSet(View(stored)), EffectiveLimit(limit), CursorOf(Bound(cursor)),
                   Page(Numbers(r.events), r.next != ""))
  {
    ListingIsPage(View(stored), EffectiveLimit(limit), Bound(cursor));
  }

  lemma {:induction false} CursorMatches(size: EntrySize, ops: seq<Event>, obj: Object<seq<Event>>, steps: seq<Step>,
      times: seq<nat>, limits: seq<int>, got: seq<Listing>, i: nat)
    requires Setup(size, ops, obj, steps)
    requires 0 < i < |got| == |times| == |limits| && times[i - 1] <= |steps|
    requires (forall j | 0 <= j < |got| :: got[j].Listed?) && got[i - 1].next != ""
    requires ReadOk(size, ops, obj, steps, times, limits, got, i - 1)
    ensures got[i - 1].events != [] && ValidCursor(got[i - 1].next)
    ensures CursorOf(Bound(got[i - 1].next)) == Some(Numbers(got[i - 1].events)[|got[i - 1].events| - 1])
  {
    ViewIsBounded(size, ops, obj, steps, times[i - 1]);
    HandedOnByRead(Stored(size, ops, obj, steps[..times[i - 1]]), limits[i - 1], if i == 1 then ""
        else got[i - 2].next, got[i - 1]);
  }

  lemma {:induction false} HandedOnByRead(stored: Option<seq<Event>>, limit: int, cursor: string, r: Listing)
    requires r == ReadPage(stored, limit, cursor) && r.Listed? && r.next != ""
    requires Increasing(View(stored)) && forall i | 0 <= i < |View(stored)| :: View(stored)[i].seqNo <= MAX_INT64
    ensures r.events != [] && ValidCursor(r.next)
    ensures CursorOf(Bound(r.next)) == Some(Numbers(r.events)[|r.events| - 1])
  {
    PageIsFromView(View(stored), EffectiveLimit(limit), Bound(cursor));
    HandedOn(View(stored), r.events);
  }

  /** The cursor handed on parses back to the number it was printed from. */
  lemma {:induction false} HandedOn(view: seq<Event>, page: seq<Event>)
    requires Increasing(view) && (forall i | 0 <= i < |view| :: view[i].seqNo <= MAX_INT64)
    requires (forall i | 0 <= i < |page| :: page[i] in view) && NextCursor(view, page) != ""
    ensures ValidCursor(NextCursor(view, page)) && Bound(NextCursor(view, page)) == page[|page| - 1].seqNo > 0
  {
    ParsePrint(page[|page| - 1].seqNo);
  }

  lemma {:induction false} LaterReadAddsNothing(size: EntrySize, ops: seq<Event>, obj: Object<seq<Event>>,
      steps: seq<Step>, s: nat, t: nat, c: int, keys: seq<int>)
    requires Setup(size, ops, obj, steps) && s <= t <= |steps|
    requires c in NumberSet(ViewAt(size, ops, obj, steps, s))
    requires forall k <- keys :: k in NumberSet(ViewAt(size, ops, obj, steps, t)) && k <= c
    ensures forall k <- keys :: k in NumberSet(ViewAt(size, ops, obj, steps, s))
  {
    ViewsAdvance(size, ops, obj, steps, s, t);
    AllBelowStay(History(size, ops, obj, steps[..s]), ViewAt(size, ops, obj, steps, s),
                 History(size, ops, obj, steps[..t]), ViewAt(size, ops, obj, steps, t), c, keys);
  }

  lemma {:induction false} ShownWasThere(size: EntrySize, ops: seq<Event>, obj: Object<seq<Event>>, steps: seq<Step>,
      times: seq<nat>, limits: seq<int>, got: seq<Listing>, i: nat)
    requires Setup(size, ops, obj, steps) && Session(size, ops, obj, steps, times, limits, got)
    requires i < |got|
    ensures forall k <- Pages(got)[i].keys :: k in Views(size, ops, obj, steps, times)[0]
  {
    SessionIsFollowed(size, ops, obj, steps, times, limits, got);
    var views, pages := Views(size, ops, obj, steps, times), Pages(got);
    assert PageOk(Earlier, views, Limits(limits), pages, i);
    KeysBelow(views, Limits(limits), pages, i);
    if i > 0 {
      ShownWasThere(size, ops, obj, steps, times, limits, got, i - 1);
      LaterReadAddsNothing(size, ops, obj, steps, times[0], times[i], CursorAt(pages, i).value, pages[i].keys);
    }
  }

  /** Paging a live log.  Whatever is appended, aged out or trimmed between the reads, following
      the cursors ends after at most one page more than there were events, shows strictly
      descending numbers and so nothing twice, and shows nothing appended after the first read. */
  lemma {:induction false} PagingIsSound(size: EntrySize, ops: seq<Event>, obj: Object<seq<Event>>, steps: seq<Step>,
      times: seq<nat>, limits: seq<int>, got: seq<Listing>)
    requires Setup(size, ops, obj, steps) && Session(size, ops, obj, steps, times, limits, got)
    ensures Descending(Earlier, AllKeys(Pages(got)))
    ensures forall k <- AllKeys(Pages(got)) :: k in NumberSet(ViewAt(size, ops, obj, steps, times[0]))
    ensures |got| <= |ViewAt(size, ops, obj, steps, times[0])| + 1
  {
    var views, pages := Views(size, ops, obj, steps, times), Pages(got);
    SessionIsFollowed(size, ops, obj, steps, times, limits, got);
    EarlierIsTotal();
    PagesDescend(Earlier, views, Limits(limits), pages);
    forall i | 0 <= i < |pages| ensures forall k <- pages[i].keys :: k in views[0] {
      ShownWasThere(size, ops, obj, steps, times, limits, got, i);
    }
    FollowingEnds(Earlier, views, Limits(limits), pages);
    forall k <- AllKeys(pages) ensures k in views[0] {
      AllKeysHas(pages, k);
    }
    NumberSetSize(ViewAt(size, ops, obj, steps, times[0]));
  }

  /** Nothing is missed: each event has its turn on exactly one page, and it is shown if and only
      if it had not been trimmed by then. */
  lemma {:induction false} PagingIsComplete(size: EntrySize, ops: seq<Event>, obj: Object<seq<Event>>, steps: seq<Step>,
      times: seq<nat>, limits: seq<int>, got: seq<Listing>, k: int) returns (turn: nat)
    requires Setup(size, ops, obj, steps) && Session(size, ops, obj, steps, times, limits, got)
    requires got[|got| - 1].next == ""
    ensures turn < |got|
    ensures forall j | 0 <= j < |got| - 1 :: Pages(got)[j].keys != []
    ensures PageOf(Earlier, Pages(got), k, turn)
    ensures k in AllKeys(Pages(got)) <==> k in NumberSet(ViewAt(size, ops, obj, steps, times[turn]))
  {
    SessionIsFollowed(size, ops, obj, steps, times, limits, got);
    EarlierIsTotal();
    turn := EveryKeyHasItsTurn(Earlier, Views(size, ops, obj, steps, times), Limits(limits), Pages(got), k);
  }

  lemma {:induction false} EarlierIsTotal()
    ensures StrictTotal(Earlier)
  {
  }

  lemma {:induction false} NumberSetSize(events: seq<Event>)
    ensures |NumberSet(events)| <= |events|
    decreases |events|
  {
    if events != [] {
      var front := events[..|events| - 1];
      assert NumberSet(events) == NumberSet(front) + {events[|events| - 1].seqNo};
      NumberSetSize(front);
    }
  }
}
