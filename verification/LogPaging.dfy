/** Paging through stored log lines, where many lines share a timestamp. */
module LogPaging {
  import opened Options
  import opened Ordering
  import opened Decimal
  import opened CursorPaging

  datatype Row = Row(rowid: int, ts: string, pod: string, namespace: string, app: string, env: string, stream: string,
      text: string)

  datatype LogLine = LogLine(ts: string, pod: string, text: string, stream: string, cursor: string)

  /** Rows are ordered by timestamp text and then by row id. */
  datatype Key = Key(ts: string, rowid: int)

  predicate KeyLess(a: Key, b: Key) {
    StringLess(a.ts, b.ts) || (a.ts == b.ts && a.rowid < b.rowid)
  }

  predicate KeyAfter(a: Key, b: Key) {
    KeyLess(b, a)
  }

  // ---- Cursors ----

  function PrintCursor(k: Key): string {
    k.ts + "|" + Print(k.rowid)
  }

  function LastIndex(s: string, c: char): Option<nat>
    decreases |s|
  {
    if s == "" then None
    else if s[|s| - 1] == c then Some(|s| - 1)
    else LastIndex(s[..|s| - 1], c)
  }

  /** The key a cursor stands for; none for a legacy cursor without a separator or with a
      malformed row id. */
  function SplitLogCursor(cursor: string): Option<Key> {
    match LastIndex(cursor, '|')
    case None => None
    case Some(i) =>
      if i >= |cursor| then None else
      match Parse(cursor[i + 1..])
      case None => None
      case Some(rowid) => Some(Key(cursor[..i], rowid))
  }

  lemma {:induction false} LastIndexOfSeparator(ts: string, tail: string)
    requires '|' !in tail
    ensures LastIndex(ts + "|" + tail, '|') == Some(|ts|)
    decreases |tail|
  {
    var s := ts + "|" + tail;
    if tail != "" {
      var shorter := tail[..|tail| - 1];
      assert s[|s| - 1] == tail[|tail| - 1] && tail[|tail| - 1] in tail;
      assert s[..|s| - 1] == ts + "|" + shorter;
      LastIndexOfSeparator(ts, shorter);
    }
  }

  /** A printed cursor reads back as the key it was printed from, for every timestamp text, even
      one that contains the separator. */
  lemma {:induction false} SplitPrintCursor(k: Key)
    requires MIN_INT64 <= k.rowid <= MAX_INT64
    ensures SplitLogCursor(PrintCursor(k)) == Some(k)
    ensures PrintCursor(k) != ""
  {
    ParsePrint(k.rowid);
    LastIndexOfSeparator(k.ts, Print(k.rowid));
    var s := PrintCursor(k);
    assert s[..|k.ts|] == k.ts && s[|k.ts| + 1..] == Print(k.rowid);
  }

  // ---- The query ----

  /** `like` is SQL's LIKE with the filter between percent signs. */
  datatype Query = Query(namespace: string, app: string, env: string, start: string, end: string, filter: string,
      like: (string, string) -> bool)

  predicate Matches(q: Query, r: Row) {
    && r.namespace == q.namespace && r.app == q.app && r.env == q.env
    && !StringLess(r.ts, q.start) && !StringLess(q.end, r.ts)
    && (q.filter != "" ==> q.like(r.text, q.filter))
  }

  predicate BeforeCursor(before: string, k: Key) {
    before == "" ||
    match SplitLogCursor(before)
    case Some(c) => StringLess(k.ts, c.ts) || (k.ts == c.ts && k.rowid < c.rowid)
    case None => StringLess(k.ts, before)
  }

  predicate DistinctRows(table: seq<Row>) {
    forall i, j | 0 <= i < j < |table| :: table[i].rowid != table[j].rowid
  }

  function KeyOf(r: Row): Key {
    Key(r.ts, r.rowid)
  }

  function Selected(table: seq<Row>, q: Query, before: string): (keys: seq<Key>) {
    if table == [] then [] else
    var k := KeyOf(table[0]);
    (if Matches(q, table[0]) && BeforeCursor(before, k) then [k] else []) + Selected(table[1..], q, before)
  }

  function RowOf(table: seq<Row>, k: Key): Row {
    if |table| <= 1 || KeyOf(table[0]) == k then (if table == [] then Row(0, "", "", "", "", "", "", "") else table[0])
    else RowOf(table[1..], k)
  }

  /** ORDER BY ts DESC, rowid DESC LIMIT n. */
  function Top(table: seq<Row>, q: Query, before: string, n: nat): seq<Key> {
    var sorted := Sort(KeyAfter, Selected(table, q, before));
    if |sorted| <= n then sorted else sorted[..n]
  }

  ghost function MatchingKeys(table: seq<Row>, q: Query): set<Key> {
    set i | 0 <= i < |table| && Matches(q, table[i]) :: KeyOf(table[i])
  }

  lemma {:induction false} KeyOrders()
    ensures StrictTotal(KeyLess) && StrictTotal(KeyAfter)
  {
    StringLessTotal();
    forall x, y, z | KeyLess(x, y) && KeyLess(y, z) ensures KeyLess(x, z) {
      if StringLess(x.ts, y.ts) && StringLess(y.ts, z.ts) {
        StringTransitive(x.ts, y.ts, z.ts);
      }
    }
    forall x, y ensures !KeyLess(x, x) && (x == y || KeyLess(x, y) || KeyLess(y, x)) {
      StringTrichotomy(x.ts, y.ts);
    }
  }

  lemma {:induction false} SelectedKeys(table: seq<Row>, q: Query, before: string)
    requires DistinctRows(table)
    ensures forall k :: k in Selected(table, q, before) <==> k in MatchingKeys(table, q) && BeforeCursor(before, k)
    ensures forall i, j | 0 <= i < j < |Selected(table, q, before)| ::
              Selected(table, q, before)[i] != Selected(table, q, before)[j]
  {
    if table != [] {
      var rest := table[1..];
      SelectedKeys(rest, q, before);
      var k0 := KeyOf(table[0]);
      forall k ensures k in MatchingKeys(table, q)
          <==> (k == k0 && Matches(q, table[0])) || k in MatchingKeys(rest, q) {
        if i :| 0 <= i < |table| && Matches(q, table[i]) && k == KeyOf(table[i]) && i > 0 {
          assert rest[i - 1] == table[i];
        }
        if i :| 0 <= i < |rest| && Matches(q, rest[i]) && k == KeyOf(rest[i]) {
          assert table[i + 1] == rest[i];
        }
      }
      assert k0 !in MatchingKeys(rest, q);
    }
  }

  lemma {:induction false} SortedKeys(keys: seq<Key>)
    requires NoDuplicates(keys)
    ensures var s := Sort(KeyAfter, keys);
            && |s| == |keys| && Descending(KeyLess, s)
            && forall k :: k in s <==> k in keys
  {
    KeyOrders();
    SortDistinct(KeyAfter, keys);
    var s := Sort(KeyAfter, keys);
    forall i, j | 0 <= i < j < |s| ensures KeyLess(s[j], s[i]) {
      assert KeyAfter(s[i], s[j]);
    }
  }

  function Lines(table: seq<Row>, keys: seq<Key>): seq<LogLine> {
    seq(|keys|, i requires 0 <= i < |keys| =>
      var r := RowOf(table, keys[i]);
      LogLine(r.ts, r.pod, r.text, r.stream, PrintCursor(KeyOf(r))))
  }

  /** One page: one row more than asked for is fetched to learn whether more remain. */
  method QueryLogs(table: seq<Row>, q: Query, limit: nat, before: string) returns (lines: seq<LogLine>, hasMore: bool)
    ensures hasMore == PageAt(table, q, limit, before).more
    ensures lines == Lines(table, PageAt(table, q, limit, before).keys)
  {
    var rows := Top(table, q, before, limit + 1);
    lines := [];
    for i := 0 to |rows|
      invariant lines == Lines(table, rows[..i])
    {
      var r := RowOf(table, rows[i]);
      var l := LogLine(r.ts, r.pod, r.text, r.stream, "");
      l := l.(cursor := l.ts + "|" + Print(r.rowid));
      lines := lines + [l];
    }
    assert rows[..|rows|] == rows;
    hasMore := |lines| > limit;
    if hasMore {
      lines := lines[..limit];
    }
  }

  function PageAt(table: seq<Row>, q: Query, limit: nat, before: string): Page<Key> {
    var rows := Top(table, q, before, limit + 1);
    if |rows| > limit then Page(rows[..limit], true) else Page(rows, false)
  }

  lemma {:induction false} RowOfKey(table: seq<Row>, q: Query, k: Key)
    requires k in MatchingKeys(table, q)
    ensures RowOf(table, k) in table && KeyOf(RowOf(table, k)) == k
  {
    if |table| > 1 && KeyOf(table[0]) != k {
      var i :| 0 <= i < |table| && Matches(q, table[i]) && k == KeyOf(table[i]);
      assert table[1..][i - 1] == table[i];
      RowOfKey(table[1..], q, k);
    }
  }

  /** The line shown for a key carries that row's own content and a cursor for that key. */
  lemma {:induction false} LineOfKey(table: seq<Row>, q: Query, limit: nat, before: string, i: nat)
    requires DistinctRows(table) && i < |PageAt(table, q, limit, before).keys|
    ensures var k := PageAt(table, q, limit, before).keys[i];
            var r, l := RowOf(table, k), Lines(table, PageAt(table, q, limit, before).keys)[i];
            && r in table && Matches(q, RowOf(table, k)) && KeyOf(r) == k
            && l == LogLine(r.ts, r.pod, r.text, r.stream, PrintCursor(k))
  {
    var k := PageAt(table, q, limit, before).keys[i];
    SelectedKeys(table, q, before);
    SortedKeys(Selected(table, q, before));
    assert k in Sort(KeyAfter, Selected(table, q, before));
    RowOfKey(table, q, k);
    var r := RowOf(table, k);
    var m :| 0 <= m < |table| && Matches(q, table[m]) && k == KeyOf(table[m]);
    var n :| 0 <= n < |table| && table[n] == r;
    assert m == n;
  }

  /** With the two kinds of cursor a follower uses, the query returns a page of the matching rows. */
  lemma {:induction false} QueryIsPage(table: seq<Row>, q: Query, limit: nat, before: string, cursor: Option<Key>)
    requires DistinctRows(table) && limit > 0
    requires if cursor.None? then before == "" else before != "" && SplitLogCursor(before) == cursor
    ensures IsPage(KeyLess, MatchingKeys(table, q), limit, cursor, PageAt(table, q, limit, before))
  {
    var selected := Selected(table, q, before);
    var sorted := Sort(KeyAfter, selected);
    SelectedKeys(table, q, before);
    SortedKeys(selected);
    assert PageAt(table, q, limit, before).keys == if |sorted| > limit then sorted[..limit] else sorted;
    forall k ensures k in sorted <==> k in MatchingKeys(table, q) && Below(KeyLess, k, cursor) {
    }
    TopIsPage(sorted, MatchingKeys(table, q), limit, cursor);
  }

  /** The first keys of a descending list of all candidates are a page. */
  lemma {:induction false} TopIsPage(sorted: seq<Key>, view: set<Key>, limit: nat, cursor: Option<Key>)
    requires Descending(KeyLess, sorted) && limit > 0
    requires forall k :: k in sorted <==> k in view && Below(KeyLess, k, cursor)
    ensures IsPage(KeyLess, view, limit, cursor, if |sorted| > limit then Page(sorted[..limit], true)
              else Page(sorted, false))
  {
    var p := if |sorted| > limit then Page(sorted[..limit], true) else Page(sorted, false);
    forall i | 0 <= i < |p.keys| ensures p.keys[i] in view && Below(KeyLess, p.keys[i], cursor) {
      assert sorted[i] in sorted;
    }
    forall k <- view | Below(KeyLess, k, cursor)
      ensures k in p.keys || (p.more && forall i | 0 <= i < |p.keys| :: KeyLess(k, p.keys[i]))
    {
      assert k in sorted;
      var m :| 0 <= m < |sorted| && sorted[m] == k;
      if m < |p.keys| {
        assert p.keys[m] == k;
      }
    }
    if p.more {
      var extra := sorted[limit];
      assert extra in sorted;
      forall i | 0 <= i < |p.keys| ensures p.keys[i] != extra {
        KeyLessIrreflexive(extra);
        assert KeyLess(sorted[limit], sorted[i]);
      }
    }
  }

  lemma {:induction false} KeyLessIrreflexive(k: Key)
    ensures !KeyLess(k, k)
  {
    StringTrichotomy(k.ts, k.ts);
  }

  // ---- Following the cursors ----

  /** Read `i` sees `tables[i]`; every read but the last said there was more, and each later one
      passes on the cursor of the last line of the one before. */
  ghost predicate Session(tables: seq<seq<Row>>, q: Query, limits: seq<nat>, pages: seq<Page<Key>>) {
    && 0 < |pages| == |tables| == |limits|
    && (forall i | 0 <= i < |tables| :: DistinctRows(tables[i]) && limits[i] > 0)
    && (forall i | 0 <= i < |tables| :: forall r <- tables[i] :: MIN_INT64 <= r.rowid <= MAX_INT64)
    && (forall i | 0 <= i < |pages| - 1 :: pages[i].more && pages[i].keys != [])
    && (forall i | 0 <= i < |pages| :: ReadOk(tables, q, limits, pages, i))
  }

  ghost predicate ReadOk(tables: seq<seq<Row>>, q: Query, limits: seq<nat>, pages: seq<Page<Key>>, i: nat)
    requires i < |pages| == |tables| == |limits| && forall j | 0 <= j < |pages| - 1 :: pages[j].keys != []
  {
    pages[i] == PageAt(tables[i], q, limits[i], if i == 0 then ""
        else PrintCursor(pages[i - 1].keys[|pages[i - 1].keys| - 1]))
  }

  ghost function Views(tables: seq<seq<Row>>, q: Query): seq<set<Key>> {
    seq(|tables|, i requires 0 <= i < |tables| => MatchingKeys(tables[i], q))
  }

  lemma {:induction false} CursorOfMatch(table: seq<Row>, q: Query, k: Key)
    requires k in MatchingKeys(table, q) && forall r <- table :: MIN_INT64 <= r.rowid <= MAX_INT64
    ensures PrintCursor(k) != "" && SplitLogCursor(PrintCursor(k)) == Some(k)
  {
    var r :| 0 <= r < |table| && KeyOf(table[r]) == k;
    assert table[r] in table;
    SplitPrintCursor(k);
  }

  lemma {:induction false} QueriedPageOk(tables: seq<seq<Row>>, q: Query, limits: seq<nat>, pages: seq<Page<Key>>,
      i: nat, cursor: Option<Key>)
    requires i < |pages| == |tables| == |limits| && forall j | 0 <= j < |pages| - 1 :: pages[j].keys != []
    requires CursorAt(pages, i) == cursor && IsPage(KeyLess, MatchingKeys(tables[i], q), limits[i], cursor, pages[i])
    ensures PageOk(KeyLess, Views(tables, q), limits, pages, i)
  {
    assert Views(tables, q)[i] == MatchingKeys(tables[i], q);
  }

  lemma {:induction false} FirstIsPage(tables: seq<seq<Row>>, q: Query, limits: seq<nat>, pages: seq<Page<Key>>)
    requires Session(tables, q, limits, pages)
    ensures PageOk(KeyLess, Views(tables, q), limits, pages, 0)
  {
    assert ReadOk(tables, q, limits, pages, 0);
    QueryIsPage(tables[0], q, limits[0], "", None);
    QueriedPageOk(tables, q, limits, pages, 0, None);
  }

  lemma {:induction false} LaterRead(tables: seq<seq<Row>>, q: Query, limits: seq<nat>, pages: seq<Page<Key>>, i: nat)
    requires Session(tables, q, limits, pages) && 0 < i < |pages|
    ensures pages[i - 1].keys != []
    ensures forall r <- tables[i - 1] :: MIN_INT64 <= r.rowid <= MAX_INT64
    ensures pages[i] == PageAt(tables[i], q, limits[i], PrintCursor(pages[i - 1].keys[|pages[i - 1].keys| - 1]))
  {
    assert ReadOk(tables, q, limits, pages, i);
  }

  /** A query with the cursor of the last line of a page is the page below that line. */
  lemma {:induction false} PageAfterPage(earlier: seq<Row>, table: seq<Row>, q: Query, earlierLimit: nat, limit: nat,
      cursor: Option<Key>, page: Page<Key>)
    requires IsPage(KeyLess, MatchingKeys(earlier, q), earlierLimit, cursor, page) && page.keys != []
    requires forall r <- earlier :: MIN_INT64 <= r.rowid <= MAX_INT64
    requires DistinctRows(table) && limit > 0
    ensures var last := page.keys[|page.keys| - 1];
            IsPage(KeyLess, MatchingKeys(table, q), limit, Some(last), PageAt(table, q, limit, PrintCursor(last)))
  {
    var last := page.keys[|page.keys| - 1];
    assert last in MatchingKeys(earlier, q);
    CursorOfMatch(earlier, q, last);
    QueryIsPage(table, q, limit, PrintCursor(last), Some(last));
  }

  lemma {:induction false} NextIsPage(tables: seq<seq<Row>>, q: Query, limits: seq<nat>, pages: seq<Page<Key>>, i: nat)
    requires 0 < i < |pages| == |tables| == |limits| && forall j | 0 <= j < |pages| - 1 :: pages[j].keys != []
    requires PageOk(KeyLess, Views(tables, q), limits, pages, i - 1)
    requires forall r <- tables[i - 1] :: MIN_INT64 <= r.rowid <= MAX_INT64
    requires DistinctRows(tables[i]) && limits[i] > 0
    requires pages[i] == PageAt(tables[i], q, limits[i], PrintCursor(pages[i - 1].keys[|pages[i - 1].keys| - 1]))
    ensures PageOk(KeyLess, Views(tables, q), limits, pages, i)
  {
    var before := pages[i - 1];
    assert Views(tables, q)[i - 1] == MatchingKeys(tables[i - 1], q);
    PageAfterPage(tables[i - 1], tables[i], q, limits[i - 1], limits[i], CursorAt(pages, i - 1), before);
    QueriedPageOk(tables, q, limits, pages, i, Some(before.keys[|before.keys| - 1]));
  }

  lemma {:induction false} ReadIsPage(tables: seq<seq<Row>>, q: Query, limits: seq<nat>, pages: seq<Page<Key>>, i: nat)
    requires Session(tables, q, limits, pages) && i < |pages|
    ensures PageOk(KeyLess, Views(tables, q), limits, pages, i)
    decreases i
  {
    if i == 0 {
      FirstIsPage(tables, q, limits, pages);
    } else {
      ReadIsPage(tables, q, limits, pages, i - 1);
      LaterRead(tables, q, limits, pages, i);
      NextIsPage(tables, q, limits, pages, i);
    }
  }

  /** Following the cursors to the end shows lines in strictly descending (ts, rowid) order, gives
      every row its turn exactly once, and shows it if and only if it was stored and matched then,
      however many rows share a timestamp and whatever is inserted or deleted in between. */
  lemma {:induction false} EveryRowOnce(tables: seq<seq<Row>>, q: Query, limits: seq<nat>, pages: seq<Page<Key>>,
      k: Key) returns (turn: nat)
    requires Session(tables, q, limits, pages) && !pages[|pages| - 1].more
    ensures Descending(KeyLess, AllKeys(pages))
    ensures turn < |pages| && PageOf(KeyLess, pages, k, turn)
    ensures k in AllKeys(pages) <==> k in MatchingKeys(tables[turn], q)
  {
    forall i | 0 <= i < |pages| ensures PageOk(KeyLess, Views(tables, q), limits, pages, i) {
      ReadIsPage(tables, q, limits, pages, i);
    }
    KeyOrders();
    PagesDescend(KeyLess, Views(tables, q), limits, pages);
    turn := EveryKeyHasItsTurn(KeyLess, Views(tables, q), limits, pages, k);
  }

  lemma {:induction false} ShownMatches(table: seq<Row>, q: Query, pages: seq<Page<Key>>, limits: seq<nat>, i: nat)
    requires Session(seq(|pages|, _ => table), q, limits, pages) && i < |pages|
    ensures forall k <- pages[i].keys :: k in MatchingKeys(table, q)
  {
    var tables := seq(|pages|, _ => table);
    ReadIsPage(tables, q, limits, pages, i);
    assert Views(tables, q)[i] == MatchingKeys(table, q);
  }

  /** On a table that does not change, following the cursors ends: there are at most as many pages as matching rows, and
      possibly an empty last one. */
  lemma {:induction false} StaticTableEnds(table: seq<Row>, q: Query, limits: seq<nat>, pages: seq<Page<Key>>)
    requires Session(seq(|pages|, _ => table), q, limits, pages)
    ensures |pages| <= |MatchingKeys(table, q)| + 1
  {
    var tables := seq(|pages|, _ => table);
    forall i | 0 <= i < |pages| ensures PageOk(KeyLess, Views(tables, q), limits, pages, i) {
      ReadIsPage(tables, q, limits, pages, i);
    }
    forall i | 0 <= i < |pages| ensures forall k <- pages[i].keys :: k in Views(tables, q)[0] {
      ShownMatches(table, q, pages, limits, i);
    }
    KeyOrders();
    FollowingEnds(KeyLess, Views(tables, q), limits, pages);
  }

  /** On a table that does not change, the pages together are exactly the matching rows. */
  lemma {:induction false} StaticTableIsEnumerated(table: seq<Row>, q: Query, limits: seq<nat>, pages: seq<Page<Key>>)
    requires Session(seq(|pages|, _ => table), q, limits, pages) && !pages[|pages| - 1].more
    ensures Descending(KeyLess, AllKeys(pages))
    ensures Elements(AllKeys(pages)) == MatchingKeys(table, q)
  {
    forall k ensures k in AllKeys(pages) <==> k in MatchingKeys(table, q) {
      var turn := EveryRowOnce(seq(|pages|, _ => table), q, limits, pages, k);
    }
    var turn := EveryRowOnce(seq(|pages|, _ => table), q, limits, pages, Key("", 0));
  }
}
