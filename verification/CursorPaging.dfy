/** Cursor paging over a collection that changes between the page reads.

    A page holds the greatest keys below its cursor, and its last key is the next cursor.
    Nothing is assumed about how the collection changes; what was seen on each read is given.
 */
module CursorPaging {
  import opened Options
  import opened Ordering

  datatype Page<+K> = Page(keys: seq<K>, more: bool)

  ghost predicate Below<K>(less: (K, K) -> bool, k: K, cursor: Option<K>) {
    cursor.Some? ==> less(k, cursor.value)
  }

  /** `p` is the page of at most `limit` keys of `view` that lie below `cursor`. */
  ghost predicate IsPage<K(!new)>(less: (K, K) -> bool, view: set<K>, limit: nat, cursor: Option<K>, p: Page<K>) {
    && |p.keys| <= limit
    && Descending(less, p.keys)
    && (forall i | 0 <= i < |p.keys| :: p.keys[i] in view && Below(less, p.keys[i], cursor))
    && (forall k <- view :: Below(less, k, cursor) && k !in p.keys ==>
          p.more && forall i | 0 <= i < |p.keys| :: less(k, p.keys[i]))
    && (p.more ==> p.keys != [] && exists k <- view :: Below(less, k, cursor) && k !in p.keys)
  }

  /** The cursor the reader holds before page `i`. */
  function CursorAt<K>(pages: seq<Page<K>>, i: nat): Option<K>
    requires i <= |pages|
    requires forall j | 0 <= j < i :: pages[j].keys != []
  {
    if i == 0 then None else Some(pages[i - 1].keys[|pages[i - 1].keys| - 1])
  }

  ghost predicate PageOk<K(!new)>(less: (K, K) -> bool, views: seq<set<K>>, limits: seq<nat>, pages: seq<Page<K>>,
      i: nat)
    requires i < |pages| == |views| == |limits|
    requires forall j | 0 <= j < |pages| - 1 :: pages[j].keys != []
  {
    IsPage(less, views[i], limits[i], CursorAt(pages, i), pages[i])
  }

  /** A reader following cursors: every page but the last promised more. */
  ghost predicate Followed<K(!new)>(less: (K, K) -> bool, views: seq<set<K>>, limits: seq<nat>, pages: seq<Page<K>>) {
    && 0 < |pages| == |views| == |limits|
    && (forall i | 0 <= i < |pages| - 1 :: pages[i].more && pages[i].keys != [])
    && (forall i | 0 <= i < |pages| :: PageOk(less, views, limits, pages, i))
  }

  function AllKeys<K>(pages: seq<Page<K>>): seq<K>
    decreases |pages|
  {
    if pages == [] then [] else AllKeys(pages[..|pages| - 1]) + pages[|pages| - 1].keys
  }

  lemma {:induction false} FollowedPrefix<K(!new)>(less: (K, K) -> bool, views: seq<set<K>>, limits: seq<nat>,
      pages: seq<Page<K>>, n: nat)
    requires Followed(less, views, limits, pages) && 0 < n <= |pages|
    ensures Followed(less, views[..n], limits[..n], pages[..n])
  {
    forall i | 0 <= i < n
      ensures PageOk(less, views[..n], limits[..n], pages[..n], i)
    {
      assert PageOk(less, views, limits, pages, i);
      assert CursorAt(pages[..n], i) == CursorAt(pages, i);
    }
  }

  lemma {:induction false} AllKeysHas<K>(pages: seq<Page<K>>, k: K)
    ensures k in AllKeys(pages) <==> exists i | 0 <= i < |pages| :: k in pages[i].keys
    decreases |pages|
  {
    if pages != [] {
      var n := |pages| - 1;
      AllKeysHas(pages[..n], k);
      if k in AllKeys(pages[..n]) {
        var i :| 0 <= i < n && k in pages[..n][i].keys;
        assert k in pages[i].keys;
      }
      if i :| 0 <= i < |pages| && k in pages[i].keys && i < n {
        assert k in pages[..n][i].keys;
      }
    }
  }

  lemma {:induction false} AppendDescending<K(!new)>(less: (K, K) -> bool, xs: seq<K>, ys: seq<K>)
    requires StrictTotal(less) && Descending(less, xs) && Descending(less, ys) && xs != []
    requires forall i | 0 <= i < |ys| :: less(ys[i], xs[|xs| - 1])
    ensures Descending(less, xs + ys)
  {
    var all := xs + ys;
    forall i, j | 0 <= i < j < |all| ensures less(all[j], all[i]) {
      if i < |xs| <= j {
        assert less(ys[j - |xs|], xs[|xs| - 1]);
        assert i < |xs| - 1 ==> less(xs[|xs| - 1], xs[i]);
      }
    }
  }

  /** The keys come in strictly descending order over all pages together, so no key twice. */
  lemma {:induction false} PagesDescend<K(!new)>(less: (K, K) -> bool, views: seq<set<K>>, limits: seq<nat>,
      pages: seq<Page<K>>)
    requires StrictTotal(less) && Followed(less, views, limits, pages)
    ensures Descending(less, AllKeys(pages))
    ensures pages[|pages| - 1].keys != [] ==>
              && AllKeys(pages) != []
              && AllKeys(pages)[|AllKeys(pages)| - 1] == pages[|pages| - 1].keys[|pages[|pages| - 1].keys| - 1]
    decreases |pages|
  {
    var n := |pages| - 1;
    KeysOfPage(less, views, limits, pages, n);
    assert AllKeys(pages) == AllKeys(pages[..n]) + pages[n].keys;
    if n > 0 {
      FollowedPrefix(less, views, limits, pages, n);
      PagesDescend(less, views[..n], limits[..n], pages[..n]);
      assert pages[..n][n - 1] == pages[n - 1];
      AppendDescending(less, AllKeys(pages[..n]), pages[n].keys);
    }
  }

  lemma {:induction false} KeysOfPage<K(!new)>(less: (K, K) -> bool, views: seq<set<K>>, limits: seq<nat>,
      pages: seq<Page<K>>, i: nat)
    requires Followed(less, views, limits, pages) && i < |pages|
    ensures Descending(less, pages[i].keys)
    ensures i > 0 ==> pages[i - 1].keys != []
                      && forall j | 0 <= j < |pages[i].keys| ::
                          less(pages[i].keys[j], pages[i - 1].keys[|pages[i - 1].keys| - 1])
  {
    assert PageOk(less, views, limits, pages, i);
  }

  /** The one page whose turn it is to show `k`: above the cursor it hands on, below the one
      it was given. */
  ghost predicate PageOf<K>(less: (K, K) -> bool, pages: seq<Page<K>>, k: K, i: nat)
    requires i < |pages| && forall j | 0 <= j < |pages| - 1 :: pages[j].keys != []
  {
    && Below(less, k, CursorAt(pages, i))
    && (i < |pages| - 1 ==> !Below(less, k, CursorAt(pages, i + 1)))
  }

  lemma {:induction false} PageOfExists<K(!new)>(less: (K, K) -> bool, views: seq<set<K>>, limits: seq<nat>,
      pages: seq<Page<K>>, k: K, n: nat)
      returns (i: nat)
    requires Followed(less, views, limits, pages)
    requires n < |pages| && Below(less, k, CursorAt(pages, n))
    ensures n <= i < |pages| && PageOf(less, pages, k, i)
    decreases |pages| - n
  {
    if n < |pages| - 1 && Below(less, k, CursorAt(pages, n + 1)) {
      i := PageOfExists(less, views, limits, pages, k, n + 1);
    } else {
      i := n;
    }
  }

  /** Complete coverage: when the reader has followed the cursors to the end, every key had its
      turn on exactly one page, and it is shown there if and only if it was there to be read. */
  lemma {:induction false} EveryKeyHasItsTurn<K(!new)>(less: (K, K) -> bool, views: seq<set<K>>, limits: seq<nat>,
      pages: seq<Page<K>>, k: K)
      returns (turn: nat)
    requires StrictTotal(less) && Followed(less, views, limits, pages)
    requires !pages[|pages| - 1].more
    ensures turn < |pages| && PageOf(less, pages, k, turn)
    ensures k in AllKeys(pages) <==> k in views[turn]
    ensures k in pages[turn].keys <==> k in views[turn]
  {
    turn := PageOfExists(less, views, limits, pages, k, 0);
    assert PageOk(less, views, limits, pages, turn);
    assert k in pages[turn].keys ==> exists i | 0 <= i < |pages[turn].keys| :: pages[turn].keys[i] == k;
    AllKeysHas(pages, k);
    if j :| 0 <= j < |pages| && k in pages[j].keys {
      ShownInTurn(less, views, limits, pages, k, turn, j);
    }
  }

  lemma {:induction false} ShownInTurn<K(!new)>(less: (K, K) -> bool, views: seq<set<K>>, limits: seq<nat>,
      pages: seq<Page<K>>, k: K, turn: nat, j: nat)
    requires StrictTotal(less) && Followed(less, views, limits, pages)
    requires turn < |pages| && PageOf(less, pages, k, turn)
    requires j < |pages| && k in pages[j].keys
    ensures j == turn
  {
    assert PageOk(less, views, limits, pages, j);
    var m :| 0 <= m < |pages[j].keys| && pages[j].keys[m] == k;
    assert m < |pages[j].keys| - 1 ==> less(pages[j].keys[|pages[j].keys| - 1], k);
    if j < turn {
      CursorsDescend(less, views, limits, pages, j + 1, turn);
    } else if turn < j {
      CursorsDescend(less, views, limits, pages, turn + 1, j);
    }
  }

  lemma {:induction false} CursorsDescend<K(!new)>(less: (K, K) -> bool, views: seq<set<K>>, limits: seq<nat>,
      pages: seq<Page<K>>, i: nat, j: nat)
    requires StrictTotal(less) && Followed(less, views, limits, pages)
    requires 0 < i <= j < |pages|
    ensures CursorAt(pages, j) == CursorAt(pages, i) || less(CursorAt(pages, j).value, CursorAt(pages, i).value)
    decreases j
  {
    if i < j {
      CursorsDescend(less, views, limits, pages, i, j - 1);
      assert PageOk(less, views, limits, pages, j - 1);
    }
  }

  /** Following the cursors ends: if nothing new ever appears below a cursor, there are at most
      as many pages as there were keys at the start, plus a possibly empty last one. */
  lemma {:induction false} FollowingEnds<K(!new)>(less: (K, K) -> bool, views: seq<set<K>>, limits: seq<nat>,
      pages: seq<Page<K>>)
    requires StrictTotal(less) && Followed(less, views, limits, pages)
    requires forall i | 0 <= i < |pages| :: forall k <- pages[i].keys :: k in views[0]
    ensures |AllKeys(pages)| <= |views[0]|
    ensures |pages| <= |views[0]| + 1
  {
    PagesDescend(less, views, limits, pages);
    var all := AllKeys(pages);
    forall k | k in all ensures k in views[0] {
      AllKeysHas(pages, k);
    }
    DistinctFit(less, all, views[0]);
    PagesFit(pages);
  }

  lemma {:induction false} DistinctFit<K(!new)>(less: (K, K) -> bool, xs: seq<K>, s: set<K>)
    requires StrictTotal(less) && Descending(less, xs) && forall k <- xs :: k in s
    ensures |xs| <= |s|
    decreases |xs|
  {
    if xs != [] {
      var front, last := xs[..|xs| - 1], xs[|xs| - 1];
      forall k | k in front ensures k in s - {last} {
        var i :| 0 <= i < |front| && front[i] == k;
        assert xs[i] == k && less(last, k) && k in xs;
      }
      DistinctFit(less, front, s - {last});
    }
  }

  lemma {:induction false} PagesFit<K>(pages: seq<Page<K>>)
    requires forall i | 0 <= i < |pages| - 1 :: pages[i].keys != []
    ensures |pages| <= |AllKeys(pages)| + 1
    decreases |pages|
  {
    if |pages| > 1 {
      var n := |pages| - 1;
      assert pages[n - 1].keys != [];
      PagesFull(pages[..n]);
    }
  }

  lemma {:induction false} PagesFull<K>(pages: seq<Page<K>>)
    requires forall i | 0 <= i < |pages| :: pages[i].keys != []
    ensures |pages| <= |AllKeys(pages)|
    decreases |pages|
  {
    if pages != [] {
      PagesFull(pages[..|pages| - 1]);
    }
  }
}
