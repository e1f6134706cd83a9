/** Strict total orders, sorting by one, and the byte order of strings. */
module Ordering {

  ghost predicate StrictTotal<T(!new)>(less: (T, T) -> bool) {
    && (forall x :: !less(x, x))
    && (forall x, y, z :: less(x, y) && less(y, z) ==> less(x, z))
    && (forall x, y :: x == y || less(x, y) || less(y, x))
  }

  ghost predicate Ascending<T>(less: (T, T) -> bool, xs: seq<T>) {
    forall i, j | 0 <= i < j < |xs| :: less(xs[i], xs[j])
  }

  ghost predicate Descending<T>(less: (T, T) -> bool, xs: seq<T>) {
    forall i, j | 0 <= i < j < |xs| :: less(xs[j], xs[i])
  }

  /** Sorted with equals allowed. */
  ghost predicate NonDescending<T>(less: (T, T) -> bool, xs: seq<T>) {
    forall i, j | 0 <= i < j < |xs| :: !less(xs[j], xs[i])
  }

  ghost function Elements<T>(xs: seq<T>): set<T> {
    set x | x in xs
  }

  function Insert<T>(less: (T, T) -> bool, x: T, xs: seq<T>): seq<T> {
    if xs == [] || !less(xs[0], x) then [x] + xs else [xs[0]] + Insert(less, x, xs[1..])
  }

  function Sort<T>(less: (T, T) -> bool, xs: seq<T>): seq<T> {
    if xs == [] then [] else Insert(less, xs[0], Sort(less, xs[1..]))
  }

  /** Enough of an order to sort by: ties are allowed, and being no greater is transitive. */
  ghost predicate StrictWeak<T(!new)>(less: (T, T) -> bool) {
    && (forall x, y :: less(x, y) ==> !less(y, x))
    && (forall x, y, z :: less(x, z) ==> less(x, y) || less(y, z))
  }

  lemma {:induction false} TotalIsWeak<T(!new)>(less: (T, T) -> bool)
    requires StrictTotal(less)
    ensures StrictWeak(less)
  {
    forall x, y | less(x, y) ensures !less(y, x) {
      assert less(x, y) && less(y, x) ==> less(x, x);
    }
    forall x, y, z | less(x, z) ensures less(x, y) || less(y, z) {
      assert x == y || less(x, y) || less(y, x);
    }
  }

  lemma {:induction false} Prepended<T(!new)>(less: (T, T) -> bool, x: T, xs: seq<T>)
    requires NonDescending(less, xs) && forall y <- xs :: !less(y, x)
    ensures NonDescending(less, [x] + xs) && multiset([x] + xs) == multiset(xs) + multiset{x}
  {
  }

  lemma {:induction false} InsertMultiset<T>(less: (T, T) -> bool, x: T, xs: seq<T>)
    ensures multiset(Insert(less, x, xs)) == multiset(xs) + multiset{x}
  {
    if xs != [] && less(xs[0], x) {
      InsertMultiset(less, x, xs[1..]);
      assert xs == [xs[0]] + xs[1..];
    }
  }

  lemma {:induction false} InsertSorted<T(!new)>(less: (T, T) -> bool, x: T, xs: seq<T>)
    requires StrictWeak(less) && NonDescending(less, xs)
    ensures NonDescending(less, Insert(less, x, xs))
  {
    if xs == [] || !less(xs[0], x) {
      forall j | 0 <= j < |xs| ensures !less(xs[j], x) {
        assert j > 0 ==> !less(xs[j], xs[0]);
      }
      Prepended(less, x, xs);
    } else {
      var tail := Insert(less, x, xs[1..]);
      InsertSorted(less, x, xs[1..]);
      InsertMultiset(less, x, xs[1..]);
      forall y <- tail ensures !less(y, xs[0]) {
        assert y in multiset(tail);
        if y != x {
          assert y in xs[1..];
        }
      }
      Prepended(less, xs[0], tail);
    }
  }

  lemma {:induction false} SortSortsWeakly<T(!new)>(less: (T, T) -> bool, xs: seq<T>)
    requires StrictWeak(less)
    ensures NonDescending(less, Sort(less, xs))
    ensures multiset(Sort(less, xs)) == multiset(xs)
  {
    if xs != [] {
      SortSortsWeakly(less, xs[1..]);
      InsertSorted(less, xs[0], Sort(less, xs[1..]));
      InsertMultiset(less, xs[0], Sort(less, xs[1..]));
      assert xs == [xs[0]] + xs[1..];
    }
  }

  /** Sorting yields a sorted permutation. */
  lemma {:induction false} SortSorts<T(!new)>(less: (T, T) -> bool, xs: seq<T>)
    requires StrictTotal(less)
    ensures NonDescending(less, Sort(less, xs))
    ensures multiset(Sort(less, xs)) == multiset(xs)
  {
    TotalIsWeak(less);
    SortSortsWeakly(less, xs);
  }

  ghost predicate Trichotomous<T(!new)>(less: (T, T) -> bool) {
    forall x, y :: x == y || less(x, y) || less(y, x)
  }

  lemma {:induction false} SameLeast<T(!new)>(less: (T, T) -> bool, xs: seq<T>, ys: seq<T>)
    requires Trichotomous(less) && NonDescending(less, xs) && NonDescending(less, ys)
    requires xs != [] && ys != [] && xs[0] in ys && ys[0] in xs
    ensures xs[0] == ys[0]
  {
    var i :| 0 <= i < |ys| && ys[i] == xs[0];
    var j :| 0 <= j < |xs| && xs[j] == ys[0];
    assert i > 0 ==> !less(ys[i], ys[0]);
    assert j > 0 ==> !less(xs[j], xs[0]);
  }

  lemma {:induction false} Tail<T(!new)>(less: (T, T) -> bool, xs: seq<T>)
    requires xs != [] && NonDescending(less, xs)
    ensures multiset(xs[1..]) == multiset(xs) - multiset{xs[0]} && NonDescending(less, xs[1..])
  {
    assert xs == [xs[0]] + xs[1..];
  }

  lemma {:induction false} SameSorting<T(!new)>(less: (T, T) -> bool, xs: seq<T>, ys: seq<T>)
    requires Trichotomous(less) && NonDescending(less, xs) && NonDescending(less, ys)
    requires multiset(xs) == multiset(ys)
    ensures xs == ys
    decreases |xs|
  {
    if xs == [] || ys == [] {
      assert |xs| == |multiset(xs)| == |multiset(ys)| == |ys|;
    } else {
      assert xs[0] in multiset(ys) && ys[0] in multiset(xs);
      SameLeast(less, xs, ys);
      Tail(less, xs);
      Tail(less, ys);
      SameSorting(less, xs[1..], ys[1..]);
      assert xs == [xs[0]] + xs[1..] && ys == [ys[0]] + ys[1..];
    }
  }

  /** There is only one way to sort. */
  lemma {:induction false} SortedUnique<T(!new)>(less: (T, T) -> bool, xs: seq<T>, ys: seq<T>)
    requires StrictTotal(less) && NonDescending(less, xs) && NonDescending(less, ys)
    requires multiset(xs) == multiset(ys)
    ensures xs == ys
  {
    SameSorting(less, xs, ys);
  }

  // ---- Sequences without repetition ----

  ghost predicate NoDuplicates<T>(xs: seq<T>) {
    forall i, j | 0 <= i < j < |xs| :: xs[i] != xs[j]
  }

  lemma {:induction false} ElementsAppend<T>(xs: seq<T>, x: T)
    ensures Elements(xs + [x]) == Elements(xs) + {x}
    ensures NoDuplicates(xs) && x !in xs ==> NoDuplicates(xs + [x])
  {
    forall y ensures y in xs + [x] <==> y in xs || y == x {
    }
  }

  lemma {:induction false} DistinctMultiset<T>(xs: seq<T>)
    requires NoDuplicates(xs)
    ensures forall x :: multiset(xs)[x] <= 1
  {
    if xs != [] {
      DistinctMultiset(xs[1..]);
      assert xs == [xs[0]] + xs[1..];
      assert xs[0] !in xs[1..];
    }
  }

  lemma {:induction false} TwiceInMultiset<T>(xs: seq<T>, i: nat, j: nat)
    requires i < j < |xs| && xs[i] == xs[j]
    ensures multiset(xs)[xs[i]] >= 2
  {
    assert xs == xs[..j] + [xs[j]] + xs[j + 1..];
    assert xs[..j][i] in xs[..j];
  }

  lemma {:induction false} SameElements<T>(xs: seq<T>, ys: seq<T>)
    requires multiset(xs) == multiset(ys)
    ensures |xs| == |ys| && Elements(xs) == Elements(ys) && forall x :: x in xs <==> x in ys
  {
    assert |xs| == |multiset(xs)| == |multiset(ys)| == |ys|;
    forall x ensures x in xs <==> x in ys {
      assert x in xs <==> x in multiset(xs);
      assert x in ys <==> x in multiset(ys);
    }
  }

  lemma {:induction false} WithoutOne<T>(xs: seq<T>, i: nat)
    requires i < |xs|
    ensures multiset(xs) == multiset(xs[..i] + xs[i + 1..]) + multiset{xs[i]}
  {
    assert xs == xs[..i] + [xs[i]] + xs[i + 1..];
  }

  lemma {:induction false} EarlierAreLess<T(!new)>(less: (T, T) -> bool, xs: seq<T>, i: nat)
    requires Ascending(less, xs) && i < |xs|
    ensures forall x <- xs[..i] :: less(x, xs[i])
  {
  }

  /** Sorting distinct values leaves no ties. */
  lemma {:induction false} SortDistinct<T(!new)>(less: (T, T) -> bool, xs: seq<T>)
    requires StrictTotal(less) && NoDuplicates(xs)
    ensures var s := Sort(less, xs);
            |s| == |xs| && Ascending(less, s) && Elements(s) == Elements(xs) && forall x :: x in s <==> x in xs
  {
    SortSorts(less, xs);
    var s := Sort(less, xs);
    SameElements(s, xs);
    DistinctMultiset(xs);
    forall i, j | 0 <= i < j < |s| ensures less(s[i], s[j]) {
      assert !less(s[j], s[i]);
      if s[i] == s[j] {
        TwiceInMultiset(s, i, j);
      }
    }
  }

  // ---- Strings ----

  /** Lexicographic order by character code. */
  predicate StringLess(a: string, b: string) {
    if b == "" then false
    else if a == "" then true
    else a[0] < b[0] || (a[0] == b[0] && StringLess(a[1..], b[1..]))
  }

  lemma {:induction false} StringTrichotomy(a: string, b: string)
    ensures !StringLess(a, a)
    ensures a == b || StringLess(a, b) || StringLess(b, a)
  {
    if a != "" {
      StringTrichotomy(a[1..], if b == "" then "" else b[1..]);
      if b != "" && a[0] == b[0] && a[1..] == b[1..] {
        assert a == [a[0]] + a[1..] && b == [b[0]] + b[1..];
      }
    }
  }

  lemma {:induction false} StringTransitive(a: string, b: string, c: string)
    requires StringLess(a, b) && StringLess(b, c)
    ensures StringLess(a, c)
  {
    if a != "" && a[0] == b[0] && b[0] == c[0] {
      StringTransitive(a[1..], b[1..], c[1..]);
    }
  }

  lemma {:induction false} StringLessTotal()
    ensures StrictTotal(StringLess)
  {
    forall x, y ensures !StringLess(x, x) && (x == y || StringLess(x, y) || StringLess(y, x)) {
      StringTrichotomy(x, y);
    }
    forall x, y, z | StringLess(x, y) && StringLess(y, z) ensures StringLess(x, z) {
      StringTransitive(x, y, z);
    }
  }

  /** The keys of a map in order, whatever order the map yields them in. */
  method SortKeys<T(!new, ==)>(less: (T, T) -> bool, keys: set<T>) returns (sorted: seq<T>)
    requires StrictTotal(less)
    ensures Ascending(less, sorted) && Elements(sorted) == keys
  {
    var list: seq<T> := [];
    var rest := keys;
    while rest != {}
      invariant rest <= keys && NoDuplicates(list) && Elements(list) == keys - rest
      decreases rest
    {
      var k :| k in rest;
      assert k !in Elements(list);
      ElementsAppend(list, k);
      list := list + [k];
      rest := rest - {k};
    }
    sorted := Sort(less, list);
    SortDistinct(less, list);
  }

  method SortNames(names: set<string>) returns (sorted: seq<string>)
    ensures Ascending(StringLess, sorted) && Elements(sorted) == names
  {
    StringLessTotal();
    sorted := SortKeys(StringLess, names);
  }
}
