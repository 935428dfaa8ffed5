/** The sorted() of the original language: elements are put in order, and those
    that tie keep the order they had. */
module StableSort {

  /** A strict weak order: not being below is transitive. */
  ghost predicate IsOrder<T(!new)>(below: (T, T) -> bool) {
    && (forall a, b :: below(a, b) ==> !below(b, a))
    && (forall a, b, c :: !below(b, a) && !below(c, b) ==> !below(c, a))
  }

  /** Puts an element behind all that it is not below. */
  function Insert<T>(below: (T, T) -> bool, sorted: seq<T>, x: T): seq<T> {
    if |sorted| == 0 then [x]
    else
      var n := |sorted| - 1;
      if below(x, sorted[n]) then Insert(below, sorted[..n], x) + [sorted[n]] else sorted + [x]
  }

  /** The first n elements, sorted. */
  function SortFirst<T>(below: (T, T) -> bool, xs: seq<T>, n: nat): seq<T>
    requires n <= |xs|
  {
    if n == 0 then [] else Insert(below, SortFirst(below, xs, n - 1), xs[n - 1])
  }

  function Sort<T>(below: (T, T) -> bool, xs: seq<T>): seq<T> {
    SortFirst(below, xs, |xs|)
  }

  ghost predicate Ascends<T>(below: (T, T) -> bool, xs: seq<T>) {
    forall i, j | 0 <= i < j < |xs| :: !below(xs[j], xs[i])
  }

  lemma {:induction false} InsertKeepsAll<T>(below: (T, T) -> bool, sorted: seq<T>, x: T)
    ensures multiset(Insert(below, sorted, x)) == multiset(sorted) + multiset{x}
  {
    var n := |sorted|;
    if n > 0 && below(x, sorted[n - 1]) {
      InsertKeepsAll(below, sorted[..n - 1], x);
      TakeOneMore(sorted, n - 1);
      assert sorted[..n] == sorted;
    }
  }

  lemma TakeOneMore<T>(xs: seq<T>, n: nat)
    requires n < |xs|
    ensures multiset(xs[..n + 1]) == multiset(xs[..n]) + multiset{xs[n]}
  {
    assert xs[..n + 1] == xs[..n] + [xs[n]];
  }

  lemma InsertMembers<T>(below: (T, T) -> bool, sorted: seq<T>, x: T, y: T)
    ensures y in Insert(below, sorted, x) <==> y in sorted || y == x
  {
    InsertKeepsAll(below, sorted, x);
    assert y in Insert(below, sorted, x) <==> y in multiset(Insert(below, sorted, x));
    assert y in sorted <==> y in multiset(sorted);
  }

  lemma {:induction false} InsertKeepsOrder<T(!new)>(below: (T, T) -> bool, sorted: seq<T>, x: T)
    requires IsOrder(below) && Ascends(below, sorted)
    ensures Ascends(below, Insert(below, sorted, x))
  {
    var n := |sorted|;
    if n > 0 {
      var last := sorted[n - 1];
      if below(x, last) {
        InsertKeepsOrder(below, sorted[..n - 1], x);
        forall y | y in Insert(below, sorted[..n - 1], x)
          ensures !below(last, y)
        {
          InsertMembers(below, sorted[..n - 1], x, y);
        }
      } else {
        forall i | 0 <= i < n ensures !below(x, sorted[i]) {
          assert i < n - 1 ==> !below(last, sorted[i]);
        }
      }
    }
  }

  lemma {:induction false} SortFirstAscends<T(!new)>(below: (T, T) -> bool, xs: seq<T>, n: nat)
    requires IsOrder(below) && n <= |xs|
    ensures Ascends(below, SortFirst(below, xs, n))
  {
    if n > 0 {
      SortFirstAscends(below, xs, n - 1);
      InsertKeepsOrder(below, SortFirst(below, xs, n - 1), xs[n - 1]);
    }
  }

  lemma {:induction false} SortFirstKeepsAll<T>(below: (T, T) -> bool, xs: seq<T>, n: nat)
    requires n <= |xs|
    ensures multiset(SortFirst(below, xs, n)) == multiset(xs[..n])
  {
    if n > 0 {
      SortFirstKeepsAll(below, xs, n - 1);
      InsertKeepsAll(below, SortFirst(below, xs, n - 1), xs[n - 1]);
      TakeOneMore(xs, n - 1);
    }
  }

  lemma SortFirstMembers<T>(below: (T, T) -> bool, xs: seq<T>, n: nat, y: T)
    requires n <= |xs|
    ensures y in SortFirst(below, xs, n) <==> y in xs[..n]
  {
    SortFirstKeepsAll(below, xs, n);
    assert y in SortFirst(below, xs, n) <==> y in multiset(SortFirst(below, xs, n));
    assert y in xs[..n] <==> y in multiset(xs[..n]);
  }

  lemma WithoutOne<T>(xs: seq<T>, i: nat)
    requires i < |xs|
    ensures multiset(xs[..i] + xs[i + 1..]) == multiset(xs) - multiset{xs[i]}
  {
    assert xs == xs[..i] + [xs[i]] + xs[i + 1..];
  }

  /** An element stays when another place is left out. */
  lemma OtherPlace<T>(xs: seq<T>, i: nat, x: T) returns (k: nat)
    requires i < |xs| && x in xs[..i] + xs[i + 1..]
    ensures k < |xs| && k != i && xs[k] == x
  {
    var others := xs[..i] + xs[i + 1..];
    k :| 0 <= k < |others| && others[k] == x;
    k := if k < i then k else k + 1;
  }

  /** Two places of a list have two places in any reordering of it. */
  lemma TwoPlaces<T>(xs: seq<T>, ys: seq<T>, i: nat, j: nat) returns (m: nat, n: nat)
    requires multiset(xs) == multiset(ys) && i < j < |xs|
    ensures m < |ys| && n < |ys| && m != n && ys[m] == xs[i] && ys[n] == xs[j]
  {
    assert xs[i] in multiset(ys);
    m :| 0 <= m < |ys| && ys[m] == xs[i];
    WithoutOne(ys, m);
    WithoutOne(xs, i);
    assert (xs[..i] + xs[i + 1..])[j - 1] == xs[j];
    assert xs[j] in multiset(ys[..m] + ys[m + 1..]);
    n := OtherPlace(ys, m, xs[j]);
  }

  /** The elements with a property, in order. */
  function Those<T>(has: T -> bool, xs: seq<T>, n: nat): seq<T>
    requires n <= |xs|
  {
    if n == 0 then [] else Those(has, xs, n - 1) + if has(xs[n - 1]) then [xs[n - 1]] else []
  }

  lemma {:induction false} ThosePrefix<T>(has: T -> bool, xs: seq<T>, ys: seq<T>, n: nat)
    requires xs <= ys && n <= |xs|
    ensures Those(has, xs, n) == Those(has, ys, n)
  {
    if n > 0 {
      ThosePrefix(has, xs, ys, n - 1);
    }
  }

  lemma ThoseOneMore<T>(has: T -> bool, xs: seq<T>, x: T)
    ensures Those(has, xs + [x], |xs| + 1) == Those(has, xs, |xs|) + if has(x) then [x] else []
  {
    ThosePrefix(has, xs, xs + [x], |xs|);
  }

  /** No two elements with the property are in order: they all tie. */
  ghost predicate Tie<T(!new)>(below: (T, T) -> bool, has: T -> bool) {
    forall a, b | has(a) && has(b) :: !below(a, b)
  }

  lemma {:induction false} InsertIsStable<T(!new)>(below: (T, T) -> bool, has: T -> bool, sorted: seq<T>, x: T)
    requires Tie(below, has)
    ensures var all := Insert(below, sorted, x);
            Those(has, all, |all|) == Those(has, sorted, |sorted|) + if has(x) then [x] else []
  {
    var n := |sorted| - 1;
    if |sorted| == 0 {
      ThoseOneMore(has, [], x);
      assert [] + [x] == [x];
    } else if below(x, sorted[n]) {
      InsertIsStable(below, has, sorted[..n], x);
      ThoseOneMore(has, Insert(below, sorted[..n], x), sorted[n]);
      ThoseOneMore(has, sorted[..n], sorted[n]);
      assert sorted[..n] + [sorted[n]] == sorted;
      assert !(has(x) && has(sorted[n]));
    } else {
      ThoseOneMore(has, sorted, x);
    }
  }

  lemma {:induction false} SortFirstIsStable<T(!new)>(below: (T, T) -> bool, has: T -> bool, xs: seq<T>, n: nat)
    requires Tie(below, has) && n <= |xs|
    ensures var sorted := SortFirst(below, xs, n); Those(has, sorted, |sorted|) == Those(has, xs, n)
  {
    if n > 0 {
      SortFirstIsStable(below, has, xs, n - 1);
      InsertIsStable(below, has, SortFirst(below, xs, n - 1), xs[n - 1]);
    }
  }

  /** Where an element without the property stands before one with it, it is below. */
  ghost predicate FirstUnlessBelow<T(!new)>(below: (T, T) -> bool, has: T -> bool, xs: seq<T>) {
    forall i, j | 0 <= i < j < |xs| && !has(xs[i]) && has(xs[j]) :: below(xs[i], xs[j])
  }

  lemma {:induction false} InsertKeepsFirst<T(!new)>(below: (T, T) -> bool, has: T -> bool, sorted: seq<T>, x: T)
    requires FirstUnlessBelow(below, has, sorted) && !has(x)
    ensures FirstUnlessBelow(below, has, Insert(below, sorted, x))
  {
    var n := |sorted| - 1;
    if |sorted| > 0 && below(x, sorted[n]) {
      var less := Insert(below, sorted[..n], x);
      InsertKeepsFirst(below, has, sorted[..n], x);
      forall y | y in less && !has(y) && has(sorted[n])
        ensures below(y, sorted[n])
      {
        InsertMembers(below, sorted[..n], x, y);
      }
    }
  }

  /** A list of elements with a property, followed by others without it: sorted, one
      of the others comes before one of the first only if it is below it. */
  lemma {:induction false} SortKeepsFirst<T(!new)>(below: (T, T) -> bool, has: T -> bool, xs: seq<T>, m: nat, n: nat)
    requires n <= |xs| && m <= |xs|
    requires (forall i | 0 <= i < m :: has(xs[i])) && (forall i | m <= i < |xs| :: !has(xs[i]))
    ensures FirstUnlessBelow(below, has, SortFirst(below, xs, n))
  {
    if n > m {
      SortKeepsFirst(below, has, xs, m, n - 1);
      InsertKeepsFirst(below, has, SortFirst(below, xs, n - 1), xs[n - 1]);
    } else {
      forall y | y in SortFirst(below, xs, n) ensures has(y) {
        SortFirstMembers(below, xs, n, y);
      }
    }
  }

  /** The result is in order and has every element as often as before. */
  lemma SortSorts<T(!new)>(below: (T, T) -> bool, xs: seq<T>)
    requires IsOrder(below)
    ensures Ascends(below, Sort(below, xs)) && multiset(Sort(below, xs)) == multiset(xs)
  {
    SortFirstAscends(below, xs, |xs|);
    SortFirstKeepsAll(below, xs, |xs|);
    assert xs[..|xs|] == xs;
  }

  /** Elements that tie keep their order. */
  lemma SortIsStable<T(!new)>(below: (T, T) -> bool, has: T -> bool, xs: seq<T>)
    requires Tie(below, has)
    ensures Those(has, Sort(below, xs), |Sort(below, xs)|) == Those(has, xs, |xs|)
  {
    SortFirstIsStable(below, has, xs, |xs|);
  }
}
