/** What `Array.prototype.sort` with a numeric comparison does: a stable sort, kept as insertion into a sorted list. */
module StableSort {
  predicate Sorted<T>(xs: seq<T>, key: T -> real) {
    forall i, j :: 0 <= i < j < |xs| ==> key(xs[i]) <= key(xs[j])
  }

  function IfKey<T>(x: T, key: T -> real, k: real): seq<T> {
    if key(x) == k then [x] else []
  }

  /** The elements with key `k`, in order. */
  function WithKey<T>(xs: seq<T>, key: T -> real, k: real): seq<T> {
    if xs == [] then [] else IfKey(xs[0], key, k) + WithKey(xs[1..], key, k)
  }

  function Insert<T>(x: T, xs: seq<T>, key: T -> real): seq<T> {
    if xs == [] || key(x) < key(xs[0]) then [x] + xs
    else [xs[0]] + Insert(x, xs[1..], key)
  }

  function SortBy<T>(xs: seq<T>, key: T -> real): seq<T> {
    if xs == [] then [] else Insert(xs[|xs| - 1], SortBy(xs[..|xs| - 1], key), key)
  }

  lemma {:induction false} InsertKeeps<T>(x: T, xs: seq<T>, key: T -> real)
    requires Sorted(xs, key)
    ensures Sorted(Insert(x, xs, key), key)
  {
    if !(xs == [] || key(x) < key(xs[0])) {
      InsertKeeps(x, xs[1..], key);
      InsertElements(x, xs[1..], key);
      var r := Insert(x, xs[1..], key);
      assert forall y <- r :: key(xs[0]) <= key(y);
      assert Insert(x, xs, key) == [xs[0]] + r;
      hide Insert;
    }
  }

  lemma {:induction false} InsertAdds<T>(x: T, xs: seq<T>, key: T -> real)
    ensures multiset(Insert(x, xs, key)) == multiset(xs) + multiset{x} && |Insert(x, xs, key)| == |xs| + 1
  {
    if !(xs == [] || key(x) < key(xs[0])) {
      InsertAdds(x, xs[1..], key);
      assert xs == [xs[0]] + xs[1..];
    }
  }

  lemma {:induction false} InsertKeepsOrder<T>(x: T, xs: seq<T>, key: T -> real, k: real)
    requires Sorted(xs, key)
    ensures WithKey(Insert(x, xs, key), key, k) == WithKey(xs + [x], key, k)
  {
    if xs == [] || key(x) < key(xs[0]) {
      WithKeyAppend(xs, [x], key, k);
      if k == key(x) {
        NoneWithKey(xs, key, k);
      }
      WithKeyAppend([x], xs, key, k);
      assert WithKey([x], key, k) == IfKey(x, key, k);
    } else {
      InsertKeepsOrder(x, xs[1..], key, k);
      WithKeyCons(xs[0], Insert(x, xs[1..], key), key, k);
      WithKeyCons(xs[0], xs[1..] + [x], key, k);
      assert [xs[0]] + (xs[1..] + [x]) == xs + [x];
      hide WithKey, IfKey;
    }
  }

  lemma WithKeyCons<T>(x: T, xs: seq<T>, key: T -> real, k: real)
    ensures WithKey([x] + xs, key, k) == IfKey(x, key, k) + WithKey(xs, key, k)
  {
    assert ([x] + xs)[1..] == xs;
    hide IfKey;
  }

  lemma {:induction false} InsertElements<T>(x: T, xs: seq<T>, key: T -> real)
    ensures forall y <- Insert(x, xs, key) :: y == x || y in xs
  {
    if !(xs == [] || key(x) < key(xs[0])) {
      InsertElements(x, xs[1..], key);
    }
  }

  lemma {:induction false} WithKeyAppend<T>(xs: seq<T>, ys: seq<T>, key: T -> real, k: real)
    ensures WithKey(xs + ys, key, k) == WithKey(xs, key, k) + WithKey(ys, key, k)
  {
    if xs == [] {
      assert WithKey(xs, key, k) == [];
      assert xs + ys == ys;
      hide WithKey;
    } else {
      var x, rest := xs[0], xs[1..];
      WithKeyAppend(rest, ys, key, k);
      WithKeyCons(x, rest + ys, key, k);
      assert WithKey(xs, key, k) == IfKey(x, key, k) + WithKey(rest, key, k);
      hide *;
      Associative([x], rest, ys);
      Associative(IfKey(x, key, k), WithKey(rest, key, k), WithKey(ys, key, k));
      assert [x] + rest == xs;
    }
  }

  lemma Associative<T>(a: seq<T>, b: seq<T>, c: seq<T>)
    ensures (a + b) + c == a + (b + c)
  {
  }

  lemma {:induction false} NoneWithKey<T>(xs: seq<T>, key: T -> real, k: real)
    requires Sorted(xs, key) && (xs != [] ==> k < key(xs[0]))
    ensures WithKey(xs, key, k) == []
  {
    if xs != [] {
      NoneWithKey(xs[1..], key, k);
    }
  }

  /** The result is sorted and holds the same elements. */
  lemma {:induction false} SortSorts<T>(xs: seq<T>, key: T -> real)
    ensures var r := SortBy(xs, key);
      && Sorted(r, key) && |r| == |xs| && multiset(r) == multiset(xs)
  {
    if xs != [] {
      var rest, x := xs[..|xs| - 1], xs[|xs| - 1];
      SortSorts(rest, key);
      InsertKeeps(x, SortBy(rest, key), key);
      InsertAdds(x, SortBy(rest, key), key);
      assert xs == rest + [x];
    }
  }

  lemma SortMembers<T>(xs: seq<T>, key: T -> real)
    ensures forall x :: x in SortBy(xs, key) <==> x in xs
  {
    SortSorts(xs, key);
    var r := SortBy(xs, key);
    hide SortBy, Sorted;
    assert forall x :: (x in r <==> x in multiset(r)) && (x in xs <==> x in multiset(xs));
  }

  /** Elements with equal keys stay in their order. */
  lemma {:induction false} SortIsStable<T>(xs: seq<T>, key: T -> real, k: real)
    ensures WithKey(SortBy(xs, key), key, k) == WithKey(xs, key, k)
  {
    if xs != [] {
      var rest, x := xs[..|xs| - 1], xs[|xs| - 1];
      SortIsStable(rest, key, k);
      SortSorts(rest, key);
      InsertKeepsOrder(x, SortBy(rest, key), key, k);
      assert xs == rest + [x];
      WithKeyAppend(SortBy(rest, key), [x], key, k);
      WithKeyAppend(rest, [x], key, k);
    }
  }

  /** Sorting a sorted list changes nothing. */
  lemma {:induction false} SortedIsFixed<T>(xs: seq<T>, key: T -> real)
    requires Sorted(xs, key)
    ensures SortBy(xs, key) == xs
  {
    if xs != [] {
      var rest, x := xs[..|xs| - 1], xs[|xs| - 1];
      SortedIsFixed(rest, key);
      InsertLast(x, rest, key);
      assert xs == rest + [x];
    }
  }

  lemma {:induction false} InsertLast<T>(x: T, xs: seq<T>, key: T -> real)
    requires forall y <- xs :: key(y) <= key(x)
    ensures Insert(x, xs, key) == xs + [x]
  {
    if xs != [] {
      InsertLast(x, xs[1..], key);
      assert xs == [xs[0]] + xs[1..];
    }
  }
}
