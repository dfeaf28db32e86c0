/** Options, and the JavaScript string and array operations the modelled files call. */
module Strings {

  datatype Option<+T> = None | Some(value: T) {
    function GetOr(default: T): T {
      match this
      case Some(v) => v
      case None => default
    }
  }

  /** JavaScript truthiness of a `string | undefined`. */
  predicate Truthy(t: Option<string>) {
    t.Some? && t.value != ""
  }

  ghost predicate Distinct<T>(xs: seq<T>) {
    forall i, j :: 0 <= i < j < |xs| ==> xs[i] != xs[j]
  }

  // ----- substrings ------------------------------------------------------

  predicate StartsWith(s: string, prefix: string) {
    |prefix| <= |s| && s[..|prefix|] == prefix
  }

  predicate OccursAt(s: string, part: string, i: nat) {
    i + |part| <= |s| && s[i..i + |part|] == part
  }

  /** `s.includes(part)` */
  predicate Contains(s: string, part: string) {
    exists i: nat :: i <= |s| && OccursAt(s, part, i)
  }

  lemma ContainsMiddle(before: string, part: string, after: string)
    ensures Contains(before + part + after, part)
  {
    assert OccursAt(before + part + after, part, |before|);
  }

  predicate Without(s: string, c: char) {
    c !in s
  }

  // ----- split and join --------------------------------------------------

  /** `s.split(c)` for a one-character separator. */
  function Split(s: string, c: char): (parts: seq<string>)
    ensures |parts| >= 1
  {
    if s == "" then [""]
    else
      var rest := Split(s[1..], c);
      if s[0] == c then [""] + rest else [[s[0]] + rest[0]] + rest[1..]
  }

  /** `parts.join(c)` */
  function Join(parts: seq<string>, c: char): string {
    if |parts| == 0 then ""
    else if |parts| == 1 then parts[0]
    else parts[0] + [c] + Join(parts[1..], c)
  }

  lemma {:induction false} SplitPlain(s: string, c: char)
    requires Without(s, c)
    ensures Split(s, c) == [s]
  {
    if s != "" {
      SplitPlain(s[1..], c);
      assert s == [s[0]] + s[1..];
    }
  }

  lemma {:induction false} SplitAtSeparator(s: string, c: char, t: string)
    requires Without(s, c)
    ensures Split(s + [c] + t, c) == [s] + Split(t, c)
  {
    if s == "" {
      assert s + [c] + t == [c] + t;
    } else {
      SplitAtSeparator(s[1..], c, t);
      assert (s + [c] + t)[1..] == s[1..] + [c] + t;
      assert s == [s[0]] + s[1..];
    }
  }

  lemma {:induction false} SplitJoin(parts: seq<string>, c: char)
    requires |parts| >= 1
    requires forall p <- parts :: Without(p, c)
    ensures Split(Join(parts, c), c) == parts
  {
    if |parts| == 1 {
      SplitPlain(parts[0], c);
    } else {
      SplitJoin(parts[1..], c);
      SplitAtSeparator(parts[0], c, Join(parts[1..], c));
    }
  }

  lemma {:induction false} SplitLast(s: string, c: char, t: string)
    requires Without(t, c)
    ensures Split(s + [c] + t, c) == Split(s, c) + [t]
  {
    if s == "" {
      assert s + [c] + t == [c] + t;
      SplitPlain(t, c);
    } else {
      SplitLast(s[1..], c, t);
      assert (s + [c] + t)[1..] == s[1..] + [c] + t;
    }
  }

  lemma {:induction false} SplitPiecesPlain(s: string, c: char)
    ensures forall p <- Split(s, c) :: Without(p, c) && forall d <- p :: d in s
  {
    if s != "" {
      SplitPiecesPlain(s[1..], c);
      var rest := Split(s[1..], c);
      assert rest[0] in rest;
      forall p <- Split(s, c) ensures Without(p, c) && forall d <- p :: d in s {
        if p !in rest && p != "" {
          assert p == [s[0]] + rest[0] && s[0] != c;
        }
      }
    }
  }

  lemma CutOnce(a: string, x: string, b: string, y: string, c: char)
    requires Without(a, c) && Without(b, c)
    requires a + [c] + x == b + [c] + y
    ensures a == b && x == y
  {
    SplitAtSeparator(a, c, x);
    SplitAtSeparator(b, c, y);
    assert a == Split(a + [c] + x, c)[0] == b;
    assert x == (a + [c] + x)[|a| + 1..] && y == (b + [c] + y)[|b| + 1..];
  }

  // ----- sort ------------------------------------------------------------

  /** Order used by `Array.prototype.sort` on strings: code unit by code unit. */
  predicate Leq(a: string, b: string) {
    a == "" || (b != "" && (a[0] < b[0] || (a[0] == b[0] && Leq(a[1..], b[1..]))))
  }

  lemma {:induction false} LeqTotal(a: string, b: string)
    ensures Leq(a, b) || Leq(b, a)
    ensures Leq(a, b) && Leq(b, a) ==> a == b
  {
    if a != "" && b != "" && a[0] == b[0] {
      LeqTotal(a[1..], b[1..]);
    }
  }

  lemma {:induction false} LeqTransitive(a: string, b: string, c: string)
    requires Leq(a, b) && Leq(b, c)
    ensures Leq(a, c)
  {
    if a != "" && a[0] == b[0] == c[0] {
      LeqTransitive(a[1..], b[1..], c[1..]);
    }
  }

  function Insert(x: string, xs: seq<string>): seq<string> {
    if xs == [] then [x]
    else if Leq(x, xs[0]) then [x] + xs
    else [xs[0]] + Insert(x, xs[1..])
  }

  /** `[...xs].sort()` */
  function Sort(xs: seq<string>): (sorted: seq<string>) {
    if xs == [] then [] else Insert(xs[0], Sort(xs[1..]))
  }

  ghost predicate Sorted(xs: seq<string>) {
    forall i, j :: 0 <= i < j < |xs| ==> Leq(xs[i], xs[j])
  }

  lemma {:induction false} InsertSorts(x: string, xs: seq<string>)
    requires Sorted(xs)
    ensures Sorted(Insert(x, xs))
    ensures multiset(Insert(x, xs)) == multiset{x} + multiset(xs)
  {
    if xs != [] {
      assert xs == [xs[0]] + xs[1..];
      if Leq(x, xs[0]) {
        forall j | 0 <= j < |xs| ensures Leq(x, xs[j]) {
          if j > 0 { LeqTransitive(x, xs[0], xs[j]); }
        }
      } else {
        InsertSorts(x, xs[1..]);
        LeqTotal(x, xs[0]);
        var tail := Insert(x, xs[1..]);
        forall j | 0 <= j < |tail| ensures Leq(xs[0], tail[j]) {
          assert tail[j] in multiset(tail);
        }
      }
    }
  }

  lemma {:induction false} SortSorts(xs: seq<string>)
    ensures Sorted(Sort(xs)) && multiset(Sort(xs)) == multiset(xs)
  {
    if xs != [] {
      assert xs == [xs[0]] + xs[1..];
      SortSorts(xs[1..]);
      InsertSorts(xs[0], Sort(xs[1..]));
    }
  }

  lemma SortedLeast(xs: seq<string>, y: string)
    requires Sorted(xs) && |xs| > 0 && y in multiset(xs)
    ensures Leq(xs[0], y)
  {
    LeqTotal(xs[0], xs[0]);
    var i :| 0 <= i < |xs| && xs[i] == y;
  }

  lemma TailMultiset<T>(xs: seq<T>)
    requires |xs| > 0
    ensures multiset(xs[1..]) == multiset(xs) - multiset{xs[0]}
  {
    assert xs == [xs[0]] + xs[1..];
  }

  lemma {:induction false} SortedUnique(xs: seq<string>, ys: seq<string>)
    requires Sorted(xs) && Sorted(ys) && multiset(xs) == multiset(ys)
    ensures xs == ys
  {
    assert |xs| == |multiset(xs)| == |multiset(ys)| == |ys|;
    if xs != [] {
      SortedLeast(xs, ys[0]);
      SortedLeast(ys, xs[0]);
      LeqTotal(xs[0], ys[0]);
      TailMultiset(xs);
      TailMultiset(ys);
      SortedUnique(xs[1..], ys[1..]);
      assert xs == [xs[0]] + xs[1..] && ys == [ys[0]] + ys[1..];
    }
  }

  /** Sorting forgets the order of its input and nothing else. */
  lemma {:induction false} SortCanonical(xs: seq<string>, ys: seq<string>)
    ensures Sort(xs) == Sort(ys) <==> multiset(xs) == multiset(ys)
  {
    SortSorts(xs);
    SortSorts(ys);
    if multiset(xs) == multiset(ys) {
      SortedUnique(Sort(xs), Sort(ys));
    }
  }
}
