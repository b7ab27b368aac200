/** Python's stable `sorted`, for any total preorder. */
module Sorting {
  import opened Common

  ghost predicate TotalPreorder<T(!new)>(le: (T, T) -> bool) {
    && (forall a, b :: le(a, b) || le(b, a))
    && (forall a, b, c :: le(a, b) && le(b, c) ==> le(a, c))
  }

  ghost predicate Ascending<T>(xs: seq<T>, le: (T, T) -> bool) {
    forall i, j :: 0 <= i < j < |xs| ==> le(xs[i], xs[j])
  }

  /** Places `x` before the first element it does not exceed. */
  function Insert<T>(x: T, xs: seq<T>, le: (T, T) -> bool): (ys: seq<T>)
    ensures multiset(ys) == multiset{x} + multiset(xs)
  {
    if xs == [] || le(x, xs[0]) then [x] + xs
    else
      assert xs == [xs[0]] + xs[1..];
      [xs[0]] + Insert(x, xs[1..], le)
  }

  function SortBy<T>(xs: seq<T>, le: (T, T) -> bool): (ys: seq<T>)
    ensures multiset(ys) == multiset(xs)
  {
    if xs == [] then []
    else
      assert xs == [xs[0]] + xs[1..];
      Insert(xs[0], SortBy(xs[1..], le), le)
  }

  lemma {:induction false} InsertAscending<T(!new)>(x: T, xs: seq<T>, le: (T, T) -> bool)
    requires TotalPreorder(le) && Ascending(xs, le)
    ensures Ascending(Insert(x, xs, le), le)
  {
    if xs != [] && !le(x, xs[0]) {
      InsertAscending(x, xs[1..], le);
      var tail := Insert(x, xs[1..], le);
      forall j | 0 <= j < |tail|
        ensures le(xs[0], tail[j])
      {
        assert tail[j] in multiset(tail);
        assert tail[j] == x || tail[j] in xs[1..];
      }
    }
  }

  lemma {:induction false} SortByAscending<T(!new)>(xs: seq<T>, le: (T, T) -> bool)
    requires TotalPreorder(le)
    ensures Ascending(SortBy(xs, le), le)
  {
    if xs != [] {
      SortByAscending(xs[1..], le);
      InsertAscending(xs[0], SortBy(xs[1..], le), le);
    }
  }

  function Tied<T>(le: (T, T) -> bool, v: T): T -> bool {
    (x: T) => le(x, v) && le(v, x)
  }

  lemma FilterFirst<T>(x: T, xs: seq<T>, p: T -> bool)
    ensures Filter([x] + xs, p) == (if p(x) then [x] else []) + Filter(xs, p)
  {
    assert ([x] + xs)[1..] == xs;
  }

  /** Stability: elements that compare equal to `v` keep their order. */
  lemma {:induction false} SortByStable<T(!new)>(xs: seq<T>, le: (T, T) -> bool, v: T)
    requires TotalPreorder(le)
    ensures Filter(SortBy(xs, le), Tied(le, v)) == Filter(xs, Tied(le, v))
  {
    if xs != [] {
      SortByStable(xs[1..], le, v);
      InsertStable(xs[0], SortBy(xs[1..], le), le, v);
    }
  }

  lemma {:induction false} InsertStable<T(!new)>(x: T, xs: seq<T>, le: (T, T) -> bool, v: T)
    requires TotalPreorder(le)
    ensures var tied := Tied(le, v);
            Filter(Insert(x, xs, le), tied) == (if tied(x) then [x] else []) + Filter(xs, tied)
  {
    hide Filter;
    var tied := Tied(le, v);
    if xs == [] || le(x, xs[0]) {
      FilterFirst(x, xs, tied);
    } else {
      InsertStable(x, xs[1..], le, v);
      FilterFirst(xs[0], Insert(x, xs[1..], le), tied);
      FilterFirst(xs[0], xs[1..], tied);
      assert xs == [xs[0]] + xs[1..];
      assert !tied(x) || !tied(xs[0]);
    }
  }

  lemma SameElements<T>(xs: seq<T>, ys: seq<T>)
    requires multiset(xs) == multiset(ys)
    ensures ToSet(xs) == ToSet(ys)
    ensures |xs| == |ys|
  {
    assert forall x :: x in xs <==> x in multiset(xs);
    assert |multiset(xs)| == |xs| && |multiset(ys)| == |ys|;
  }

  lemma {:induction false} SortByKeepsDistinct<T>(xs: seq<T>, le: (T, T) -> bool)
    requires Distinct(xs)
    ensures Distinct(SortBy(xs, le))
    ensures ToSet(SortBy(xs, le)) == ToSet(xs)
  {
    var ys := SortBy(xs, le);
    SameElements(xs, ys);
    DistinctLength(xs);
    DistinctFromLength(ys);
  }

  lemma {:induction false} DistinctFromLength<T>(xs: seq<T>)
    ensures |ToSet(xs)| <= |xs|
    ensures |ToSet(xs)| == |xs| ==> Distinct(xs)
  {
    if xs != [] {
      DistinctFromLength(xs[1..]);
      if xs[0] in xs[1..] {
        assert ToSet(xs) == ToSet(xs[1..]);
      } else {
        assert ToSet(xs) == {xs[0]} + ToSet(xs[1..]);
      }
    }
  }

  /** The order of Python strings: by code point, a prefix first. */
  predicate StringLe(a: string, b: string) {
    if a == [] then true
    else if b == [] then false
    else if a[0] == b[0] then StringLe(a[1..], b[1..])
    else a[0] < b[0]
  }

  lemma {:induction false} StringLeTotal(a: string, b: string)
    ensures StringLe(a, b) || StringLe(b, a)
    ensures StringLe(a, b) && StringLe(b, a) ==> a == b
  {
    if a != [] && b != [] && a[0] == b[0] {
      StringLeTotal(a[1..], b[1..]);
      assert a == [a[0]] + a[1..] && b == [b[0]] + b[1..];
    }
  }

  lemma {:induction false} StringLeTransitive(a: string, b: string, c: string)
    requires StringLe(a, b) && StringLe(b, c)
    ensures StringLe(a, c)
  {
    if a != [] && b != [] && c != [] && a[0] == b[0] == c[0] {
      StringLeTransitive(a[1..], b[1..], c[1..]);
    }
  }

  lemma SamePrefix<T>(a: seq<T>, b: seq<T>, k: nat)
    requires k <= |a| && k <= |b| && a[..k] == b[..k]
    ensures k > 0 ==> a[0] == b[0]
  {
    if k > 0 {
      assert a[0] == a[..k][0] && b[0] == b[..k][0];
    }
  }

  /** The first difference decides, and a prefix comes first. */
  ghost predicate DecidedAt(a: string, b: string, k: nat) {
    k <= |a| && k <= |b| && a[..k] == b[..k] && (k == |a| || (k < |b| && a[k] < b[k]))
  }

  lemma DecidedLater(a: string, b: string, k: nat)
    requires a != [] && b != [] && a[0] == b[0]
    ensures DecidedAt(a[1..], b[1..], k) <==> DecidedAt(a, b, k + 1)
  {
    if k < |a| && k < |b| {
      assert a[..k + 1] == [a[0]] + a[1..][..k] && b[..k + 1] == [b[0]] + b[1..][..k];
      assert a[1..][..k] == a[..k + 1][1..] && b[1..][..k] == b[..k + 1][1..];
    }
  }

  lemma {:induction false} StringLeMeaning(a: string, b: string)
    ensures StringLe(a, b) <==> exists k: nat :: DecidedAt(a, b, k)
  {
    if a != [] && b != [] && a[0] == b[0] {
      StringLeMeaning(a[1..], b[1..]);
      if k: nat :| DecidedAt(a[1..], b[1..], k) {
        DecidedLater(a, b, k);
      }
      if k: nat :| DecidedAt(a, b, k) {
        assert k > 0;
        DecidedLater(a, b, k - 1);
      }
    } else if StringLe(a, b) {
      assert DecidedAt(a, b, 0);
    } else if k: nat :| DecidedAt(a, b, k) {
      SamePrefix(a, b, k);
    }
  }

  lemma StringLePreorder()
    ensures TotalPreorder(StringLe)
  {
    forall a, b ensures StringLe(a, b) || StringLe(b, a) {
      StringLeTotal(a, b);
    }
    forall a, b, c | StringLe(a, b) && StringLe(b, c) ensures StringLe(a, c) {
      StringLeTransitive(a, b, c);
    }
  }

  /** An order without ties has exactly one ascending listing of a set. */
  lemma {:induction false} AscendingWithoutTies<T>(xs: seq<T>, ys: seq<T>, le: (T, T) -> bool)
    requires Distinct(xs) && Distinct(ys) && ToSet(xs) == ToSet(ys)
    requires Ascending(xs, le) && Ascending(ys, le)
    requires forall a, b :: a in xs && b in xs && le(a, b) && le(b, a) ==> a == b
    ensures xs == ys
  {
    DistinctLength(xs);
    DistinctLength(ys);
    if xs != [] {
      assert xs[0] in ToSet(ys) && ys[0] in ToSet(xs);
      assert xs[0] == ys[0];
      assert ToSet(xs[1..]) == ToSet(xs) - {xs[0]};
      assert ToSet(ys[1..]) == ToSet(ys) - {ys[0]};
      AscendingWithoutTies(xs[1..], ys[1..], le);
      assert xs == [xs[0]] + xs[1..] && ys == [ys[0]] + ys[1..];
    }
  }

  /** Python's sorted() over a set of strings. */
  method SortedStrings(s: set<string>) returns (xs: seq<string>)
    ensures Distinct(xs) && ToSet(xs) == s
    ensures Ascending(xs, StringLe)
  {
    var listed := Enumerate(s);
    xs := SortBy(listed, StringLe);
    StringLePreorder();
    SortByAscending(listed, StringLe);
    SortByKeepsDistinct(listed, StringLe);
  }
}
