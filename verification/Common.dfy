/** Small types and helpers shared by the modules of this project. */
module Common {

  datatype Option<+T> = None | Some(value: T)
  {
    function GetOr(default: T): T {
      if Some? then value else default
    }
  }

  /** A Python dict: values by key, and the keys in insertion order. */
  datatype Dict<K(==, !new), V> = Dict(keys: seq<K>, at: map<K, V>)
  {
    ghost predicate Valid() {
      && (forall k :: k in keys <==> k in at)
      && Distinct(keys)
    }

    /** Overwriting a key keeps its position; a new key goes last. */
    function Put(k: K, v: V): (d: Dict<K, V>)
      requires Valid()
      ensures d.Valid()
      ensures d.at == at[k := v]
      ensures keys <= d.keys
    {
      if k in at then Dict(keys, at[k := v]) else Dict(keys + [k], at[k := v])
    }
  }

  ghost predicate Distinct<T>(xs: seq<T>) {
    forall i, j :: 0 <= i < j < |xs| ==> xs[i] != xs[j]
  }

  function ToSet<T>(xs: seq<T>): set<T> {
    set x | x in xs
  }

  /** The elements of `xs` that satisfy `p`, in order. */
  function Filter<T>(xs: seq<T>, p: T -> bool): (ys: seq<T>)
    ensures forall x :: x in ys ==> x in xs && p(x)
    ensures forall x :: x in xs && p(x) ==> x in ys
  {
    if xs == [] then []
    else (if p(xs[0]) then [xs[0]] else []) + Filter(xs[1..], p)
  }

  /** Increasing positions in `xs`: those of the elements that satisfy `p`. */
  ghost predicate ArePicks<T>(xs: seq<T>, p: T -> bool, picks: seq<nat>) {
    && (forall k, m :: 0 <= k < m < |picks| ==> picks[k] < picks[m])
    && (forall i: nat :: i in picks <==> i < |xs| && p(xs[i]))
  }

  /** Filtering keeps each such element where it stands, duplicates included. */
  lemma {:induction false} FilterPicks<T>(xs: seq<T>, p: T -> bool) returns (picks: seq<nat>)
    ensures ArePicks(xs, p, picks)
    ensures |Filter(xs, p)| == |picks|
    ensures forall k :: 0 <= k < |picks| ==> picks[k] < |xs| && Filter(xs, p)[k] == xs[picks[k]]
  {
    hide Filter, ArePicks;
    FilterStep(xs, p);
    if xs == [] {
      picks := [];
      NoPicks(p);
    } else {
      var rest := FilterPicks(xs[1..], p);
      var later := seq(|rest|, k requires 0 <= k < |rest| => rest[k] + 1);
      PicksLater(xs, p, rest, later);
      ElementsLater(xs, Filter(xs[1..], p), rest, later);
      picks := (if p(xs[0]) then [0] else []) + later;
    }
  }

  /** What stands in this order and satisfies `p` comes through in it. */
  lemma FilterKeepsOrder<T>(xs: seq<T>, p: T -> bool, i: nat, j: nat) returns (k: nat, m: nat)
    requires i < j < |xs| && p(xs[i]) && p(xs[j])
    ensures k < m < |Filter(xs, p)| && Filter(xs, p)[k] == xs[i] && Filter(xs, p)[m] == xs[j]
  {
    hide Filter;
    var picks := FilterPicks(xs, p);
    assert i in picks && j in picks;
    k :| k < |picks| && picks[k] == i;
    m :| m < |picks| && picks[m] == j;
  }

  lemma FilterComesInOrder<T>(xs: seq<T>, p: T -> bool, k: nat, m: nat) returns (i: nat, j: nat)
    requires k < m < |Filter(xs, p)|
    ensures i < j < |xs| && xs[i] == Filter(xs, p)[k] && xs[j] == Filter(xs, p)[m]
  {
    hide Filter;
    var picks := FilterPicks(xs, p);
    i, j := picks[k], picks[m];
  }

  lemma NoPicks<T>(p: T -> bool)
    ensures ArePicks([], p, [])
  {
  }

  lemma FilterStep<T>(xs: seq<T>, p: T -> bool)
    ensures Filter(xs, p) ==
      if xs == [] then [] else (if p(xs[0]) then [xs[0]] else []) + Filter(xs[1..], p)
  {
  }

  lemma {:induction false} FilterConcat<T>(xs: seq<T>, ys: seq<T>, p: T -> bool)
    ensures Filter(xs + ys, p) == Filter(xs, p) + Filter(ys, p)
  {
    hide Filter;
    FilterStep(xs, p);
    if xs == [] {
      assert xs + ys == ys;
    } else {
      FilterConcat(xs[1..], ys, p);
      FilterStep(xs + ys, p);
      assert (xs + ys)[0] == xs[0] && (xs + ys)[1..] == xs[1..] + ys;
      Associates(if p(xs[0]) then [xs[0]] else [], Filter(xs[1..], p), Filter(ys, p));
    }
  }

  lemma Associates<T>(a: seq<T>, b: seq<T>, c: seq<T>)
    ensures a + (b + c) == (a + b) + c
  {
  }

  lemma FilterLast<T>(xs: seq<T>, last: T, p: T -> bool)
    ensures Filter(xs + [last], p) == Filter(xs, p) + if p(last) then [last] else []
  {
    hide Filter;
    FilterConcat(xs, [last], p);
    FilterStep([last], p);
    assert [last][1..] == [];
    FilterStep([last][1..], p);
  }

  lemma {:induction false} FilterAll<T>(xs: seq<T>, p: T -> bool)
    requires forall x :: x in xs ==> p(x)
    ensures Filter(xs, p) == xs
  {
    hide Filter;
    FilterStep(xs, p);
    if xs != [] {
      FilterAll(xs[1..], p);
    }
  }

  lemma ElementsLater<T>(xs: seq<T>, kept: seq<T>, rest: seq<nat>, later: seq<nat>)
    requires xs != [] && |kept| == |rest| == |later|
    requires forall k :: 0 <= k < |rest| ==> rest[k] < |xs| - 1 && kept[k] == xs[1..][rest[k]]
    requires forall k :: 0 <= k < |rest| ==> later[k] == rest[k] + 1
    ensures forall k :: 0 <= k < |later| ==> later[k] < |xs| && kept[k] == xs[later[k]]
  {
  }

  lemma PicksLater<T>(xs: seq<T>, p: T -> bool, rest: seq<nat>, later: seq<nat>)
    requires xs != [] && ArePicks(xs[1..], p, rest)
    requires |later| == |rest| && forall k :: 0 <= k < |rest| ==> later[k] == rest[k] + 1
    ensures ArePicks(xs, p, (if p(xs[0]) then [0] else []) + later)
  {
    forall i: nat ensures i in later <==> 0 < i < |xs| && p(xs[i]) {
      if i in later {
        var k :| 0 <= k < |later| && later[k] == i;
        assert rest[k] in rest;
      }
      if 0 < i < |xs| && p(xs[i]) {
        var before: nat := i - 1;
        assert xs[1..][before] == xs[i] && before in rest;
        var k :| 0 <= k < |rest| && rest[k] == before;
        assert later[k] == i;
      }
    }
  }

  lemma {:induction false} FilterKeepsDistinct<T>(xs: seq<T>, p: T -> bool)
    requires Distinct(xs)
    ensures Distinct(Filter(xs, p))
  {
    if xs != [] {
      FilterKeepsDistinct(xs[1..], p);
    }
  }

  lemma {:induction false} DistinctLength<T>(xs: seq<T>)
    requires Distinct(xs)
    ensures |ToSet(xs)| == |xs|
  {
    if xs != [] {
      DistinctLength(xs[1..]);
      assert ToSet(xs) == {xs[0]} + ToSet(xs[1..]);
    }
  }

  /** Python's list(s): the elements of a set in some order. */
  method Enumerate<T(==)>(s: set<T>) returns (xs: seq<T>)
    ensures ToSet(xs) == s
    ensures Distinct(xs)
  {
    xs := [];
    var rest := s;
    while rest != {}
      invariant ToSet(xs) == s - rest
      invariant rest <= s
      invariant Distinct(xs)
      decreases |rest|
    {
      var x :| x in rest;
      assert x !in ToSet(xs);
      rest := rest - {x};
      assert ToSet(xs + [x]) == ToSet(xs) + {x};
      xs := xs + [x];
    }
  }
}
