/** Sums of an amount over the members of a finite set. */
module Sums {

  ghost function Sum<T>(s: set<T>, amount: T -> real): real {
    if s == {} then 0.0
    else
      var x :| x in s;
      amount(x) + Sum(s - {x}, amount)
  }

  /** The sum does not depend on which member is taken first. */
  lemma {:induction false} SumTake<T>(s: set<T>, x: T, amount: T -> real)
    requires x in s
    ensures Sum(s, amount) == amount(x) + Sum(s - {x}, amount)
    decreases |s|
  {
    var y :| y in s && Sum(s, amount) == amount(y) + Sum(s - {y}, amount);
    if y != x {
      SumTake(s - {y}, x, amount);
      SumTake(s - {x}, y, amount);
      assert s - {y} - {x} == s - {x} - {y};
    }
  }

  lemma SumAdd<T>(s: set<T>, x: T, amount: T -> real)
    requires x !in s
    ensures Sum(s + {x}, amount) == Sum(s, amount) + amount(x)
  {
    SumTake(s + {x}, x, amount);
    assert s + {x} - {x} == s;
  }

  lemma {:induction false} SumMonotone<T>(s: set<T>, t: set<T>, amount: T -> real)
    requires s <= t
    requires forall x :: x in t ==> amount(x) >= 0.0
    ensures Sum(s, amount) <= Sum(t, amount)
    decreases |t|
  {
    if t != {} {
      var x :| x in t;
      SumTake(t, x, amount);
      if x in s {
        SumTake(s, x, amount);
        SumMonotone(s - {x}, t - {x}, amount);
      } else {
        SumMonotone(s, t - {x}, amount);
      }
    }
  }

  /** Members without an amount do not count. */
  lemma {:induction false} SumRestrict<T>(s: set<T>, holders: set<T>, amount: T -> real)
    requires forall x :: x in s && x !in holders ==> amount(x) == 0.0
    ensures Sum(s, amount) == Sum(s * holders, amount)
    decreases |s|
  {
    if s != {} {
      var x :| x in s;
      SumTake(s, x, amount);
      SumRestrict(s - {x}, holders, amount);
      if x in holders {
        SumTake(s * holders, x, amount);
        assert s * holders - {x} == (s - {x}) * holders;
      } else {
        assert s * holders == (s - {x}) * holders;
      }
    }
  }

  lemma {:induction false} SumEqual<T>(s: set<T>, amount: T -> real, each: real)
    requires forall x :: x in s ==> amount(x) == each
    ensures Sum(s, amount) == |s| as real * each
    decreases |s|
  {
    if s != {} {
      var x :| x in s;
      SumTake(s, x, amount);
      SumEqual(s - {x}, amount, each);
      assert |s| as real == |s - {x}| as real + 1.0;
    }
  }

  lemma {:induction false} SumPointwise<T>(s: set<T>, a: T -> real, b: T -> real)
    requires forall x :: x in s ==> a(x) == b(x)
    ensures Sum(s, a) == Sum(s, b)
    decreases |s|
  {
    if s != {} {
      var x :| x in s;
      SumTake(s, x, a);
      SumTake(s, x, b);
      SumPointwise(s - {x}, a, b);
    }
  }
}
