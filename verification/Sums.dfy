/** Sums over finite sets. */
module Sums {

  ghost function Sum<T(!new)>(s: set<T>, f: T -> nat): nat {
    if s == {} then 0
    else
      var x :| x in s;
      f(x) + Sum(s - {x}, f)
  }

  lemma {:induction false} SumAdd<T(!new)>(s: set<T>, x: T, f: T -> nat)
    requires x !in s
    ensures Sum(s + {x}, f) == Sum(s, f) + f(x)
    decreases |s|
  {
    var t := s + {x};
    var y :| y in t && Sum(t, f) == f(y) + Sum(t - {y}, f);
    if y == x {
      assert t - {y} == s;
    } else {
      SumAdd(s - {y}, x, f);
      assert t - {y} == s - {y} + {x};
      SumAdd(s - {y}, y, f);
      assert s - {y} + {y} == s;
    }
  }

  lemma {:induction false} SumUnion<T(!new)>(s: set<T>, t: set<T>, f: T -> nat)
    requires s !! t
    ensures Sum(s + t, f) == Sum(s, f) + Sum(t, f)
    decreases |t|
  {
    hide Sum;
    if t == {} {
      assert s + t == s;
      SumZero(t, f);
    } else {
      var x :| x in t;
      var rest := t - {x};
      SumUnion(s, rest, f);
      SumAdd(s + rest, x, f);
      SumAdd(rest, x, f);
      assert s + rest + {x} == s + t && rest + {x} == t;
    }
  }

  lemma {:induction false} SumSame<T(!new)>(s: set<T>, f: T -> nat, g: T -> nat)
    requires forall x | x in s :: f(x) == g(x)
    ensures Sum(s, f) == Sum(s, g)
    decreases |s|
  {
    if s != {} {
      var x :| x in s;
      SumSame(s - {x}, f, g);
      SumAdd(s - {x}, x, f);
      SumAdd(s - {x}, x, g);
      assert s - {x} + {x} == s;
    }
  }

  lemma {:induction false} SumZero<T(!new)>(s: set<T>, f: T -> nat)
    requires forall x | x in s :: f(x) == 0
    ensures Sum(s, f) == 0
    decreases |s|
  {
    if s != {} {
      var x :| x in s && Sum(s, f) == f(x) + Sum(s - {x}, f);
      SumZero(s - {x}, f);
    }
  }

  /** One more at one place is one more in all. */
  lemma {:induction false} SumBumped<T(!new)>(s: set<T>, f: T -> nat, g: T -> nat, x: T)
    requires x in s && f(x) == g(x) + 1
    requires forall y | y in s && y != x :: f(y) == g(y)
    ensures Sum(s, f) == Sum(s, g) + 1
  {
    var rest := s - {x};
    SumSame(rest, f, g);
    SumAdd(rest, x, f);
    SumAdd(rest, x, g);
    assert rest + {x} == s;
  }
}
