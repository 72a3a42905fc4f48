/** Finite sums over sets, and how a sum changes when one term does. */
module Sums {

  ghost function SumOver<T>(s: set<T>, f: T -> int): int {
    if s == {} then 0 else var x :| x in s; f(x) + SumOver(s - {x}, f)
  }

  // The sum does not depend on the order in which elements are picked.
  lemma {:induction false} SumRemove<T>(s: set<T>, f: T -> int, x: T)
    requires x in s
    ensures SumOver(s, f) == f(x) + SumOver(s - {x}, f)
    decreases |s|
  {
    var y :| y in s && SumOver(s, f) == f(y) + SumOver(s - {y}, f);
    if y != x {
      SumRemove(s - {y}, f, x);
      SumRemove(s - {x}, f, y);
      assert s - {y} - {x} == s - {x} - {y};
    }
  }

  lemma {:induction false} SumSame<T>(s: set<T>, f: T -> int, g: T -> int)
    requires forall x | x in s :: f(x) == g(x)
    ensures SumOver(s, f) == SumOver(s, g)
    decreases |s|
  {
    if s != {} {
      var x :| x in s;
      SumRemove(s, f, x);
      SumRemove(s, g, x);
      SumSame(s - {x}, f, g);
    }
  }

  // Two sums whose terms agree everywhere but at x, where the second set certainly has x.
  lemma SumChange<T>(s: set<T>, f: T -> int, g: T -> int, x: T)
    requires forall y | y in s && y != x :: f(y) == g(y)
    ensures SumOver(s + {x}, g) == SumOver(s, f) + g(x) - (if x in s then f(x) else 0)
  {
    SumRemove(s + {x}, g, x);
    assert s + {x} - {x} == s - {x};
    SumSame(s - {x}, f, g);
    if x in s {
      SumRemove(s, f, x);
    } else {
      assert s - {x} == s;
    }
  }
}
