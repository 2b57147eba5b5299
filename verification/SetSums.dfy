/** Finite integer sums over a set, independent of the order its members are taken in. */
module SetSums {

  ghost function SumOver<T(!new)>(s: set<T>, f: T -> int): int {
    if s == {} then 0
    else
      var x :| x in s;
      f(x) + SumOver(s - {x}, f)
  }

  lemma {:induction false} SumRemove<T(!new)>(s: set<T>, f: T -> int, x: T)
    requires x in s
    ensures SumOver(s, f) == f(x) + SumOver(s - {x}, f)
  {
    var y :| y in s && SumOver(s, f) == f(y) + SumOver(s - {y}, f);
    if y != x {
      SumRemove(s - {y}, f, x);
      SumRemove(s - {x}, f, y);
      assert s - {y} - {x} == s - {x} - {y};
    }
  }

  lemma {:induction false} SumSame<T(!new)>(s: set<T>, f: T -> int, g: T -> int)
    requires forall x | x in s :: f(x) == g(x)
    ensures SumOver(s, f) == SumOver(s, g)
  {
    if s != {} {
      var x :| x in s;
      SumRemove(s, f, x);
      SumRemove(s, g, x);
      SumSame(s - {x}, f, g);
    }
  }

  lemma {:induction false} SumPlus<T(!new)>(s: set<T>, f: T -> int, g: T -> int, h: T -> int)
    requires forall x | x in s :: h(x) == f(x) + g(x)
    ensures SumOver(s, h) == SumOver(s, f) + SumOver(s, g)
  {
    if s != {} {
      var x :| x in s;
      SumRemove(s, f, x);
      SumRemove(s, g, x);
      SumRemove(s, h, x);
      SumPlus(s - {x}, f, g, h);
    }
  }

  lemma {:induction false} SumNone<T(!new)>(s: set<T>, f: T -> int)
    requires forall x | x in s :: f(x) == 0
    ensures SumOver(s, f) == 0
  {
    if s != {} {
      var x :| x in s;
      SumRemove(s, f, x);
      SumNone(s - {x}, f);
    }
  }

  /** A sum of non-negative terms is at least each of them, and zero only if all are. */
  lemma {:induction false} SumBounds<T(!new)>(s: set<T>, f: T -> int)
    requires forall x | x in s :: f(x) >= 0
    ensures SumOver(s, f) >= 0
    ensures forall x | x in s :: f(x) <= SumOver(s, f)
  {
    if s != {} {
      forall x | x in s ensures f(x) <= SumOver(s, f) && SumOver(s, f) >= 0 {
        SumRemove(s, f, x);
        SumBounds(s - {x}, f);
      }
      var x :| x in s;
      assert f(x) <= SumOver(s, f);
    }
  }

  /** Changing one term, possibly at a new member, changes the sum by the difference. */
  lemma SumChange<T(!new)>(s: set<T>, f: T -> int, g: T -> int, x: T)
    requires forall y | y in s && y != x :: f(y) == g(y)
    requires x !in s ==> f(x) == 0
    ensures SumOver(s + {x}, g) == SumOver(s, f) + g(x) - f(x)
  {
    SumRemove(s + {x}, g, x);
    assert s + {x} - {x} == s - {x};
    SumSame(s - {x}, f, g);
    if x in s {
      SumRemove(s, f, x);
    } else {
      assert s - {x} == s;
    }
  }

  /** Members with a zero term may be left out. */
  lemma {:induction false} SumWiden<T(!new)>(s: set<T>, t: set<T>, f: T -> int)
    requires s <= t && forall x | x in t && x !in s :: f(x) == 0
    ensures SumOver(t, f) == SumOver(s, f)
    decreases |t|
  {
    if x :| x in t && x !in s {
      SumRemove(t, f, x);
      SumWiden(s, t - {x}, f);
    } else {
      assert s == t;
    }
  }

  lemma {:induction false} SizeOfSubset<T>(a: set<T>, b: set<T>)
    requires a <= b
    ensures |a| <= |b|
  {
    if a != {} {
      var x :| x in a;
      SizeOfSubset(a - {x}, b - {x});
    }
  }
}
