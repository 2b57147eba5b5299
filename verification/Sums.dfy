/** Finite sums of reals over an initial segment of the integers. */
module Sums {
  import opened RealAlgebra

  ghost function Sum(n: nat, f: int -> real): real {
    if n == 0 then 0.0 else Sum(n - 1, f) + f(n - 1)
  }

  // The term functions used throughout. Each is total; the guards make it
  // so outside its sequence.

  ghost function At(s: seq<real>): int -> real {
    i => if 0 <= i < |s| then s[i] else 0.0
  }

  ghost function Key(s: seq<int>): int -> int {
    i => if 0 <= i < |s| then s[i] else -1
  }

  /** The weight of item i if its key is c, else nothing. */
  ghost function Keyed(key: int -> int, w: int -> real, c: int): int -> real {
    i => if key(i) == c then w(i) else 0.0
  }

  lemma {:induction false} SumCongruence(n: nat, f: int -> real, g: int -> real)
    requires forall i | 0 <= i < n :: f(i) == g(i)
    ensures Sum(n, f) == Sum(n, g)
  {
    if n > 0 {
      SumCongruence(n - 1, f, g);
    }
  }

  lemma {:induction false} SumMonotone(n: nat, f: int -> real, g: int -> real)
    requires forall i | 0 <= i < n :: f(i) <= g(i)
    ensures Sum(n, f) <= Sum(n, g)
  {
    if n > 0 {
      SumMonotone(n - 1, f, g);
    }
  }

  lemma {:induction false} SumZero(n: nat, f: int -> real)
    requires forall i | 0 <= i < n :: f(i) == 0.0
    ensures Sum(n, f) == 0.0
  {
    if n > 0 {
      SumZero(n - 1, f);
    }
  }

  lemma {:induction false} SumNonNegative(n: nat, f: int -> real)
    requires forall i | 0 <= i < n :: f(i) >= 0.0
    ensures Sum(n, f) >= 0.0
  {
    if n > 0 {
      SumNonNegative(n - 1, f);
    }
  }

  lemma {:induction false} SumAdd(n: nat, f: int -> real, g: int -> real, h: int -> real)
    requires forall i | 0 <= i < n :: h(i) == f(i) + g(i)
    ensures Sum(n, h) == Sum(n, f) + Sum(n, g)
  {
    if n > 0 {
      SumAdd(n - 1, f, g, h);
    }
  }

  lemma {:induction false} SumScale(n: nat, f: int -> real, g: int -> real, k: real)
    requires forall i | 0 <= i < n :: g(i) == Times(k, f(i))
    ensures Sum(n, g) == Times(k, Sum(n, f))
  {
    if n > 0 {
      SumScale(n - 1, f, g, k);
    }
  }

  lemma {:induction false} SumMix(n: nat, f: int -> real, g: int -> real, h: int -> real, p: real, r: real)
    requires forall i | 0 <= i < n :: h(i) == Mix(p, f(i), r, g(i))
    ensures Sum(n, h) == Mix(p, Sum(n, f), r, Sum(n, g))
  {
    if n > 0 {
      SumMix(n - 1, f, g, h, p, r);
      Distribute(p, Sum(n - 1, f), f(n - 1));
      Distribute(r, Sum(n - 1, g), g(n - 1));
    }
  }

  lemma Distribute(a: real, b: real, c: real)
    ensures a * (b + c) == a * b + a * c
  {
  }

  /** Changing the term at x alone changes the sum by the same amount. */
  lemma {:induction false} SumUpdate(n: nat, f: int -> real, g: int -> real, x: int)
    requires 0 <= x < n
    requires forall i | 0 <= i < n && i != x :: f(i) == g(i)
    ensures Sum(n, g) == Sum(n, f) + g(x) - f(x)
  {
    if x == n - 1 {
      SumCongruence(n - 1, f, g);
    } else {
      SumUpdate(n - 1, f, g, x);
    }
  }

  lemma SumSingle(n: nat, f: int -> real, x: int)
    requires 0 <= x < n
    requires forall i | 0 <= i < n && i != x :: f(i) == 0.0
    ensures Sum(n, f) == f(x)
  {
    var zero := (i: int) => 0.0;
    SumZero(n, zero);
    SumUpdate(n, zero, f, x);
  }

  /** Adding zero terms at the end changes nothing. */
  lemma {:induction false} SumExtend(n: nat, m: nat, f: int -> real)
    requires n <= m
    requires forall i | n <= i < m :: f(i) == 0.0
    ensures Sum(m, f) == Sum(n, f)
    decreases m
  {
    if n < m {
      SumExtend(n, m - 1, f);
    }
  }

  /** Items summed group by group, over every key that occurs. */
  lemma {:induction false} SumPartition(K: nat, N: nat, key: int -> int, v: int -> real, grouped: int -> real)
    requires forall j | 0 <= j < N :: 0 <= key(j) < K || v(j) == 0.0
    requires forall s | 0 <= s < K :: grouped(s) == Sum(N, Keyed(key, v, s))
    ensures Sum(K, grouped) == Sum(N, v)
  {
    if N == 0 {
      SumZero(K, grouped);
    } else {
      var rest := (s: int) => Sum(N - 1, Keyed(key, v, s));
      SumPartition(K, N - 1, key, v, rest);
      var x := key(N - 1);
      if 0 <= x < K {
        SumUpdate(K, rest, grouped, x);
      } else {
        SumCongruence(K, rest, grouped);
      }
    }
  }

  /**
   * Grouping items by key and weighting each group by phi is the same as
   * weighting each item by phi of its key: sum_s phi(s) * (sum of the w of
   * items with key s) = sum_j phi(key j) * w j.
   */
  lemma SumByKey(K: nat, N: nat, key: int -> int, w: int -> real, phi: int -> real,
                 grouped: int -> real, flat: int -> real)
    requires forall j | 0 <= j < N :: 0 <= key(j) < K || w(j) == 0.0
    requires forall s | 0 <= s < K :: grouped(s) == Times(phi(s), Sum(N, Keyed(key, w, s)))
    requires forall j | 0 <= j < N :: flat(j) == Times(phi(key(j)), w(j))
    ensures Sum(K, grouped) == Sum(N, flat)
  {
    forall s | 0 <= s < K ensures grouped(s) == Sum(N, Keyed(key, flat, s)) {
      SumScale(N, Keyed(key, w, s), Keyed(key, flat, s), phi(s));
    }
    SumPartition(K, N, key, flat, grouped);
  }
}
