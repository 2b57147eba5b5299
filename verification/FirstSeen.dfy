/**
 * Numbering values by first appearance: the scheme the community code uses
 * for neighbour order, for compacting community ids and for final ids.
 */
module FirstSeen {
  import opened SetSums

  ghost predicate Distinct<T>(s: seq<T>) {
    forall i, j | 0 <= i < j < |s| :: s[i] != s[j]
  }

  /** The distinct values of s, in the order they first appear. */
  function Order<T(==,!new)>(s: seq<T>): (r: seq<T>)
    ensures Distinct(r)
    ensures forall x :: x in r <==> x in s
    ensures |r| <= |s|
  {
    if s == [] then []
    else
      var init, x := s[..|s| - 1], s[|s| - 1];
      var r := Order(init);
      assert s == init + [x];
      if x in r then r else r + [x]
  }

  function IndexOf<T(==)>(s: seq<T>, x: T): (k: nat)
    requires x in s
    ensures k < |s| && s[k] == x
  {
    if s[0] == x then 0 else IndexOf(s[1..], x) + 1
  }

  /** The number of the value at position i, counting values as they first appear. */
  function NumberAt<T(==,!new)>(s: seq<T>, i: nat): (k: nat)
    requires i < |s|
    ensures k < |Order(s)| && Order(s)[k] == s[i]
  {
    IndexOf(Order(s), s[i])
  }

  /** Each value of s replaced by its number. */
  function Renumber<T(==,!new)>(s: seq<T>): (r: seq<nat>)
    ensures |r| == |s|
    ensures forall i | 0 <= i < |s| :: r[i] == NumberAt(s, i)
  {
    seq(|s|, i requires 0 <= i < |s| => NumberAt(s, i))
  }

  /**
   * The ids in r are dense and handed out in order of first use: an id
   * other than 0 appears only after the id one below it.
   */
  ghost predicate Dense(r: seq<nat>) {
    forall i | 0 <= i < |r| && r[i] > 0 :: Precedes(r, i)
  }

  ghost predicate Precedes(r: seq<nat>, i: nat)
    requires i < |r| && r[i] > 0
  {
    r[i] - 1 in r[..i]
  }

  lemma OrderSnoc<T(!new)>(s: seq<T>, x: T)
    ensures Order(s + [x]) == if x in s then Order(s) else Order(s) + [x]
  {
    assert (s + [x])[..|s|] == s;
  }

  lemma OrderStep<T(!new)>(s: seq<T>, k: nat)
    requires k < |s|
    ensures Order(s[..k + 1]) == if s[k] in s[..k] then Order(s[..k]) else Order(s[..k]) + [s[k]]
  {
    assert s[..k + 1] == s[..k] + [s[k]];
    OrderSnoc(s[..k], s[k]);
  }

  lemma {:induction false} OrderPrefix<T(!new)>(s: seq<T>, k: nat)
    requires k <= |s|
    ensures Order(s[..k]) <= Order(s)
  {
    if k < |s| {
      OrderPrefix(s[..|s| - 1], k);
      assert s[..|s| - 1][..k] == s[..k];
    } else {
      assert s[..k] == s;
    }
  }

  /** Renumbering keeps exactly the equalities between positions. */
  lemma RenumberFaithful<T(!new)>(s: seq<T>)
    ensures forall i, j | 0 <= i < |s| && 0 <= j < |s| :: Renumber(s)[i] == Renumber(s)[j] <==> s[i] == s[j]
  {
    forall i, j | 0 <= i < |s| && 0 <= j < |s|
      ensures Renumber(s)[i] == Renumber(s)[j] <==> s[i] == s[j]
    {
      assert NumberAt(s, i) == NumberAt(s, j) <==> s[i] == s[j];
    }
  }

  /** Renumber yields dense ids in first-seen order, using every id below |Order(s)|. */
  lemma RenumberDense<T(!new)>(s: seq<T>)
    ensures Dense(Renumber(s))
    ensures forall c: nat | c < |Order(s)| :: c in Renumber(s)
  {
    var r := Renumber(s);
    forall c: nat | c < |Order(s)| ensures c in r {
      assert Order(s)[c] in s;
      assert s[..|s|] == s && r[..|s|] == r;
      NumberUsed(s, c, |s|);
    }
    forall i | 0 <= i < |r| && r[i] > 0 ensures Precedes(r, i) {
      NumberBound(s, i);
      OrderPrefix(s, i);
      var c: nat := r[i] - 1;
      assert Order(s)[c] == Order(s[..i])[c];
      NumberUsed(s, c, i);
    }
  }

  /** A number whose value appears in the first k positions is used there. */
  lemma NumberUsed<T(!new)>(s: seq<T>, c: nat, k: nat)
    requires c < |Order(s)| && k <= |s| && Order(s)[c] in s[..k]
    ensures c in Renumber(s)[..k]
  {
    var j :| 0 <= j < k && s[..k][j] == Order(s)[c];
    assert Renumber(s)[..k][j] == NumberAt(s, j) == c;
  }

  /** A value's number is at most the count of distinct values before it. */
  lemma NumberBound<T(!new)>(s: seq<T>, i: nat)
    requires i < |s|
    ensures NumberAt(s, i) <= |Order(s[..i])|
  {
    var before := Order(s[..i]);
    assert s[..i + 1] == s[..i] + [s[i]];
    OrderSnoc(s[..i], s[i]);
    OrderPrefix(s, i);
    OrderPrefix(s, i + 1);
    var p: nat := if s[i] in s[..i] then IndexOf(before, s[i]) else |before|;
    assert Order(s[..i + 1])[p] == s[i];
    assert Order(s)[p] == s[i];
  }

  /** Compacts ids to 0..k-1 in first-seen order, with the map from each id to its number. */
  method Compact(s: seq<nat>) returns (ids: seq<nat>, next: nat, remap: map<nat, nat>)
    ensures ids == Renumber(s) && next == |Order(s)|
    ensures forall c :: c in remap <==> c in s
    ensures forall i | 0 <= i < |s| :: remap[s[i]] == Renumber(s)[i]
  {
    hide Order;
    var compact := new nat[|s|];
    remap, next := map[], 0;
    ghost var order: seq<nat> := [];
    assert s[..0] == [];
    EmptyOrder<nat>();
    for i := 0 to |s|
      invariant order == Order(s[..i]) && next == |order|
      invariant IsInverse(remap, order)
      invariant forall j | 0 <= j < i :: compact[j] == NumberAt(s, j)
    {
      var c := s[i];
      OrderStep(s, i);
      if c !in remap {
        InverseSnoc(remap, order, c, next);
        remap := remap[c := next];
        next := next + 1;
        order := order + [c];
      }
      OrderPrefix(s, i + 1);
      NumberIs(s, i, remap[c]);
      compact[i] := remap[c];
    }
    assert s[..|s|] == s;
    forall i | 0 <= i < |s| ensures remap[s[i]] == Renumber(s)[i] {
      NumberIs(s, i, remap[s[i]]);
    }
    ids := compact[..];
  }

  lemma EmptyOrder<T(!new)>()
    ensures Order<T>([]) == []
  {
  }

  ghost predicate IsInverse(remap: map<nat, nat>, order: seq<nat>) {
    && (forall c :: c in remap <==> c in order)
    && (forall c | c in remap :: remap[c] < |order| && order[remap[c]] == c)
  }

  lemma InverseSnoc(remap: map<nat, nat>, order: seq<nat>, c: nat, next: nat)
    requires IsInverse(remap, order) && c !in remap && next == |order|
    ensures IsInverse(remap[c := next], order + [c])
  {
    InSnoc(order, c);
  }

  lemma InSnoc<T(!new)>(s: seq<T>, x: T)
    ensures forall y :: y in s + [x] <==> y in s || y == x
  {
  }

  lemma NumberIs<T(!new)>(s: seq<T>, i: nat, k: nat)
    requires i < |s| && k < |Order(s)| && Order(s)[k] == s[i]
    ensures NumberAt(s, i) == k
  {
  }

  /** Fewer distinct values than positions when some candidate value is missing. */
  lemma OrderShorter(s: seq<nat>, n: nat, missing: nat)
    requires |s| == n && forall x | x in s :: x < n
    requires missing < n && missing !in s
    ensures |Order(s)| < n
  {
    var values := Elements(Order(s));
    assert values <= Below(n) - {missing};
    SizeOfSubset(values, Below(n) - {missing});
    SizeOfDistinct(Order(s));
  }

  ghost function Below(n: nat): (r: set<int>)
    ensures forall x :: x in r <==> 0 <= x < n
    ensures |r| == n
  {
    if n == 0 then {} else Below(n - 1) + {n - 1}
  }

  ghost function Elements(s: seq<int>): set<int> {
    set x | x in s
  }

  lemma {:induction false} SizeOfDistinct(s: seq<int>)
    requires Distinct(s)
    ensures |Elements(s)| == |s|
  {
    if s != [] {
      var init, x := s[..|s| - 1], s[|s| - 1];
      SizeOfDistinct(init);
      assert s == init + [x];
      assert Elements(s) == Elements(init) + {x};
    }
  }
}
