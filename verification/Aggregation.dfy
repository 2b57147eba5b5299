/** Collapsing a level's communities into the super-nodes of the next, smaller level. */
module Aggregation {
  import opened RealAlgebra
  import opened Sums
  import opened FirstSeen
  import opened CommunityGraph
  import opened Modularity

  type Pair = (nat, nat)

  /** compact names a super-node below size for every node. */
  ghost predicate IsGrouping(edges: seq<Edge>, compact: seq<nat>, size: nat) {
    && EdgesWithin(|compact|, edges)
    && forall i | 0 <= i < |compact| :: compact[i] < size
  }

  ghost predicate Crosses(edges: seq<Edge>, compact: seq<nat>, j: int) {
    && 0 <= j < |edges| && edges[j].a < |compact| && edges[j].b < |compact|
    && compact[edges[j].a] != compact[edges[j].b]
  }

  /** The super-nodes an edge joins, smaller first. */
  ghost function PairOf(edges: seq<Edge>, compact: seq<nat>, j: int): Pair
    requires Crosses(edges, compact, j)
  {
    var ca, cb := compact[edges[j].a], compact[edges[j].b];
    if ca > cb then (cb, ca) else (ca, cb)
  }

  /** The pairs joined by the first k edges, with repeats, in edge order. */
  ghost function CrossPairs(edges: seq<Edge>, compact: seq<nat>, k: nat): seq<Pair> {
    if k == 0 then []
    else CrossPairs(edges, compact, k - 1)
         + if Crosses(edges, compact, k - 1) then [PairOf(edges, compact, k - 1)] else []
  }

  ghost function PairOrder(edges: seq<Edge>, compact: seq<nat>): seq<Pair> {
    Order(CrossPairs(edges, compact, |edges|))
  }

  /** Edge j's weight if it joins two super-nodes whose pair satisfies psi. */
  ghost function Crossing(edges: seq<Edge>, compact: seq<nat>, psi: Pair -> bool): int -> real {
    j => if Crosses(edges, compact, j) && psi(PairOf(edges, compact, j)) then edges[j].weight else 0.0
  }

  /** Edge j's weight if both its ends fall in super-node s. */
  ghost function Folded(edges: seq<Edge>, compact: seq<nat>, s: int): int -> real {
    j => if 0 <= j < |edges| && edges[j].a < |compact| && edges[j].b < |compact|
              && compact[edges[j].a] == compact[edges[j].b] == s then edges[j].weight else 0.0
  }

  ghost function Is(p: Pair): Pair -> bool {
    q => q == p
  }

  ghost function PairWeight(edges: seq<Edge>, compact: seq<nat>, p: Pair, k: nat): real {
    Sum(k, Crossing(edges, compact, Is(p)))
  }

  ghost function MergedEdges(edges: seq<Edge>, compact: seq<nat>): (r: seq<Edge>)
    ensures |r| == |PairOrder(edges, compact)|
    ensures forall t | 0 <= t < |r| ::
              var p := PairOrder(edges, compact)[t];
              r[t] == Edge(p.0, p.1, PairWeight(edges, compact, p, |edges|))
  {
    var order := PairOrder(edges, compact);
    seq(|order|, t requires 0 <= t < |order| =>
      Edge(order[t].0, order[t].1, PairWeight(edges, compact, order[t], |edges|)))
  }

  /** Self-loops carried over from the first i members plus the first k edges folded inside. */
  ghost function LoopOf(lv: Level, compact: seq<nat>, s: int, i: nat, k: nat): real {
    Sum(i, Keyed(Key(compact), At(lv.selfLoop), s)) + Sum(k, Folded(lv.edges, compact, s))
  }

  ghost function MergedLoops(lv: Level, compact: seq<nat>, size: nat): (r: seq<real>)
    ensures |r| == size && forall s | 0 <= s < size :: r[s] == LoopOf(lv, compact, s, lv.n, |lv.edges|)
  {
    seq(size, s requires 0 <= s < size => LoopOf(lv, compact, s, lv.n, |lv.edges|))
  }

  ghost predicate IsInput(lv: Level, comm: seq<nat>) {
    IsLevel(lv) && |comm| == lv.n
  }

  ghost function Aggregated(lv: Level, comm: seq<nat>): (next: Level)
    requires IsInput(lv, comm)
    ensures IsLevel(next) && next.n == |Order(comm)|
    ensures next.edges == MergedEdges(lv.edges, Renumber(comm))
    ensures next.selfLoop == MergedLoops(lv, Renumber(comm), next.n)
  {
    var compact, size := Renumber(comm), |Order(comm)|;
    MergedWithin(lv.edges, compact, size);
    LevelOf(size, MergedEdges(lv.edges, compact), MergedLoops(lv, compact, size))
  }

  // ----- The pairs

  lemma {:induction false} PairsWithin(edges: seq<Edge>, compact: seq<nat>, size: nat, k: nat)
    requires IsGrouping(edges, compact, size) && k <= |edges|
    ensures forall p | p in CrossPairs(edges, compact, k) :: p.0 < p.1 < size
  {
    if k > 0 {
      PairsWithin(edges, compact, size, k - 1);
    }
  }

  lemma MergedWithin(edges: seq<Edge>, compact: seq<nat>, size: nat)
    requires IsGrouping(edges, compact, size)
    ensures EdgesWithin(size, MergedEdges(edges, compact))
  {
    PairsWithin(edges, compact, size, |edges|);
    var order, merged := PairOrder(edges, compact), MergedEdges(edges, compact);
    forall t | 0 <= t < |merged|
      ensures merged[t].a < size && merged[t].b < size && merged[t].a != merged[t].b
    {
      assert order[t] in order;
    }
  }

  lemma {:induction false} PairListed(edges: seq<Edge>, compact: seq<nat>, j: nat, k: nat)
    requires j < k && Crosses(edges, compact, j)
    ensures PairOf(edges, compact, j) in CrossPairs(edges, compact, k)
  {
    if j < k - 1 {
      PairListed(edges, compact, j, k - 1);
    }
  }

  // ----- Weight moves from old edges to merged edges without loss

  ghost function Selected(edges: seq<Edge>, psi: Pair -> bool): int -> real {
    t => if 0 <= t < |edges| && psi((edges[t].a, edges[t].b)) then edges[t].weight else 0.0
  }

  /** The position of edge j's pair among the merged edges. */
  ghost function PairKey(edges: seq<Edge>, compact: seq<nat>): int -> int {
    j => if Crosses(edges, compact, j) && PairOf(edges, compact, j) in PairOrder(edges, compact)
         then IndexOf(PairOrder(edges, compact), PairOf(edges, compact, j)) as int else -1
  }

  /** However pairs are selected, the merged edges carry the weight of the edges that crossed. */
  lemma CrossingTotal(edges: seq<Edge>, compact: seq<nat>, psi: Pair -> bool)
    ensures var merged := MergedEdges(edges, compact);
            Sum(|merged|, Selected(merged, psi)) == Sum(|edges|, Crossing(edges, compact, psi))
  {
    var merged, order := MergedEdges(edges, compact), PairOrder(edges, compact);
    var key, v := PairKey(edges, compact), Crossing(edges, compact, psi);
    forall j | 0 <= j < |edges| && Crosses(edges, compact, j) ensures 0 <= key(j) < |merged| {
      PairListed(edges, compact, j, |edges|);
    }
    forall t | 0 <= t < |merged| ensures Selected(merged, psi)(t) == Sum(|edges|, Keyed(key, v, t)) {
      PairShare(edges, compact, psi, t);
    }
    SumPartition(|merged|, |edges|, key, v, Selected(merged, psi));
  }

  lemma PairShare(edges: seq<Edge>, compact: seq<nat>, psi: Pair -> bool, t: nat)
    requires t < |PairOrder(edges, compact)|
    ensures Selected(MergedEdges(edges, compact), psi)(t)
         == Sum(|edges|, Keyed(PairKey(edges, compact), Crossing(edges, compact, psi), t))
  {
    var p, order := PairOrder(edges, compact)[t], PairOrder(edges, compact);
    var mine := Keyed(PairKey(edges, compact), Crossing(edges, compact, psi), t);
    forall j | 0 <= j < |edges| && Crosses(edges, compact, j)
      ensures PairKey(edges, compact)(j) == t <==> PairOf(edges, compact, j) == p
    {
      PairListed(edges, compact, j, |edges|);
      assert order[IndexOf(order, PairOf(edges, compact, j))] == PairOf(edges, compact, j);
    }
    if psi(p) {
      SumCongruence(|edges|, mine, Crossing(edges, compact, Is(p)));
    } else {
      SumZero(|edges|, mine);
    }
  }

  /** The super-nodes' self-loops total the old self-loops plus the folded edges. */
  lemma LoopTotal(lv: Level, compact: seq<nat>, size: nat)
    requires IsLevel(lv) && |compact| == lv.n && IsGrouping(lv.edges, compact, size)
    ensures Sum(size, At(MergedLoops(lv, compact, size))) == InsideTotal(lv, compact)
  {
    var carried := (s: int) => Sum(lv.n, Keyed(Key(compact), At(lv.selfLoop), s));
    var folded := (s: int) => Sum(|lv.edges|, Folded(lv.edges, compact, s));
    SumPartition(size, lv.n, Key(compact), At(lv.selfLoop), carried);
    forall s | 0 <= s < size
      ensures folded(s) == Sum(|lv.edges|, Keyed(EndKey(lv.edges, compact), Inside(lv.edges, compact), s))
    {
      SumCongruence(|lv.edges|, Folded(lv.edges, compact, s),
                    Keyed(EndKey(lv.edges, compact), Inside(lv.edges, compact), s));
    }
    SumPartition(size, |lv.edges|, EndKey(lv.edges, compact), Inside(lv.edges, compact), folded);
    SumAdd(size, carried, folded, At(MergedLoops(lv, compact, size)));
  }

  // ----- Degrees

  /** What edge j adds to the degree of super-node s, counting both ends. */
  ghost function EndsIn(edges: seq<Edge>, compact: seq<nat>, s: int): int -> real {
    j => if 0 <= j < |edges| && edges[j].a < |compact| && edges[j].b < |compact| then
        (if compact[edges[j].a] == s then edges[j].weight else 0.0)
        + (if compact[edges[j].b] == s then edges[j].weight else 0.0)
      else 0.0
  }

  ghost function IncidentUpTo(edges: seq<Edge>, k: nat): int -> real {
    i => if i >= 0 then Sum(k, Incident(edges, i)) else 0.0
  }

  lemma {:induction false} IncidentTotal(edges: seq<Edge>, compact: seq<nat>, size: nat, s: int, k: nat)
    requires IsGrouping(edges, compact, size) && k <= |edges|
    ensures Sum(|compact|, Keyed(Key(compact), IncidentUpTo(edges, k), s)) == Sum(k, EndsIn(edges, compact, s))
  {
    var now := Keyed(Key(compact), IncidentUpTo(edges, k), s);
    if k == 0 {
      SumZero(|compact|, now);
    } else {
      IncidentTotal(edges, compact, size, s, k - 1);
      var e := edges[k - 1];
      var before := Keyed(Key(compact), IncidentUpTo(edges, k - 1), s);
      var half := (i: int) => if i == e.a then now(i) else before(i);
      SumUpdate(|compact|, before, half, e.a);
      SumUpdate(|compact|, half, now, e.b);
    }
  }

  lemma MemberDegrees(lv: Level, compact: seq<nat>, size: nat, s: int)
    requires IsLevel(lv) && |compact| == lv.n && IsGrouping(lv.edges, compact, size)
    ensures CommDegree(lv, compact, s)
         == 2.0 * Sum(lv.n, Keyed(Key(compact), At(lv.selfLoop), s)) + Sum(|lv.edges|, EndsIn(lv.edges, compact, s))
  {
    var loops := Keyed(Key(compact), At(lv.selfLoop), s);
    var doubled := (i: int) => 2.0 * loops(i);
    SumScale(lv.n, loops, doubled, 2.0);
    IncidentTotal(lv.edges, compact, size, s, |lv.edges|);
    SumAdd(lv.n, doubled, Keyed(Key(compact), IncidentUpTo(lv.edges, |lv.edges|), s),
           Keyed(Key(compact), At(lv.degree), s));
  }

  ghost function Touches(s: int): Pair -> bool {
    (p: Pair) => p.0 == s || p.1 == s
  }

  /** A super-node's degree is the sum of its members' degrees. */
  lemma SuperDegree(lv: Level, comm: seq<nat>, s: nat)
    requires IsInput(lv, comm) && s < |Order(comm)|
    ensures Aggregated(lv, comm).degree[s] == CommDegree(lv, Renumber(comm), s)
  {
    var compact, next := Renumber(comm), Aggregated(lv, comm);
    var edges, merged := lv.edges, next.edges;
    MemberDegrees(lv, compact, next.n, s);
    CrossingTotal(edges, compact, Touches(s));
    IncidentSelected(next.n, merged, s);
    EndsSplit(edges, compact, next.n, s);
    assert next.degree[s] == 2.0 * LoopOf(lv, compact, s, lv.n, |edges|) + Sum(|merged|, Incident(merged, s));
  }

  lemma IncidentSelected(n: nat, edges: seq<Edge>, s: nat)
    requires EdgesWithin(n, edges)
    ensures Sum(|edges|, Incident(edges, s)) == Sum(|edges|, Selected(edges, Touches(s)))
  {
    SumCongruence(|edges|, Incident(edges, s), Selected(edges, Touches(s)));
  }

  lemma EndsSplit(edges: seq<Edge>, compact: seq<nat>, size: nat, s: int)
    requires IsGrouping(edges, compact, size)
    ensures Sum(|edges|, EndsIn(edges, compact, s))
         == 2.0 * Sum(|edges|, Folded(edges, compact, s)) + Sum(|edges|, Crossing(edges, compact, Touches(s)))
  {
    var twice := (j: int) => 2.0 * Folded(edges, compact, s)(j);
    SumScale(|edges|, Folded(edges, compact, s), twice, 2.0);
    forall j | 0 <= j < |edges|
      ensures EndsIn(edges, compact, s)(j) == twice(j) + Crossing(edges, compact, Touches(s))(j)
    {
      var e := edges[j];
      assert e.a < |compact| && e.b < |compact|;
      if Crosses(edges, compact, j) {
        assert Touches(s)(PairOf(edges, compact, j)) <==> compact[e.a] == s || compact[e.b] == s;
      }
    }
    SumAdd(|edges|, twice, Crossing(edges, compact, Touches(s)), EndsIn(edges, compact, s));
  }

  // ----- Every partition of the new level scores what it scores on the old one

  /** Each node's community when communities are assigned to its super-node. */
  ghost function Compose(p: seq<nat>, compact: seq<nat>): (r: seq<nat>)
    requires forall i | 0 <= i < |compact| :: compact[i] < |p|
    ensures |r| == |compact| && forall i | 0 <= i < |r| :: r[i] == p[compact[i]]
  {
    seq(|compact|, i requires 0 <= i < |compact| => p[compact[i]])
  }

  lemma ComposedDegree(lv: Level, comm: seq<nat>, p: seq<nat>, c: int)
    requires IsInput(lv, comm) && |p| == |Order(comm)|
    ensures CommDegree(Aggregated(lv, comm), p, c) == CommDegree(lv, Compose(p, Renumber(comm)), c)
  {
    var compact, next := Renumber(comm), Aggregated(lv, comm);
    var v := Keyed(Key(Compose(p, compact)), At(lv.degree), c);
    forall s | 0 <= s < next.n
      ensures Keyed(Key(p), At(next.degree), c)(s) == Sum(lv.n, Keyed(Key(compact), v, s))
    {
      if p[s] == c {
        SuperDegree(lv, comm, s);
        SumCongruence(lv.n, Keyed(Key(compact), v, s), Keyed(Key(compact), At(lv.degree), s));
      } else {
        SumZero(lv.n, Keyed(Key(compact), v, s));
      }
    }
    SumPartition(next.n, lv.n, Key(compact), v, Keyed(Key(p), At(next.degree), c));
  }

  lemma ComposedOwn(lv: Level, comm: seq<nat>, p: seq<nat>)
    requires IsInput(lv, comm) && |p| == |Order(comm)|
    ensures var next := Aggregated(lv, comm);
            Sum(next.n, Own(next, p)) == Sum(lv.n, Own(lv, Compose(p, Renumber(comm))))
  {
    var compact, next := Renumber(comm), Aggregated(lv, comm);
    var phi := (s: int) => if 0 <= s < |p| then CommDegree(next, p, p[s]) else 0.0;
    forall s | 0 <= s < next.n
      ensures Own(next, p)(s) == Times(phi(s), Sum(lv.n, Keyed(Key(compact), At(lv.degree), s)))
    {
      SuperDegree(lv, comm, s);
    }
    forall i | 0 <= i < lv.n
      ensures Own(lv, Compose(p, compact))(i) == Times(phi(Key(compact)(i)), At(lv.degree)(i))
    {
      ComposedDegree(lv, comm, p, p[compact[i]]);
    }
    SumByKey(next.n, lv.n, Key(compact), At(lv.degree), phi, Own(next, p), Own(lv, Compose(p, compact)));
  }

  ghost function SameUnder(p: seq<nat>): Pair -> bool {
    (q: Pair) => q.0 < |p| && q.1 < |p| && p[q.0] == p[q.1]
  }

  lemma ComposedInside(lv: Level, comm: seq<nat>, p: seq<nat>)
    requires IsInput(lv, comm) && |p| == |Order(comm)|
    ensures InsideTotal(Aggregated(lv, comm), p) == InsideTotal(lv, Compose(p, Renumber(comm)))
  {
    var compact, next := Renumber(comm), Aggregated(lv, comm);
    var edges, merged := lv.edges, next.edges;
    LoopTotal(lv, compact, next.n);
    CrossingTotal(edges, compact, SameUnder(p));
    InsideSelected(merged, p);
    InsideSplit(edges, compact, p);
    assert next.selfLoop == MergedLoops(lv, compact, next.n);
  }

  lemma InsideSelected(edges: seq<Edge>, p: seq<nat>)
    ensures Sum(|edges|, Inside(edges, p)) == Sum(|edges|, Selected(edges, SameUnder(p)))
  {
    SumCongruence(|edges|, Inside(edges, p), Selected(edges, SameUnder(p)));
  }

  lemma InsideSplit(edges: seq<Edge>, compact: seq<nat>, p: seq<nat>)
    requires IsGrouping(edges, compact, |p|)
    ensures Sum(|edges|, Inside(edges, Compose(p, compact)))
         == Sum(|edges|, Inside(edges, compact)) + Sum(|edges|, Crossing(edges, compact, SameUnder(p)))
  {
    forall j | 0 <= j < |edges|
      ensures Inside(edges, Compose(p, compact))(j)
           == Inside(edges, compact)(j) + Crossing(edges, compact, SameUnder(p))(j)
    {
      var e := edges[j];
      assert e.a < |compact| && e.b < |compact|;
      if Crosses(edges, compact, j) {
        assert SameUnder(p)(PairOf(edges, compact, j)) <==> p[compact[e.a]] == p[compact[e.b]];
      }
    }
    SumAdd(|edges|, Inside(edges, compact), Crossing(edges, compact, SameUnder(p)),
           Inside(edges, Compose(p, compact)));
  }

  /**
   * Aggregation preserves meaning: any partition of the super-nodes has the
   * modularity of the partition it induces on the nodes they stand for.
   */
  lemma AggregatePreserves(lv: Level, comm: seq<nat>, p: seq<nat>, m: real)
    requires IsInput(lv, comm) && |p| == |Order(comm)| && m != 0.0
    ensures Quality(Aggregated(lv, comm), p, m) == Quality(lv, Compose(p, Renumber(comm)), m)
  {
    ComposedInside(lv, comm, p);
    ComposedOwn(lv, comm, p);
  }

  ghost function TotalWeight(lv: Level): real {
    Sum(lv.n, At(lv.selfLoop)) + Sum(|lv.edges|, Weights(lv.edges))
  }

  ghost function Weights(edges: seq<Edge>): int -> real {
    j => if 0 <= j < |edges| then edges[j].weight else 0.0
  }

  /** Edge and self-loop weight together is unchanged. */
  lemma AggregateWeight(lv: Level, comm: seq<nat>)
    requires IsInput(lv, comm)
    ensures TotalWeight(Aggregated(lv, comm)) == TotalWeight(lv)
  {
    var compact, next := Renumber(comm), Aggregated(lv, comm);
    LoopTotal(lv, compact, next.n);
    CrossingTotal(lv.edges, compact, Any());
    SumCongruence(|next.edges|, Weights(next.edges), Selected(next.edges, Any()));
    WeightSplit(lv.edges, compact, next.n);
    assert next.selfLoop == MergedLoops(lv, compact, next.n);
  }

  ghost function Any(): Pair -> bool {
    (p: Pair) => true
  }

  lemma WeightSplit(edges: seq<Edge>, compact: seq<nat>, size: nat)
    requires IsGrouping(edges, compact, size)
    ensures Sum(|edges|, Weights(edges))
         == Sum(|edges|, Inside(edges, compact)) + Sum(|edges|, Crossing(edges, compact, Any()))
  {
    forall j | 0 <= j < |edges|
      ensures Weights(edges)(j) == Inside(edges, compact)(j) + Crossing(edges, compact, Any())(j)
    {
      var e := edges[j];
      assert e.a < |compact| && e.b < |compact|;
      if Crosses(edges, compact, j) {
        assert Any()(PairOf(edges, compact, j));
      }
    }
    SumAdd(|edges|, Inside(edges, compact), Crossing(edges, compact, Any()), Weights(edges));
  }

  lemma AggregateNonNegative(lv: Level, comm: seq<nat>)
    requires IsInput(lv, comm) && NonNegative(lv.edges, lv.selfLoop)
    ensures NonNegative(Aggregated(lv, comm).edges, Aggregated(lv, comm).selfLoop)
  {
    var compact, next := Renumber(comm), Aggregated(lv, comm);
    forall t | 0 <= t < |next.edges| ensures next.edges[t].weight >= 0.0 {
      SumNonNegative(|lv.edges|, Crossing(lv.edges, compact, Is(PairOrder(lv.edges, compact)[t])));
    }
    forall s | 0 <= s < next.n ensures next.selfLoop[s] >= 0.0 {
      SumNonNegative(lv.n, Keyed(Key(compact), At(lv.selfLoop), s));
      SumNonNegative(|lv.edges|, Folded(lv.edges, compact, s));
    }
  }

  // ----- The imperative aggregation

  /** The self-loops members bring with them. */
  method CarryLoops(lv: Level, compact: seq<nat>, newSelfLoop: array<real>)
    requires |lv.selfLoop| == |compact| == lv.n
    requires forall i | 0 <= i < lv.n :: compact[i] < newSelfLoop.Length
    requires forall s | 0 <= s < newSelfLoop.Length :: newSelfLoop[s] == 0.0
    modifies newSelfLoop
    ensures forall s | 0 <= s < newSelfLoop.Length :: newSelfLoop[s] == LoopOf(lv, compact, s, lv.n, 0)
  {
    for i := 0 to lv.n
      invariant forall s | 0 <= s < newSelfLoop.Length :: newSelfLoop[s] == LoopOf(lv, compact, s, i, 0)
    {
      newSelfLoop[compact[i]] := newSelfLoop[compact[i]] + lv.selfLoop[i];
    }
  }

  /** Folds edges inside a super-node into its self-loop and sums the rest by pair. */
  method FoldEdges(lv: Level, compact: seq<nat>, newSelfLoop: array<real>)
    returns (order: seq<Pair>, sums: map<Pair, real>)
    requires |compact| == lv.n && IsGrouping(lv.edges, compact, newSelfLoop.Length)
    requires forall s | 0 <= s < newSelfLoop.Length :: newSelfLoop[s] == LoopOf(lv, compact, s, lv.n, 0)
    modifies newSelfLoop
    ensures order == PairOrder(lv.edges, compact)
    ensures forall p | p in order :: p in sums && sums[p] == PairWeight(lv.edges, compact, p, |lv.edges|)
    ensures forall s | 0 <= s < newSelfLoop.Length :: newSelfLoop[s] == LoopOf(lv, compact, s, lv.n, |lv.edges|)
  {
    hide PairWeight, LoopOf, CrossPairs, Order;
    order, sums := [], map[];
    FoldStart(lv.edges, compact);
    for k := 0 to |lv.edges|
      invariant order == Order(CrossPairs(lv.edges, compact, k))
      invariant forall p :: p in sums <==> p in order
      invariant forall p: Pair :: (if p in sums then sums[p] else 0.0) == PairWeight(lv.edges, compact, p, k)
      invariant forall s | 0 <= s < newSelfLoop.Length :: newSelfLoop[s] == LoopOf(lv, compact, s, lv.n, k)
    {
      var e := lv.edges[k];
      var ca, cb := compact[e.a], compact[e.b];
      FoldStep(lv, compact, k);
      if ca == cb {
        newSelfLoop[ca] := newSelfLoop[ca] + e.weight;
      } else {
        var p := if ca > cb then (cb, ca) else (ca, cb);
        OrderSnoc(CrossPairs(lv.edges, compact, k), p);
        InSnoc(order, p);
        if p !in sums {
          order := order + [p];
        }
        sums := sums[p := (if p in sums then sums[p] else 0.0) + e.weight];
      }
    }
  }

  lemma FoldStart(edges: seq<Edge>, compact: seq<nat>)
    ensures CrossPairs(edges, compact, 0) == []
    ensures forall p :: PairWeight(edges, compact, p, 0) == 0.0
  {
  }

  ghost function PairGain(edges: seq<Edge>, compact: seq<nat>, p: Pair, k: nat): real {
    if Crosses(edges, compact, k) && PairOf(edges, compact, k) == p then edges[k].weight else 0.0
  }

  lemma FoldStep(lv: Level, compact: seq<nat>, k: nat)
    requires k < |lv.edges| && EdgesWithin(|compact|, lv.edges)
    ensures var e := lv.edges[k];
            var ca, cb := compact[e.a], compact[e.b];
            var p := if ca > cb then (cb, ca) else (ca, cb);
            CrossPairs(lv.edges, compact, k + 1)
            == (if ca == cb then CrossPairs(lv.edges, compact, k) else CrossPairs(lv.edges, compact, k) + [p])
    ensures forall q :: PairWeight(lv.edges, compact, q, k + 1)
                     == PairWeight(lv.edges, compact, q, k) + PairGain(lv.edges, compact, q, k)
    ensures forall s, i :: LoopOf(lv, compact, s, i, k + 1)
                        == LoopOf(lv, compact, s, i, k) + Folded(lv.edges, compact, s)(k)
  {
  }

  method Aggregate(lv: Level, comm: seq<nat>) returns (next: Level, newN: nat, remap: map<nat, nat>)
    requires IsInput(lv, comm)
    ensures next == Aggregated(lv, comm) && newN == next.n
    ensures forall i | 0 <= i < |comm| :: comm[i] in remap && remap[comm[i]] == Renumber(comm)[i]
  {
    var compact;
    compact, newN, remap := Compact(comm);
    var newSelfLoop := new real[newN](_ => 0.0);
    CarryLoops(lv, compact, newSelfLoop);
    var order, sums := FoldEdges(lv, compact, newSelfLoop);
    var newEdges := seq(|order|, t requires 0 <= t < |order| =>
      assert order[t] in order;
      Edge(order[t].0, order[t].1, sums[order[t]]));
    MergedWithin(lv.edges, compact, newN);
    assert newEdges == MergedEdges(lv.edges, compact);
    assert newSelfLoop[..] == MergedLoops(lv, compact, newN);
    next := BuildLevel(newN, newEdges, newSelfLoop[..]);
  }
}
