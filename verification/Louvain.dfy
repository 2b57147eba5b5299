/** Louvain community detection: alternating local moving and aggregation until nothing moves. */
module Louvain {
  import opened Sums
  import opened FirstSeen
  import opened CommunityGraph
  import opened Modularity
  import opened LocalMoving
  import opened Aggregation

  datatype WeightedEdge<Id> = WeightedEdge(a: Id, b: Id, weight: real)

  datatype Graph<Id> = Graph(nodes: seq<Id>, edges: seq<WeightedEdge<Id>>)

  datatype Outcome<Id> = Cancelled | Communities(assignment: map<Id, nat>, modularity: real)

  // ----- The original graph by dense index

  ghost function Index<Id>(nodes: seq<Id>, k: nat): (r: map<Id, nat>)
    requires k <= |nodes|
    ensures forall id | id in r :: r[id] < k && nodes[r[id]] == id
    ensures forall i | 0 <= i < k :: nodes[i] in r
  {
    if k == 0 then map[] else Index(nodes, k - 1)[nodes[k - 1] := k - 1]
  }

  /** Edges between two different known nodes; the rest are dropped. */
  ghost function IndexedEdges<Id>(g: Graph<Id>, k: nat): (r: seq<Edge>)
    requires k <= |g.edges|
    ensures EdgesWithin(|g.nodes|, r)
  {
    if k == 0 then []
    else
      var e, idx := g.edges[k - 1], Index(g.nodes, |g.nodes|);
      if e.a in idx && e.b in idx && idx[e.a] != idx[e.b]
      then IndexedEdges(g, k - 1) + [Edge(idx[e.a], idx[e.b], e.weight)]
      else IndexedEdges(g, k - 1)
  }

  /** p is the last position of id among the nodes. */
  ghost predicate LastAt<Id>(nodes: seq<Id>, p: nat, id: Id) {
    p < |nodes| && nodes[p] == id && id !in nodes[p + 1..]
  }

  /** Both ends are known, and they differ. */
  ghost predicate Joins<Id>(g: Graph<Id>, w: WeightedEdge<Id>) {
    w.a in g.nodes && w.b in g.nodes && w.a != w.b
  }

  ghost predicate Stands<Id>(g: Graph<Id>, e: Edge, w: WeightedEdge<Id>) {
    LastAt(g.nodes, e.a, w.a) && LastAt(g.nodes, e.b, w.b) && e.weight == w.weight
  }

  /** The edges are those of g at the given positions, in order, and no other of g's first k joins two nodes. */
  ghost predicate EdgesAt<Id>(g: Graph<Id>, k: nat, edges: seq<Edge>, at: seq<nat>)
    requires k <= |g.edges|
  {
    && |at| == |edges|
    && (forall i, j | 0 <= i < j < |at| :: at[i] < at[j])
    && (forall i | 0 <= i < |at| :: at[i] < k && Joins(g, g.edges[at[i]]) && Stands(g, edges[i], g.edges[at[i]]))
    && (forall j | 0 <= j < k && j !in at :: !Joins(g, g.edges[j]))
  }

  ghost predicate EdgesOf<Id>(g: Graph<Id>, edges: seq<Edge>) {
    exists at :: EdgesAt(g, |g.edges|, edges, at)
  }

  /** The weight of edge j of g, if it joins two nodes. */
  ghost function JoiningWeight<Id>(g: Graph<Id>): int -> real {
    j => if 0 <= j < |g.edges| && Joins(g, g.edges[j]) then g.edges[j].weight else 0.0
  }

  ghost function TotalWeight<Id>(g: Graph<Id>): real {
    Sum(|g.edges|, JoiningWeight(g))
  }

  lemma {:induction false} IndexIsLast<Id>(nodes: seq<Id>, k: nat, id: Id)
    requires k <= |nodes|
    ensures id in Index(nodes, k) <==> id in nodes[..k]
    ensures id in nodes[..k] ==> LastAt(nodes[..k], Index(nodes, k)[id], id)
  {
    hide Index;
    if k == 0 {
      IndexNone(nodes);
    } else {
      var last := nodes[k - 1];
      IndexIsLast(nodes, k - 1, id);
      IndexStep(nodes, k - 1);
      assert nodes[..k] == nodes[..k - 1] + [last];
      if id != last && id in nodes[..k - 1] {
        var p := Index(nodes, k - 1)[id];
        assert nodes[..k][p + 1..] == nodes[..k - 1][p + 1..] + [last];
      }
    }
  }

  /** What edge k of g adds. */
  lemma IndexedStep<Id>(g: Graph<Id>, k: nat)
    requires k < |g.edges|
    ensures var w, before, after := g.edges[k], IndexedEdges(g, k), IndexedEdges(g, k + 1);
            if !Joins(g, w) then after == before
            else |after| == |before| + 1 && after == before + [after[|before|]] && Stands(g, after[|before|], w)
  {
    hide Index;
    IndexIsLast(g.nodes, |g.nodes|, g.edges[k].a);
    IndexIsLast(g.nodes, |g.nodes|, g.edges[k].b);
    assert g.nodes[..|g.nodes|] == g.nodes;
  }

  /** Which edges are indexed, in which order, and with which ends and weights. */
  lemma {:induction false} IndexedRight<Id>(g: Graph<Id>, k: nat) returns (at: seq<nat>)
    requires k <= |g.edges|
    ensures EdgesAt(g, k, IndexedEdges(g, k), at)
  {
    hide Joins, Stands, IndexedEdges;
    at := [];
    if k == 0 {
      IndexedNone(g);
    } else {
      var init := IndexedRight(g, k - 1);
      IndexedStep(g, k - 1);
      var before, after := IndexedEdges(g, k - 1), IndexedEdges(g, k);
      if Joins(g, g.edges[k - 1]) {
        at := init + [k - 1];
        AddEdge(g, k - 1, before, init, after[|before|]);
      } else {
        at := init;
      }
    }
  }

  lemma IndexedNone<Id>(g: Graph<Id>)
    ensures IndexedEdges(g, 0) == []
  {
  }

  /** Their weights are those of g's edges that join two nodes. */
  lemma {:induction false} IndexedWeight<Id>(g: Graph<Id>, k: nat)
    requires k <= |g.edges|
    ensures Sum(|IndexedEdges(g, k)|, Weights(IndexedEdges(g, k))) == Sum(k, JoiningWeight(g))
  {
    hide Joins, IndexedEdges;
    if k == 0 {
      IndexedNone(g);
    } else {
      IndexedWeight(g, k - 1);
      IndexedStep(g, k - 1);
      var before, after := IndexedEdges(g, k - 1), IndexedEdges(g, k);
      SumCongruence(|before|, Weights(before), Weights(after));
    }
  }

  lemma AddEdge<Id>(g: Graph<Id>, k: nat, edges: seq<Edge>, at: seq<nat>, e: Edge)
    requires k < |g.edges| && EdgesAt(g, k, edges, at) && Joins(g, g.edges[k]) && Stands(g, e, g.edges[k])
    ensures EdgesAt(g, k + 1, edges + [e], at + [k])
  {
    hide Joins, Stands;
    forall j | 0 <= j < k + 1 && j !in at + [k] ensures !Joins(g, g.edges[j]) {
      assert (at + [k])[|at|] == k;
    }
  }

  ghost function Zeros(n: nat): (r: seq<real>)
    ensures |r| == n && forall i | 0 <= i < n :: r[i] == 0.0
  {
    seq(n, i => 0.0)
  }

  ghost function Original<Id>(g: Graph<Id>): (lv: Level)
    ensures IsLevel(lv) && lv.n == |g.nodes|
  {
    LevelOf(|g.nodes|, IndexedEdges(g, |g.edges|), Zeros(|g.nodes|))
  }

  ghost function EdgeWeight<Id>(g: Graph<Id>, k: nat): real
    requires k <= |g.edges|
  {
    Sum(|IndexedEdges(g, k)|, Weights(IndexedEdges(g, k)))
  }

  ghost predicate NonNegativeGraph<Id>(g: Graph<Id>) {
    forall j | 0 <= j < |g.edges| :: g.edges[j].weight >= 0.0
  }

  // ----- The outer loop

  ghost predicate Places(final: seq<nat>, n: nat) {
    forall i | 0 <= i < |final| :: final[i] < n
  }

  /** Final communities, given the current level and where each original node sits in it. */
  ghost function Climb(cur: Level, final: seq<nat>, m2: real): (r: seq<nat>)
    requires IsLevel(cur) && Places(final, cur.n) && m2 != 0.0
    ensures |r| == |final| && Places(r, cur.n)
    decreases cur.n
  {
    LevelShaped(cur);
    var comm := Settled(cur, m2);
    if comm == Identity(cur.n) then final
    else
      SettledEmpties(cur, m2);
      var next, composed := Aggregated(cur, comm), Compose(Renumber(comm), final);
      if next.n == 1 then composed else Climb(next, composed, m2)
  }

  /** How many context checks the outer loop makes from this level on: one a level, and one a pass. */
  ghost function ClimbChecks(cur: Level, m2: real): (n: nat)
    requires IsLevel(cur) && m2 != 0.0
    ensures n >= 2
    decreases cur.n
  {
    LevelShaped(cur);
    var comm, here := Settled(cur, m2), 1 + SettlingPasses(cur, m2);
    if comm == Identity(cur.n) then here
    else
      SettledEmpties(cur, m2);
      var next := Aggregated(cur, comm);
      if next.n == 1 then here else here + ClimbChecks(next, m2)
  }

  /** How many context checks a whole run makes. */
  ghost function Checks<Id>(g: Graph<Id>): (n: nat)
    ensures n >= 1
  {
    var w := EdgeWeight(g, |g.edges|);
    if g.nodes == [] || w == 0.0 then 1 else 1 + ClimbChecks(Original(g), 2.0 * w)
  }

  ghost function Labels<Id>(g: Graph<Id>): (r: seq<nat>)
    ensures |r| == |g.nodes|
  {
    var n, w := |g.nodes|, EdgeWeight(g, |g.edges|);
    if w == 0.0 then Identity(n) else Renumber(Climb(Original(g), Identity(n), 2.0 * w))
  }

  // ----- Levels stand for the original graph

  /** A partition of cur scores what it scores on the original nodes it places. */
  ghost predicate Represents(original: Level, cur: Level, final: seq<nat>, m: real)
    requires m != 0.0 && Places(final, cur.n)
  {
    forall p: seq<nat> | |p| == cur.n :: Quality(cur, p, m) == Quality(original, Compose(p, final), m)
  }

  lemma RepresentsItself(lv: Level, m: real)
    requires m != 0.0
    ensures Represents(lv, lv, Identity(lv.n), m)
  {
    forall p: seq<nat> | |p| == lv.n ensures Quality(lv, p, m) == Quality(lv, Compose(p, Identity(lv.n)), m) {
      assert Compose(p, Identity(lv.n)) == p;
    }
  }

  lemma RepresentsNext(original: Level, cur: Level, final: seq<nat>, comm: seq<nat>, m: real)
    requires m != 0.0 && Places(final, cur.n) && Represents(original, cur, final, m) && IsInput(cur, comm)
    ensures Represents(original, Aggregated(cur, comm), Compose(Renumber(comm), final), m)
  {
    hide Quality, Aggregated;
    var next, compact := Aggregated(cur, comm), Renumber(comm);
    forall p: seq<nat> | |p| == next.n
      ensures Quality(next, p, m) == Quality(original, Compose(p, Compose(compact, final)), m)
    {
      AggregatePreserves(cur, comm, p, m);
      assert Compose(Compose(p, compact), final) == Compose(p, Compose(compact, final));
    }
  }

  /** Local moving then aggregation, seen from the original graph: the new singletons score no less. */
  lemma StepRaises(original: Level, cur: Level, final: seq<nat>, m: real)
    requires m > 0.0 && IsLevel(cur) && Places(final, cur.n) && Represents(original, cur, final, m)
    requires NonNegative(cur.edges, cur.selfLoop) && Shaped(cur)
    ensures Quality(original, Compose(Renumber(Settled(cur, 2.0 * m)), final), m) >= Quality(original, final, m)
  {
    hide Quality, Settled;
    var id, comm := Identity(cur.n), Settled(cur, 2.0 * m);
    SettledRaises(cur, m);
    RenumberFaithful(comm);
    QualityRelabel(cur, comm, Renumber(comm), m);
    assert Compose(id, final) == final;
  }

  lemma SettledRaises(lv: Level, m: real)
    requires m > 0.0 && IsLevel(lv) && Shaped(lv) && NonNegative(lv.edges, lv.selfLoop)
    ensures Quality(lv, Settled(lv, 2.0 * m), m) >= Quality(lv, Identity(lv.n), m)
  {
    hide Quality, Passes;
    PassesRaise(lv, Identity(lv.n), m, MAX_PASSES);
  }

  lemma {:induction false} ClimbRaises(original: Level, cur: Level, final: seq<nat>, m: real)
    requires m > 0.0 && IsLevel(cur) && Places(final, cur.n) && Represents(original, cur, final, m)
    requires NonNegative(cur.edges, cur.selfLoop)
    ensures Quality(original, Climb(cur, final, 2.0 * m), m) >= Quality(original, final, m)
    decreases cur.n
  {
    hide Quality, Settled, Aggregated, Represents;
    LevelShaped(cur);
    var comm := Settled(cur, 2.0 * m);
    if comm != Identity(cur.n) {
      SettledEmpties(cur, 2.0 * m);
      StepRaises(original, cur, final, m);
      RepresentsNext(original, cur, final, comm, m);
      AggregateNonNegative(cur, comm);
      var next, composed := Aggregated(cur, comm), Compose(Renumber(comm), final);
      if next.n != 1 {
        ClimbRaises(original, next, composed, m);
      }
    }
  }

  // ----- Nothing left to merge

  /** Community x absorbed into community y. */
  ghost function Merge(r: seq<nat>, x: nat, y: nat): (s: seq<nat>)
    ensures |s| == |r| && forall i | 0 <= i < |r| :: s[i] == if r[i] == x then y else r[i]
  {
    seq(|r|, i requires 0 <= i < |r| => if r[i] == x then y else r[i])
  }

  ghost predicate MergeOptimal(lv: Level, r: seq<nat>, m: real)
    requires m != 0.0
  {
    forall x: nat, y: nat | x in r && y in r :: Quality(lv, Merge(r, x, y), m) <= Quality(lv, r, m)
  }

  /** A node keeps, to the end of a pass, the community its own visit gave it. */
  lemma {:induction false} PassKeeps(lv: Level, comm: seq<nat>, m2: real, i: nat, k: nat)
    requires IsState(lv, comm) && m2 != 0.0 && i < k <= lv.n
    ensures Pass(lv, comm, m2, k)[i] == Pass(lv, comm, m2, i + 1)[i]
  {
    hide Target;
    if i + 1 < k {
      PassKeeps(lv, comm, m2, i, k - 1);
    }
  }

  lemma {:induction false} StillPrefix(lv: Level, comm: seq<nat>, m2: real, k: nat)
    requires IsState(lv, comm) && m2 != 0.0 && k <= lv.n
    requires Pass(lv, comm, m2, lv.n) == comm
    ensures Pass(lv, comm, m2, k) == comm
  {
    hide Visit;
    if k > 0 {
      StillPrefix(lv, comm, m2, k - 1);
      PassKeeps(lv, comm, m2, k - 1, lv.n);
      VisitOnly(lv, comm, k - 1, m2);
    }
  }

  lemma VisitOnly(lv: Level, comm: seq<nat>, i: nat, m2: real)
    requires IsState(lv, comm) && i < lv.n && m2 != 0.0
    ensures Visit(lv, comm, i, m2)[i] == Target(lv, comm, i, m2)
    ensures Visit(lv, comm, i, m2)[i] == comm[i] ==> Visit(lv, comm, i, m2) == comm
  {
    hide Target;
  }

  /** If the whole phase moved nothing, every node would choose to stay alone. */
  lemma SettledStill(lv: Level, m2: real, i: nat)
    requires Shaped(lv) && m2 != 0.0 && i < lv.n && Settled(lv, m2) == Identity(lv.n)
    ensures Target(lv, Identity(lv.n), i, m2) == i
  {
    hide Target, Passes, Visit;
    var id := Identity(lv.n);
    var first := Pass(lv, id, m2, lv.n);
    PassesStep(lv, id, m2, MAX_PASSES);
    if first != id {
      PassEmpties(lv, m2, lv.n);
      VacancyStays(first, Passes(lv, first, m2, MAX_PASSES - 1));
      IdentityFull(lv.n);
      assert false;
    }
    StillPrefix(lv, id, m2, i);
    StillPrefix(lv, id, m2, i + 1);
    VisitOnly(lv, id, i, m2);
  }

  /** A lone node gains nothing from staying. */
  lemma AloneGain(lv: Level, i: nat, m2: real)
    requires IsLevel(lv) && Shaped(lv) && i < lv.n && m2 != 0.0
    ensures Gain(lv, Identity(lv.n), i, i, m2) == 0.0
    ensures i !in Candidates(lv, Identity(lv.n), i)
  {
    var id := Identity(lv.n);
    AdjacencyWithin(lv.n, lv.edges, i, |lv.edges|);
    SumZero(|lv.adj[i]|, Chosen(lv.adj[i], InCommunity(id, i)));
    SingletonDegrees(lv);
    var nc := NeighbourComms(lv, id, i);
    assert i !in nc;
  }

  lemma {:induction false} WinnerListed(lv: Level, comm: seq<nat>, i: nat, m2: real, k: nat)
    requires IsState(lv, comm) && i < lv.n && m2 != 0.0 && k <= |Candidates(lv, comm, i)|
    ensures var best := Best(lv, comm, i, m2, k); best.1 == 0.0 || best.0 in Candidates(lv, comm, i)
  {
    hide Gain;
    if k > 0 {
      WinnerListed(lv, comm, i, m2, k - 1);
    }
  }

  lemma SettledGain(lv: Level, i: nat, c: nat, m2: real)
    requires IsLevel(lv) && Shaped(lv) && NonNegative(lv.edges, lv.selfLoop) && m2 > 0.0
    requires i < lv.n && c < lv.n && Settled(lv, m2) == Identity(lv.n)
    ensures Gain(lv, Identity(lv.n), i, c, m2) <= 0.0
  {
    hide Gain, Settled;
    var id := Identity(lv.n);
    var cand := Candidates(lv, id, i);
    if c in cand {
      SettledStill(lv, m2, i);
      AloneGain(lv, i, m2);
      BestPicks(lv, id, i, m2, |cand|);
      WinnerListed(lv, id, i, m2, |cand|);
      var q :| 0 <= q < |cand| && cand[q] == c;
    } else {
      AbsentGain(lv, id, i, m2, c);
    }
  }

  /** On a level where nothing moves, putting one super-node with another never raises Q. */
  lemma SettledPair(lv: Level, x: nat, y: nat, m: real)
    requires IsLevel(lv) && Shaped(lv) && NonNegative(lv.edges, lv.selfLoop) && m > 0.0
    requires x < lv.n && y < lv.n && Settled(lv, 2.0 * m) == Identity(lv.n)
    ensures Quality(lv, Identity(lv.n)[x := y], m) <= Quality(lv, Identity(lv.n), m)
  {
    hide Quality, Gain, Settled;
    if x == y {
      assert Identity(lv.n)[x := y] == Identity(lv.n);
    } else {
      MoveChange(lv, Identity(lv.n), x, y, lv.n, m);
      SettledGain(lv, x, y, 2.0 * m);
      AloneGain(lv, x, 2.0 * m);
      NonPositiveQuotient(Gain(lv, Identity(lv.n), x, y, 2.0 * m), m);
    }
  }

  lemma NonPositiveQuotient(g: real, m: real)
    requires g <= 0.0 && m > 0.0
    ensures (g - 0.0) / m <= 0.0
  {
  }

  lemma StillOptimal(original: Level, cur: Level, final: seq<nat>, m: real)
    requires m > 0.0 && IsLevel(cur) && Places(final, cur.n) && Represents(original, cur, final, m)
    requires NonNegative(cur.edges, cur.selfLoop) && Shaped(cur) && Settled(cur, 2.0 * m) == Identity(cur.n)
    ensures MergeOptimal(original, final, m)
  {
    hide Quality, Settled;
    var id := Identity(cur.n);
    forall x: nat, y: nat | x in final && y in final
      ensures Quality(original, Merge(final, x, y), m) <= Quality(original, final, m)
    {
      SettledPair(cur, x, y, m);
      assert Compose(id, final) == final;
      assert Compose(id[x := y], final) == Merge(final, x, y);
    }
  }

  lemma {:induction false} ClimbOptimal(original: Level, cur: Level, final: seq<nat>, m: real)
    requires m > 0.0 && IsLevel(cur) && Places(final, cur.n) && Represents(original, cur, final, m)
    requires NonNegative(cur.edges, cur.selfLoop)
    ensures MergeOptimal(original, Climb(cur, final, 2.0 * m), m)
    decreases cur.n
  {
    hide Quality, Settled, Aggregated, Climb, Represents, Order;
    LevelShaped(cur);
    ClimbStep(cur, final, 2.0 * m);
    var comm, id := Settled(cur, 2.0 * m), Identity(cur.n);
    if comm == id {
      StillOptimal(original, cur, final, m);
    } else {
      RepresentsNext(original, cur, final, comm, m);
      AggregateNonNegative(cur, comm);
      var next, composed := Aggregated(cur, comm), Compose(Renumber(comm), final);
      if next.n == 1 {
        forall x: nat, y: nat | x in composed && y in composed
          ensures Quality(original, Merge(composed, x, y), m) <= Quality(original, composed, m)
        {
          assert x == y == 0;
          assert Merge(composed, 0, 0) == composed;
        }
      } else {
        ClimbOptimal(original, next, composed, m);
      }
    }
  }

  // ----- The whole run

  lemma {:induction false} IndexedNonNegative<Id>(g: Graph<Id>, k: nat)
    requires NonNegativeGraph(g) && k <= |g.edges|
    ensures forall j | 0 <= j < |IndexedEdges(g, k)| :: IndexedEdges(g, k)[j].weight >= 0.0
  {
    if k > 0 {
      IndexedNonNegative(g, k - 1);
    }
  }

  /** Relabelling a merge: merging two labels is merging the communities they stand for. */
  lemma MergeRenumbered(lv: Level, c: seq<nat>, x: nat, y: nat, m: real)
    requires IsLevel(lv) && |c| == lv.n && m != 0.0 && MergeOptimal(lv, c, m)
    requires x in Renumber(c) && y in Renumber(c)
    ensures Quality(lv, Merge(Renumber(c), x, y), m) <= Quality(lv, Renumber(c), m)
  {
    hide Quality;
    var r := Renumber(c);
    var i :| 0 <= i < |r| && r[i] == x;
    var j :| 0 <= j < |r| && r[j] == y;
    RenumberFaithful(c);
    QualityRelabel(lv, c, r, m);
    forall a, b | 0 <= a < lv.n && 0 <= b < lv.n
      ensures Merge(c, c[i], c[j])[a] == Merge(c, c[i], c[j])[b] <==> Merge(r, x, y)[a] == Merge(r, x, y)[b]
    {
      SameMerge(c, r, i, j, a, b);
    }
    QualityRelabel(lv, Merge(c, c[i], c[j]), Merge(r, x, y), m);
    assert c[i] in c && c[j] in c;
  }

  lemma SameMerge(c: seq<nat>, r: seq<nat>, i: nat, j: nat, a: nat, b: nat)
    requires |c| == |r| && i < |c| && j < |c| && a < |c| && b < |c|
    requires forall p, q | 0 <= p < |c| && 0 <= q < |c| :: r[p] == r[q] <==> c[p] == c[q]
    ensures Merge(c, c[i], c[j])[a] == Merge(c, c[i], c[j])[b] <==> Merge(r, r[i], r[j])[a] == Merge(r, r[i], r[j])[b]
  {
  }

  /**
   * What Louvain returns, on every graph with non-negative weights: dense
   * labels in first-seen order, scoring no less than all singletons, and no
   * two of the communities could be merged to score more.
   */
  lemma LabelsTheorem<Id>(g: Graph<Id>)
    requires NonNegativeGraph(g)
    ensures Dense(Labels(g))
    ensures var w, n := EdgeWeight(g, |g.edges|), |g.nodes|;
            w != 0.0 ==>
              && Newman(Original(g), Labels(g), n, w) >= Newman(Original(g), Identity(n), n, w)
              && MergeOptimal(Original(g), Labels(g), w)
  {
    hide Climb, Newman, MergeOptimal;
    LabelsDense(g);
    if EdgeWeight(g, |g.edges|) != 0.0 {
      IndexedNonNegative(g, |g.edges|);
      SumNonNegative(|Original(g).edges|, Weights(Original(g).edges));
      RunTheorem(Original(g), EdgeWeight(g, |g.edges|));
    }
  }

  lemma RunTheorem(lv: Level, w: real)
    requires IsLevel(lv) && NonNegative(lv.edges, lv.selfLoop) && w > 0.0
    ensures var r := Renumber(Climb(lv, Identity(lv.n), 2.0 * w));
            Newman(lv, r, lv.n, w) >= Newman(lv, Identity(lv.n), lv.n, w) && MergeOptimal(lv, r, w)
  {
    hide Quality, Climb, Represents, Newman;
    RepresentsItself(lv, w);
    ClimbRaises(lv, lv, Identity(lv.n), w);
    ClimbOptimal(lv, lv, Identity(lv.n), w);
    var c := Climb(lv, Identity(lv.n), 2.0 * w);
    RenumberFaithful(c);
    LabelsBelow(c);
    SameNewman(lv, c, Renumber(c), w);
    NewmanIsQuality(lv, c, lv.n, w);
    NewmanIsQuality(lv, Identity(lv.n), lv.n, w);
    forall x: nat, y: nat | x in Renumber(c) && y in Renumber(c)
      ensures Quality(lv, Merge(Renumber(c), x, y), w) <= Quality(lv, Renumber(c), w)
    {
      MergeRenumbered(lv, c, x, y, w);
    }
  }

  lemma LabelsBelow(c: seq<nat>)
    ensures forall i | 0 <= i < |c| :: Renumber(c)[i] < |c|
  {
    assert forall i | 0 <= i < |c| :: NumberAt(c, i) < |Order(c)|;
  }

  lemma DenseIdentity(n: nat)
    ensures Dense(Identity(n))
  {
    var r := Identity(n);
    forall i | 0 <= i < |r| && r[i] > 0 ensures Precedes(r, i) {
      assert r[..i][i - 1] == r[i] - 1;
    }
  }

  // ----- The imperative algorithm

  method IndexNodes<Id(==)>(nodes: seq<Id>) returns (idx: map<Id, nat>)
    ensures idx == Index(nodes, |nodes|)
  {
    idx := map[];
    for i := 0 to |nodes|
      invariant idx == Index(nodes, i)
    {
      idx := idx[nodes[i] := i];
    }
  }

  method IndexEdges<Id(==)>(g: Graph<Id>, idx: map<Id, nat>) returns (edges: seq<Edge>, totalWeight: real)
    requires idx == Index(g.nodes, |g.nodes|)
    ensures edges == IndexedEdges(g, |g.edges|) && totalWeight == EdgeWeight(g, |g.edges|)
    ensures EdgesOf(g, edges) && totalWeight == TotalWeight(g)
  {
    hide EdgesWithin, Index, EdgesAt, JoiningWeight;
    edges, totalWeight := [], 0.0;
    for k := 0 to |g.edges|
      invariant edges == IndexedEdges(g, k) && totalWeight == Sum(|edges|, Weights(edges))
    {
      var e := g.edges[k];
      if e.a in idx && e.b in idx && idx[e.a] != idx[e.b] {
        var added := Edge(idx[e.a], idx[e.b], e.weight);
        SumCongruence(|edges|, Weights(edges), Weights(edges + [added]));
        edges := edges + [added];
        totalWeight := totalWeight + e.weight;
      }
    }
    ghost var at := IndexedRight(g, |g.edges|);
    IndexedWeight(g, |g.edges|);
  }

  /** Assigns nodes their labels, the last one winning should a node be listed twice. */
  method Assign<Id(==)>(nodes: seq<Id>, labels: seq<nat>) returns (result: map<Id, nat>)
    requires |labels| == |nodes|
    ensures Assigns(nodes, labels, result)
  {
    hide Assigns, Index;
    result := map[];
    IndexNone(nodes);
    for i := 0 to |nodes|
      invariant result.Keys == Index(nodes, i).Keys
      invariant forall id | id in result :: result[id] == labels[Index(nodes, i)[id]]
    {
      IndexStep(nodes, i);
      result := result[nodes[i] := labels[i]];
    }
    IndexedAssigns(nodes, labels, result);
  }

  lemma IndexNone<Id>(nodes: seq<Id>)
    ensures Index(nodes, 0) == map[]
  {
  }

  lemma IndexStep<Id>(nodes: seq<Id>, i: nat)
    requires i < |nodes|
    ensures Index(nodes, i + 1) == Index(nodes, i)[nodes[i] := i]
  {
  }

  lemma IndexedAssigns<Id>(nodes: seq<Id>, labels: seq<nat>, result: map<Id, nat>)
    requires |labels| == |nodes| && result.Keys == Index(nodes, |nodes|).Keys
    requires forall id | id in result :: result[id] == labels[Index(nodes, |nodes|)[id]]
    ensures Assigns(nodes, labels, result)
  {
    hide Index;
    forall i | 0 <= i < |nodes| && nodes[i] !in nodes[i + 1..] ensures Index(nodes, |nodes|)[nodes[i]] == i {
      assert nodes[i + 1..] == nodes[i + 1..|nodes|];
      IndexLast(nodes, i, |nodes|);
    }
  }

  lemma NotIn<T>(s: seq<T>, x: T)
    requires s != [] && x !in s
    ensures x !in s[..|s| - 1] && x != s[|s| - 1]
  {
    assert s == s[..|s| - 1] + [s[|s| - 1]];
  }

  /** The index gives a node's last position. */
  lemma {:induction false} IndexLast<Id>(nodes: seq<Id>, i: nat, k: nat)
    requires i < k <= |nodes| && nodes[i] !in nodes[i + 1..k]
    ensures nodes[i] in Index(nodes, k) && Index(nodes, k)[nodes[i]] == i
  {
    hide Index;
    IndexStep(nodes, k - 1);
    if i < k - 1 {
      NotIn(nodes[i + 1..k], nodes[i]);
      assert nodes[i + 1..k][..k - i - 2] == nodes[i + 1..k - 1];
      IndexLast(nodes, i, k - 1);
    }
  }

  /** Moves every original node from its place in the old level to its place in the next one. */
  method ComposeFinal(final: array<nat>, comm: seq<nat>, remap: map<nat, nat>)
    requires Places(final[..], |comm|)
    requires forall i | 0 <= i < |comm| :: comm[i] in remap && remap[comm[i]] == Renumber(comm)[i]
    modifies final
    ensures final[..] == Compose(Renumber(comm), old(final[..]))
  {
    ghost var before := final[..];
    ghost var numbers := Renumber(comm);
    for i := 0 to final.Length
      invariant forall j | 0 <= j < i :: final[j] == numbers[before[j]]
      invariant forall j | i <= j < final.Length :: final[j] == before[j]
    {
      final[i] := remap[comm[final[i]]];
    }
    assert final[..] == Compose(numbers, before);
  }

  /** The outer loop: the original nodes' communities, or cancellation. */
  method ClimbLevels(level0: Level, m2: real, ctx: Context, tick: nat)
    returns (cancelled: bool, finalComm: seq<nat>)
    requires IsLevel(level0) && m2 != 0.0
    ensures cancelled <==> ctx.Err(tick + ClimbChecks(level0, m2) - 1)
    ensures !cancelled ==> finalComm == Climb(level0, Identity(level0.n), m2)
  {
    hide Settled, SettlingPasses, Aggregated, Climb, ClimbChecks, IsLevel, Shaped, Renumber, Order;
    var n := level0.n;
    var final := new nat[n](i => i);
    var cur, checks := level0, tick;
    ghost var last: nat := tick + ClimbChecks(level0, m2) - 1;
    assert final[..] == Identity(n);
    while true
      invariant IsLevel(cur) && Places(final[..], cur.n)
      invariant checks >= tick && checks + ClimbChecks(cur, m2) == last + 1
      invariant checks > tick ==> !ctx.Err(checks - 1)
      invariant Climb(cur, final[..], m2) == Climb(level0, Identity(n), m2)
      decreases cur.n
    {
      checks := checks + 1;
      if ctx.Err(checks - 1) {
        ErrStays(ctx, checks - 1, last);
        return true, [];
      }
      LevelShaped(cur);
      ChecksStep(cur, m2);
      var stopped, comm, moved;
      ghost var passes := SettlingPasses(cur, m2);
      ghost var before := checks;
      stopped, comm, moved, checks := MoveNodes(cur, m2, ctx, checks);
      if stopped {
        ErrStays(ctx, before + passes - 1, last);
        return true, [];
      }
      ClimbStep(cur, final[..], m2);
      if !moved {
        return false, final[..];
      }
      var next, newN, remap := Aggregate(cur, comm);
      ComposeFinal(final, comm, remap);
      cur := next;
      if newN == 1 {
        return false, final[..];
      }
    }
  }

  lemma ChecksStep(cur: Level, m2: real)
    requires IsLevel(cur) && m2 != 0.0 && Shaped(cur)
    ensures var comm, here := Settled(cur, m2), 1 + SettlingPasses(cur, m2);
            if comm == Identity(cur.n) then ClimbChecks(cur, m2) == here
            else
              var next := Aggregated(cur, comm);
              ClimbChecks(cur, m2) == here + if next.n == 1 then 0 else ClimbChecks(next, m2)
  {
    hide Settled, SettlingPasses;
    SettledEmpties(cur, m2);
  }

  lemma ClimbStep(cur: Level, final: seq<nat>, m2: real)
    requires IsLevel(cur) && Places(final, cur.n) && m2 != 0.0 && Shaped(cur)
    ensures var comm := Settled(cur, m2);
            if comm == Identity(cur.n) then Climb(cur, final, m2) == final
            else
              var next, composed := Aggregated(cur, comm), Compose(Renumber(comm), final);
              && next.n < cur.n && Places(composed, next.n)
              && Climb(cur, final, m2) == if next.n == 1 then composed else Climb(next, composed, m2)
  {
    SettledEmpties(cur, m2);
  }

  ghost function Score<Id>(g: Graph<Id>): real {
    var w, n := EdgeWeight(g, |g.edges|), |g.nodes|;
    if w == 0.0 then 0.0 else Newman(Original(g), Labels(g), n, w)
  }

  /** Every node, and nothing else, is assigned the label of its last position. */
  ghost predicate Assigns<Id>(nodes: seq<Id>, labels: seq<nat>, assignment: map<Id, nat>)
    requires |labels| == |nodes|
  {
    && (forall id | id in assignment :: id in nodes)
    && (forall i | 0 <= i < |nodes| :: nodes[i] in assignment)
    && (forall i | 0 <= i < |nodes| && nodes[i] !in nodes[i + 1..] :: assignment[nodes[i]] == labels[i])
  }

  /** The labels and score of a run on a graph with weight. */
  method Detect(level0: Level, totalWeight: real, ctx: Context)
    returns (cancelled: bool, labels: seq<nat>, q: real)
    requires IsLevel(level0) && totalWeight != 0.0 && forall i | 0 <= i < level0.n :: level0.selfLoop[i] == 0.0
    ensures cancelled <==> ctx.Err(ClimbChecks(level0, 2.0 * totalWeight))
    ensures !cancelled ==>
              && labels == Renumber(Climb(level0, Identity(level0.n), 2.0 * totalWeight))
              && q == Newman(level0, labels, level0.n, totalWeight)
  {
    hide Climb, ClimbChecks, Newman, Renumber;
    var n := level0.n;
    var stopped, finalComm := ClimbLevels(level0, 2.0 * totalWeight, ctx, 1);
    if stopped {
      return true, [], 0.0;
    }
    var count, remap;
    labels, count, remap := Compact(finalComm);
    q := Compute(n, level0.edges, level0.degree, totalWeight, finalComm, level0, n);
    LabelsBelow(finalComm);
    RenumberFaithful(finalComm);
    SameNewman(level0, finalComm, labels, totalWeight);
    return false, labels, q;
  }

  lemma WeightlessRun<Id>(g: Graph<Id>)
    requires EdgeWeight(g, |g.edges|) == 0.0
    ensures Labels(g) == Identity(|g.nodes|) && Score(g) == 0.0 && Checks(g) == 1
  {
  }

  lemma WeightedRun<Id>(g: Graph<Id>)
    requires EdgeWeight(g, |g.edges|) != 0.0 && g.nodes != []
    ensures var w, lv := EdgeWeight(g, |g.edges|), Original(g);
            && Labels(g) == Renumber(Climb(lv, Identity(lv.n), 2.0 * w))
            && Score(g) == Newman(lv, Labels(g), lv.n, w)
            && Checks(g) == 1 + ClimbChecks(lv, 2.0 * w)
  {
    hide Climb, ClimbChecks, Newman, Renumber, EdgeWeight;
  }

  /**
   * What a run returns, told of g alone: lv is g by index, the score is the
   * modularity of dense labels on it and, where no weight is negative, is
   * at least that of all singletons and of any merge of two communities.
   */
  ghost predicate Clustering<Id>(g: Graph<Id>, assignment: map<Id, nat>, modularity: real, lv: Level,
                                 labels: seq<nat>) {
    && |g.nodes| == |labels| == lv.n && IsLevel(lv) && EdgesOf(g, lv.edges) && lv.selfLoop == Zeros(lv.n)
    && Assigns(g.nodes, labels, assignment) && Dense(labels)
    && modularity == (if TotalWeight(g) == 0.0 then 0.0 else Quality(lv, labels, TotalWeight(g)))
    && (NonNegativeGraph(g) && TotalWeight(g) != 0.0 ==>
          modularity >= Quality(lv, Identity(lv.n), TotalWeight(g)) && MergeOptimal(lv, labels, TotalWeight(g)))
  }

  lemma ClusteringOf<Id>(g: Graph<Id>, assignment: map<Id, nat>)
    requires Assigns(g.nodes, Labels(g), assignment)
    ensures Clustering(g, assignment, Score(g), Original(g), Labels(g))
  {
    hide Climb, Newman, Quality, MergeOptimal, Assigns, IndexedEdges, JoiningWeight, EdgesAt;
    var n, w, lv := |g.nodes|, EdgeWeight(g, |g.edges|), Original(g);
    var at := IndexedRight(g, |g.edges|);
    IndexedWeight(g, |g.edges|);
    LabelsDense(g);
    if w != 0.0 {
      NewmanIsQuality(lv, Labels(g), n, w);
      NewmanIsQuality(lv, Identity(n), n, w);
      if NonNegativeGraph(g) {
        LabelsTheorem(g);
      }
    }
  }

  lemma LabelsDense<Id>(g: Graph<Id>)
    ensures Dense(Labels(g)) && forall i | 0 <= i < |g.nodes| :: Labels(g)[i] < |g.nodes|
  {
    hide Climb;
    if EdgeWeight(g, |g.edges|) == 0.0 {
      DenseIdentity(|g.nodes|);
    } else {
      var c := Climb(Original(g), Identity(|g.nodes|), 2.0 * EdgeWeight(g, |g.edges|));
      RenumberDense(c);
      LabelsBelow(c);
    }
  }

  /** A run is cancelled exactly when the context is done by the last check it would make. */
  method Run<Id(==)>(ctx: Context, g: Graph<Id>) returns (r: Outcome<Id>)
    ensures r.Cancelled? <==> ctx.Err(Checks(g) - 1)
    ensures r.Communities? ==> Assigns(g.nodes, Labels(g), r.assignment) && r.modularity == Score(g)
    ensures r.Communities? ==> exists lv, labels :: Clustering(g, r.assignment, r.modularity, lv, labels)
  {
    hide Climb, ClimbChecks, Newman, Renumber, Assigns, Original, EdgeWeight, Labels, Score, Checks,
         Index, IndexedEdges, Clustering, EdgesOf;
    if ctx.Err(0) {
      ErrStays(ctx, 0, Checks(g) - 1);
      return Cancelled;
    }
    var n := |g.nodes|;
    if n == 0 {
      EmptyGraph(g);
      WeightlessRun(g);
      ClusteringOf(g, map[]);
      return Communities(map[], 0.0);
    }
    var idx := IndexNodes(g.nodes);
    var level0Edges, totalWeight := IndexEdges(g, idx);
    if totalWeight == 0.0 {
      WeightlessRun(g);
      var ids := seq(n, i => i);
      assert ids == Identity(n);
      var result := Assign(g.nodes, ids);
      ClusteringOf(g, result);
      return Communities(result, 0.0);
    }
    WeightedRun(g);
    r := RunWeighted(ctx, g, level0Edges, totalWeight);
    if r.Communities? {
      ClusteringOf(g, r.assignment);
    }
  }

  /** The run of a graph that has nodes and weight. */
  method RunWeighted<Id(==)>(ctx: Context, g: Graph<Id>, level0Edges: seq<Edge>, totalWeight: real)
    returns (r: Outcome<Id>)
    requires level0Edges == IndexedEdges(g, |g.edges|) && totalWeight == EdgeWeight(g, |g.edges|) != 0.0
    ensures var lv := Original(g);
            var labels := Renumber(Climb(lv, Identity(lv.n), 2.0 * totalWeight));
            && (r.Cancelled? <==> ctx.Err(ClimbChecks(lv, 2.0 * totalWeight)))
            && (r.Communities? ==>
                  Assigns(g.nodes, labels, r.assignment) && r.modularity == Newman(lv, labels, lv.n, totalWeight))
  {
    hide Climb, ClimbChecks, Newman, Renumber, Assigns, LevelOf, EdgeWeight, IndexedEdges;
    var n := |g.nodes|;
    var none := seq(n, i => 0.0);
    assert none == Zeros(n);
    var level0 := BuildLevel(n, level0Edges, none);
    var cancelled, labels, q := Detect(level0, totalWeight, ctx);
    if cancelled {
      return Cancelled;
    }
    var result := Assign(g.nodes, labels);
    return Communities(result, q);
  }

  lemma EmptyGraph<Id>(g: Graph<Id>)
    requires g.nodes == []
    ensures EdgeWeight(g, |g.edges|) == 0.0 && Assigns(g.nodes, Labels(g), map[])
  {
    EdgesWithinNone(0, IndexedEdges(g, |g.edges|));
  }

  lemma EdgesWithinNone(n: nat, edges: seq<Edge>)
    requires EdgesWithin(n, edges)
    ensures |edges| > 0 ==> n > 0
  {
    if |edges| > 0 {
      assert edges[0].a < n;
    }
  }

  lemma SameNewman(lv: Level, comm: seq<nat>, comm': seq<nat>, m: real)
    requires m != 0.0 && IsLevel(lv) && IsPartition(lv, comm, lv.n) && IsPartition(lv, comm', lv.n)
    requires forall i, j | 0 <= i < lv.n && 0 <= j < lv.n :: comm[i] == comm[j] <==> comm'[i] == comm'[j]
    ensures Newman(lv, comm, lv.n, m) == Newman(lv, comm', lv.n, m)
  {
    hide Quality, Newman;
    NewmanIsQuality(lv, comm, lv.n, m);
    NewmanIsQuality(lv, comm', lv.n, m);
    QualityRelabel(lv, comm, comm', m);
  }
}
