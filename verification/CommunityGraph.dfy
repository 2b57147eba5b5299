/** One level of the aggregation hierarchy, and how it is built from edges. */
module CommunityGraph {
  import opened Sums

  datatype Edge = Edge(a: nat, b: nat, weight: real)

  datatype Neighbor = Neighbor(node: nat, weight: real)

  datatype Level = Level(n: nat, edges: seq<Edge>, adj: seq<seq<Neighbor>>,
                         selfLoop: seq<real>, degree: seq<real>)

  /** Edges join two different nodes below n. */
  ghost predicate EdgesWithin(n: nat, edges: seq<Edge>) {
    forall j | 0 <= j < |edges| :: edges[j].a < n && edges[j].b < n && edges[j].a != edges[j].b
  }

  ghost predicate NonNegative(edges: seq<Edge>, selfLoop: seq<real>) {
    && (forall j | 0 <= j < |edges| :: edges[j].weight >= 0.0)
    && (forall i | 0 <= i < |selfLoop| :: selfLoop[i] >= 0.0)
  }

  /** What edge j adds to node i's degree. */
  ghost function Incident(edges: seq<Edge>, i: nat): int -> real {
    j => if 0 <= j < |edges| then
        (if edges[j].a == i then edges[j].weight else 0.0) + (if edges[j].b == i then edges[j].weight else 0.0)
      else 0.0
  }

  /** Node i's neighbours along the first k edges, in edge order. */
  ghost function Adjacency(edges: seq<Edge>, i: nat, k: nat): seq<Neighbor>
    requires k <= |edges|
  {
    if k == 0 then []
    else
      var e := edges[k - 1];
      Adjacency(edges, i, k - 1)
      + (if e.a == i then [Neighbor(e.b, e.weight)] else [])
      + (if e.b == i then [Neighbor(e.a, e.weight)] else [])
  }

  /** Self-loops count twice, so that a super-node's degree is that of its members. */
  ghost function DegreeOf(edges: seq<Edge>, selfLoop: seq<real>, i: nat, k: nat): real
    requires i < |selfLoop|
  {
    2.0 * selfLoop[i] + Sum(k, Incident(edges, i))
  }

  ghost predicate IsLevel(lv: Level) {
    && |lv.selfLoop| == |lv.adj| == |lv.degree| == lv.n
    && EdgesWithin(lv.n, lv.edges)
    && (forall i | 0 <= i < lv.n :: lv.adj[i] == Adjacency(lv.edges, i, |lv.edges|))
    && (forall i | 0 <= i < lv.n :: lv.degree[i] == DegreeOf(lv.edges, lv.selfLoop, i, |lv.edges|))
  }

  ghost predicate NodesBelow(adj: seq<Neighbor>, n: nat) {
    forall p | 0 <= p < |adj| :: adj[p].node < n
  }

  /** As much of IsLevel as indexing needs. */
  ghost predicate Shaped(lv: Level) {
    && |lv.selfLoop| == |lv.adj| == |lv.degree| == lv.n
    && forall i | 0 <= i < lv.n :: NodesBelow(lv.adj[i], lv.n)
  }

  ghost function LevelOf(n: nat, edges: seq<Edge>, selfLoop: seq<real>): (lv: Level)
    requires |selfLoop| == n && EdgesWithin(n, edges)
    ensures IsLevel(lv) && lv.n == n && lv.edges == edges && lv.selfLoop == selfLoop
  {
    Level(n, edges,
          seq(n, i requires 0 <= i < n => Adjacency(edges, i, |edges|)),
          selfLoop,
          seq(n, i requires 0 <= i < n => DegreeOf(edges, selfLoop, i, |edges|)))
  }

  lemma NoEdgesYet(edges: seq<Edge>, selfLoop: seq<real>)
    ensures forall i: nat :: Adjacency(edges, i, 0) == []
    ensures forall i: nat | i < |selfLoop| :: DegreeOf(edges, selfLoop, i, 0) == 2.0 * selfLoop[i]
  {
  }

  /** What one edge adds to every node's adjacency and degree. */
  lemma OneEdge(edges: seq<Edge>, selfLoop: seq<real>, i: nat, k: nat)
    requires i < |selfLoop| && k < |edges| && edges[k].a != edges[k].b
    ensures var e := edges[k];
            && Adjacency(edges, i, k + 1)
               == Adjacency(edges, i, k) + (if e.a == i then [Neighbor(e.b, e.weight)]
                                            else if e.b == i then [Neighbor(e.a, e.weight)] else [])
            && DegreeOf(edges, selfLoop, i, k + 1)
               == DegreeOf(edges, selfLoop, i, k) + (if e.a == i || e.b == i then e.weight else 0.0)
  {
    var before := Adjacency(edges, i, k);
    assert before + [] == before;
  }

  method BuildLevel(n: nat, edges: seq<Edge>, selfLoop: seq<real>) returns (lv: Level)
    requires |selfLoop| == n && EdgesWithin(n, edges)
    ensures lv == LevelOf(n, edges, selfLoop)
  {
    hide Adjacency, DegreeOf, LevelOf;
    var adj := new seq<Neighbor>[n](_ => []);
    var degree := new real[n];
    for i := 0 to n
      invariant forall j | 0 <= j < n :: adj[j] == []
      invariant forall j | 0 <= j < i :: degree[j] == 2.0 * selfLoop[j]
    {
      degree[i] := 2.0 * selfLoop[i];
    }
    NoEdgesYet(edges, selfLoop);
    for k := 0 to |edges|
      invariant forall i | 0 <= i < n :: adj[i] == Adjacency(edges, i, k)
      invariant forall i | 0 <= i < n :: degree[i] == DegreeOf(edges, selfLoop, i, k)
    {
      var e := edges[k];
      forall i: nat | i < n {
        OneEdge(edges, selfLoop, i, k);
      }
      adj[e.a] := adj[e.a] + [Neighbor(e.b, e.weight)];
      adj[e.b] := adj[e.b] + [Neighbor(e.a, e.weight)];
      degree[e.a] := degree[e.a] + e.weight;
      degree[e.b] := degree[e.b] + e.weight;
    }
    lv := Level(n, edges, adj[..], selfLoop, degree[..]);
    LevelUnique(lv, LevelOf(n, edges, selfLoop));
  }

  lemma LevelUnique(x: Level, y: Level)
    requires IsLevel(x) && IsLevel(y)
    requires x.n == y.n && x.edges == y.edges && x.selfLoop == y.selfLoop
    ensures x == y
  {
    assert x.adj == y.adj;
    assert x.degree == y.degree;
  }

  /** The weight joining i to neighbours chosen by psi, over adjacency or over edges alike. */
  ghost function Chosen(adj: seq<Neighbor>, psi: nat -> bool): int -> real {
    p => if 0 <= p < |adj| && psi(adj[p].node) then adj[p].weight else 0.0
  }

  ghost function Joining(edges: seq<Edge>, i: nat, psi: nat -> bool): int -> real {
    j => if 0 <= j < |edges| then
        (if edges[j].a == i && psi(edges[j].b) then edges[j].weight else 0.0)
        + (if edges[j].b == i && psi(edges[j].a) then edges[j].weight else 0.0)
      else 0.0
  }

  lemma {:induction false} AdjacencySum(edges: seq<Edge>, i: nat, psi: nat -> bool, k: nat)
    requires k <= |edges|
    ensures var adj := Adjacency(edges, i, k);
            Sum(|adj|, Chosen(adj, psi)) == Sum(k, Joining(edges, i, psi))
  {
    if k > 0 {
      var e := edges[k - 1];
      var before := Adjacency(edges, i, k - 1);
      AdjacencySum(edges, i, psi, k - 1);
      var middle := before + if e.a == i then [Neighbor(e.b, e.weight)] else [];
      ChosenSnoc(before, Neighbor(e.b, e.weight), psi);
      ChosenSnoc(middle, Neighbor(e.a, e.weight), psi);
      assert before + [] == before && middle + [] == middle;
    }
  }

  lemma ChosenSnoc(adj: seq<Neighbor>, x: Neighbor, psi: nat -> bool)
    ensures Sum(|adj| + 1, Chosen(adj + [x], psi))
         == Sum(|adj|, Chosen(adj, psi)) + if psi(x.node) then x.weight else 0.0
  {
    SumCongruence(|adj|, Chosen(adj + [x], psi), Chosen(adj, psi));
  }

  /** Every neighbour in an adjacency list is the other end of some edge. */
  lemma {:induction false} AdjacencyWithin(n: nat, edges: seq<Edge>, i: nat, k: nat)
    requires k <= |edges| && EdgesWithin(n, edges)
    ensures forall p | 0 <= p < |Adjacency(edges, i, k)| ::
              var x := Adjacency(edges, i, k)[p]; x.node < n && x.node != i
  {
    if k > 0 {
      AdjacencyWithin(n, edges, i, k - 1);
    }
  }

  lemma LevelShaped(lv: Level)
    requires IsLevel(lv)
    ensures Shaped(lv)
  {
    forall i | 0 <= i < lv.n ensures NodesBelow(lv.adj[i], lv.n) {
      AdjacencyWithin(lv.n, lv.edges, i, |lv.edges|);
    }
  }

  lemma DegreeNonNegative(lv: Level, i: nat)
    requires IsLevel(lv) && NonNegative(lv.edges, lv.selfLoop) && i < lv.n
    ensures lv.degree[i] >= 0.0
  {
    SumNonNegative(|lv.edges|, Incident(lv.edges, i));
  }
}
