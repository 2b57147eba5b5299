/** Newman's modularity: its definition, its direct computation, and what one move changes. */
module Modularity {
  import opened Sums
  import opened CommunityGraph
  import opened RealAlgebra

  ghost predicate IsPartition(lv: Level, comm: seq<nat>, bound: nat) {
    && |lv.degree| == |lv.selfLoop| == |comm| == lv.n
    && forall i | 0 <= i < |comm| :: comm[i] < bound
  }

  /** Total degree of community c. */
  ghost function CommDegree(lv: Level, comm: seq<nat>, c: int): real {
    Sum(lv.n, Keyed(Key(comm), At(lv.degree), c))
  }

  ghost function CommDegrees(lv: Level, comm: seq<nat>): int -> real {
    c => CommDegree(lv, comm, c)
  }

  ghost function EndKey(edges: seq<Edge>, comm: seq<nat>): int -> int {
    j => if 0 <= j < |edges| && edges[j].a < |comm| then comm[edges[j].a] as int else -1
  }

  /** Edge j's weight if both its ends share a community. */
  ghost function Inside(edges: seq<Edge>, comm: seq<nat>): int -> real {
    j => if 0 <= j < |edges| && edges[j].a < |comm| && edges[j].b < |comm| && comm[edges[j].a] == comm[edges[j].b]
         then edges[j].weight else 0.0
  }

  /** Weight strictly inside community c: its members' self-loops and the edges between them. */
  ghost function Internal(lv: Level, comm: seq<nat>, c: int): real {
    Sum(lv.n, Keyed(Key(comm), At(lv.selfLoop), c))
    + Sum(|lv.edges|, Keyed(EndKey(lv.edges, comm), Inside(lv.edges, comm), c))
  }

  /** Community c's share of weight inside it, minus the square of its share of degree. */
  ghost function NewmanTerm(lv: Level, comm: seq<nat>, m: real): int -> real
    requires m != 0.0
  {
    c => Share(Internal(lv, comm, c), CommDegree(lv, comm, c), m)
  }

  /** Newman's Q of a partition whose ids lie below bound, for total edge weight m. */
  ghost function Newman(lv: Level, comm: seq<nat>, bound: nat, m: real): real
    requires m != 0.0
  {
    Sum(bound, NewmanTerm(lv, comm, m))
  }

  // ----- A form of Q that does not mention community ids

  ghost function Own(lv: Level, comm: seq<nat>): int -> real {
    i => if 0 <= i < |comm| then Times(CommDegree(lv, comm, comm[i]), At(lv.degree)(i)) else 0.0
  }

  ghost function InsideTotal(lv: Level, comm: seq<nat>): real {
    Sum(lv.n, At(lv.selfLoop)) + Sum(|lv.edges|, Inside(lv.edges, comm))
  }

  ghost function Quality(lv: Level, comm: seq<nat>, m: real): real
    requires m != 0.0
  {
    Balance(InsideTotal(lv, comm), Sum(lv.n, Own(lv, comm)), m)
  }

  ghost function Squares(lv: Level, comm: seq<nat>): int -> real {
    c => Square(CommDegree(lv, comm, c))
  }

  ghost function Internals(lv: Level, comm: seq<nat>): int -> real {
    c => Internal(lv, comm, c)
  }

  lemma SquaresTotal(lv: Level, comm: seq<nat>, bound: nat)
    requires IsPartition(lv, comm, bound)
    ensures Sum(bound, Squares(lv, comm)) == Sum(lv.n, Own(lv, comm))
  {
    SumByKey(bound, lv.n, Key(comm), At(lv.degree), CommDegrees(lv, comm), Squares(lv, comm), Own(lv, comm));
  }

  lemma InternalsTotal(lv: Level, comm: seq<nat>, bound: nat)
    requires IsPartition(lv, comm, bound)
    ensures Sum(bound, Internals(lv, comm)) == InsideTotal(lv, comm)
  {
    var loops := (c: int) => Sum(lv.n, Keyed(Key(comm), At(lv.selfLoop), c));
    var joins := (c: int) => Sum(|lv.edges|, Keyed(EndKey(lv.edges, comm), Inside(lv.edges, comm), c));
    SumPartition(bound, lv.n, Key(comm), At(lv.selfLoop), loops);
    SumPartition(bound, |lv.edges|, EndKey(lv.edges, comm), Inside(lv.edges, comm), joins);
    SumAdd(bound, loops, joins, Internals(lv, comm));
  }

  /** Newman's sum over communities equals the id-free form, whatever the ids. */
  lemma NewmanIsQuality(lv: Level, comm: seq<nat>, bound: nat, m: real)
    requires IsPartition(lv, comm, bound) && m != 0.0
    ensures Newman(lv, comm, bound, m) == Quality(lv, comm, m)
  {
    var p, r := 1.0 / m, -1.0 / (4.0 * m * m);
    forall c | 0 <= c < bound
      ensures NewmanTerm(lv, comm, m)(c) == Mix(p, Internals(lv, comm)(c), r, Squares(lv, comm)(c))
    {
      TermAlgebra(Internal(lv, comm, c), CommDegree(lv, comm, c), m);
    }
    SumMix(bound, Internals(lv, comm), Squares(lv, comm), NewmanTerm(lv, comm, m), p, r);
    TotalAlgebra(Sum(bound, Internals(lv, comm)), Sum(bound, Squares(lv, comm)), m);
    InternalsTotal(lv, comm, bound);
    SquaresTotal(lv, comm, bound);
  }

  /** Q depends only on which nodes share a community. */
  lemma QualityRelabel(lv: Level, comm: seq<nat>, comm': seq<nat>, m: real)
    requires m != 0.0 && EdgesWithin(lv.n, lv.edges)
    requires |comm| == |comm'| == |lv.degree| == |lv.selfLoop| == lv.n
    requires forall i, j | 0 <= i < lv.n && 0 <= j < lv.n :: comm[i] == comm[j] <==> comm'[i] == comm'[j]
    ensures Quality(lv, comm, m) == Quality(lv, comm', m)
  {
    SumCongruence(|lv.edges|, Inside(lv.edges, comm), Inside(lv.edges, comm'));
    forall i | 0 <= i < lv.n ensures Own(lv, comm)(i) == Own(lv, comm')(i) {
      SumCongruence(lv.n, Keyed(Key(comm), At(lv.degree), comm[i]), Keyed(Key(comm'), At(lv.degree), comm'[i]));
      assert CommDegree(lv, comm, comm[i]) == CommDegree(lv, comm', comm'[i]);
    }
    SumCongruence(lv.n, Own(lv, comm), Own(lv, comm'));
  }

  // ----- One node changing community

  ghost function InCommunity(comm: seq<nat>, c: int): nat -> bool {
    (i: nat) => i < |comm| && comm[i] == c
  }

  /** Weight joining node i to community c. */
  ghost function NeighSum(lv: Level, comm: seq<nat>, i: nat, c: int): real
    requires i < |lv.adj|
  {
    Sum(|lv.adj[i]|, Chosen(lv.adj[i], InCommunity(comm, c)))
  }

  /** Total degree of c once node i has been taken out of its community. */
  ghost function RestDegree(lv: Level, comm: seq<nat>, i: nat, c: int): real
    requires i < |comm| && i < |lv.degree|
  {
    CommDegree(lv, comm, c) - if comm[i] == c then lv.degree[i] else 0.0
  }

  /** The modularity gain formula for placing node i in community c. */
  ghost function Gain(lv: Level, comm: seq<nat>, i: nat, c: int, m2: real): real
    requires i < |comm| && i < |lv.degree| && i < |lv.adj| && m2 != 0.0
  {
    GainOf(NeighSum(lv, comm, i, c), RestDegree(lv, comm, i, c), lv.degree[i], m2)
  }

  lemma MoveDegree(lv: Level, comm: seq<nat>, x: nat, c: nat, d: int)
    requires |comm| == |lv.degree| == lv.n && x < lv.n && c != comm[x]
    ensures CommDegree(lv, comm[x := c], d) ==
            if d == c then CommDegree(lv, comm, d) + lv.degree[x]
            else if d == comm[x] then CommDegree(lv, comm, d) - lv.degree[x]
            else CommDegree(lv, comm, d)
  {
    SumUpdate(lv.n, Keyed(Key(comm), At(lv.degree), d), Keyed(Key(comm[x := c]), At(lv.degree), d), x);
  }

  lemma MoveInside(lv: Level, comm: seq<nat>, x: nat, c: nat)
    requires IsLevel(lv) && |comm| == lv.n && x < lv.n && c != comm[x]
    ensures InsideTotal(lv, comm[x := c]) ==
            InsideTotal(lv, comm) + NeighSum(lv, comm, x, c) - NeighSum(lv, comm, x, comm[x])
  {
    var edges, moved := lv.edges, comm[x := c];
    var gained := Joining(edges, x, InCommunity(comm, c));
    var lost := Joining(edges, x, InCommunity(comm, comm[x]));
    AdjacencySum(edges, x, InCommunity(comm, c), |edges|);
    AdjacencySum(edges, x, InCommunity(comm, comm[x]), |edges|);
    var both := (j: int) => Inside(edges, moved)(j) + lost(j);
    SumAdd(|edges|, Inside(edges, moved), lost, both);
    SumAdd(|edges|, Inside(edges, comm), gained, both);
  }

  lemma MoveSquares(lv: Level, comm: seq<nat>, x: nat, c: nat, bound: nat)
    requires IsPartition(lv, comm, bound) && x < lv.n && c < bound && c != comm[x]
    ensures Sum(lv.n, Own(lv, comm[x := c])) == Sum(lv.n, Own(lv, comm))
            + Shift(lv.degree[x], RestDegree(lv, comm, x, c), RestDegree(lv, comm, x, comm[x]))
  {
    var moved, from := comm[x := c], comm[x];
    SquaresTotal(lv, comm, bound);
    SquaresTotal(lv, moved, bound);
    var half := (d: int) => if d == c then Squares(lv, moved)(d) else Squares(lv, comm)(d);
    forall d | d != c && d != from ensures Squares(lv, moved)(d) == Squares(lv, comm)(d) {
      MoveDegree(lv, comm, x, c, d);
    }
    SumUpdate(bound, Squares(lv, comm), half, c);
    SumUpdate(bound, half, Squares(lv, moved), from);
    MoveDegree(lv, comm, x, c, c);
    MoveDegree(lv, comm, x, c, from);
    SquareAlgebra(CommDegree(lv, comm, c), CommDegree(lv, comm, from), lv.degree[x]);
  }

  /** Moving node x to community c changes Q by exactly the difference of gains over m. */
  lemma MoveChange(lv: Level, comm: seq<nat>, x: nat, c: nat, bound: nat, m: real)
    requires IsLevel(lv) && IsPartition(lv, comm, bound) && m != 0.0
    requires x < lv.n && c < bound && c != comm[x]
    ensures Quality(lv, comm[x := c], m) - Quality(lv, comm, m)
         == (Gain(lv, comm, x, c, 2.0 * m) - Gain(lv, comm, x, comm[x], 2.0 * m)) / m
  {
    MoveInside(lv, comm, x, c);
    MoveSquares(lv, comm, x, c, bound);
    GainAlgebra(InsideTotal(lv, comm), NeighSum(lv, comm, x, c), NeighSum(lv, comm, x, comm[x]),
                Sum(lv.n, Own(lv, comm)), RestDegree(lv, comm, x, c), RestDegree(lv, comm, x, comm[x]),
                lv.degree[x], m);
  }

  // ----- Direct computation

  ghost function Masked(done: set<nat>, f: int -> real): int -> real {
    c => if c in done then f(c) else 0.0
  }

  /** Only communities with a member contribute to Q. */
  lemma EmptyTerm(lv: Level, comm: seq<nat>, m: real, c: int)
    requires m != 0.0 && |comm| == lv.n && EdgesWithin(lv.n, lv.edges) && c !in comm
    ensures NewmanTerm(lv, comm, m)(c) == 0.0
  {
    SumZero(lv.n, Keyed(Key(comm), At(lv.degree), c));
    SumZero(lv.n, Keyed(Key(comm), At(lv.selfLoop), c));
    SumZero(|lv.edges|, Keyed(EndKey(lv.edges, comm), Inside(lv.edges, comm), c));
  }

  method InternalWeights(edges: seq<Edge>, comm: seq<nat>) returns (internals: map<nat, real>)
    requires EdgesWithin(|comm|, edges)
    ensures forall c: nat :: (if c in internals then internals[c] else 0.0)
                          == Sum(|edges|, Keyed(EndKey(edges, comm), Inside(edges, comm), c))
  {
    internals := map[];
    for j := 0 to |edges|
      invariant forall c: nat :: (if c in internals then internals[c] else 0.0)
                              == Sum(j, Keyed(EndKey(edges, comm), Inside(edges, comm), c))
    {
      var e := edges[j];
      if comm[e.a] == comm[e.b] {
        var c := comm[e.a];
        internals := internals[c := (if c in internals then internals[c] else 0.0) + e.weight];
      }
    }
  }

  method CommunityDegrees(degree: seq<real>, comm: seq<nat>) returns (degreeByComm: map<nat, real>)
    requires |degree| == |comm|
    ensures forall c: nat :: c in degreeByComm <==> c in comm
    ensures forall c: nat | c in degreeByComm :: degreeByComm[c] == Sum(|comm|, Keyed(Key(comm), At(degree), c))
  {
    degreeByComm := map[];
    for i := 0 to |comm|
      invariant forall c: nat :: c in degreeByComm <==> c in comm[..i]
      invariant forall c: nat :: (if c in degreeByComm then degreeByComm[c] else 0.0)
                              == Sum(i, Keyed(Key(comm), At(degree), c))
    {
      var c := comm[i];
      assert comm[..i + 1] == comm[..i] + [c];
      degreeByComm := degreeByComm[c := (if c in degreeByComm then degreeByComm[c] else 0.0) + degree[i]];
    }
    assert comm[..|comm|] == comm;
  }

  /**
   * Q from the original graph's edges and degrees, one term per community in
   * whatever order the map yields them. lv is the original graph's level.
   */
  method Compute(n: nat, edges: seq<Edge>, degree: seq<real>, totalWeight: real, comm: seq<nat>,
                 ghost lv: Level, ghost bound: nat) returns (q: real)
    requires IsLevel(lv) && lv.n == n && lv.edges == edges && lv.degree == degree
    requires forall i | 0 <= i < n :: lv.selfLoop[i] == 0.0
    requires IsPartition(lv, comm, bound)
    ensures totalWeight == 0.0 ==> q == 0.0
    ensures totalWeight != 0.0 ==> q == Newman(lv, comm, bound, totalWeight)
  {
    if totalWeight == 0.0 {
      return 0.0;
    }
    var internals := InternalWeights(edges, comm);
    var degreeByComm := CommunityDegrees(degree, comm);
    var m := totalWeight;
    ghost var term := NewmanTerm(lv, comm, m);
    q := 0.0;
    var todo := degreeByComm.Keys;
    ghost var done: set<nat> := {};
    SumZero(bound, Masked(done, term));
    while todo != {}
      invariant todo + done == degreeByComm.Keys && todo !! done
      invariant q == Sum(bound, Masked(done, term))
      decreases todo
    {
      var c :| c in todo;
      var w := if c in internals then internals[c] else 0.0;
      var d := degreeByComm[c];
      var t := Share(w, d, m);
      TermValue(lv, comm, m, c, d, w);
      ghost var before := q;
      AddTerm(bound, done, term, c);
      assert before + t == Sum(bound, Masked(done + {c}, term));
      q := q + t;
      todo, done := todo - {c}, done + {c};
    }
    forall c | 0 <= c < bound ensures Masked(done, term)(c) == term(c) {
      if c !in comm {
        EmptyTerm(lv, comm, m, c);
      }
    }
    SumCongruence(bound, Masked(done, term), term);
  }

  lemma TermValue(lv: Level, comm: seq<nat>, m: real, c: nat, d: real, w: real)
    requires m != 0.0 && |lv.selfLoop| == lv.n && forall i | 0 <= i < lv.n :: lv.selfLoop[i] == 0.0
    requires d == Sum(lv.n, Keyed(Key(comm), At(lv.degree), c))
    requires w == Sum(|lv.edges|, Keyed(EndKey(lv.edges, comm), Inside(lv.edges, comm), c))
    ensures NewmanTerm(lv, comm, m)(c) == Share(w, d, m)
  {
    SumZero(lv.n, Keyed(Key(comm), At(lv.selfLoop), c));
  }

  lemma AddTerm(bound: nat, done: set<nat>, f: int -> real, c: nat)
    requires c !in done && c < bound
    ensures Sum(bound, Masked(done + {c}, f)) == Sum(bound, Masked(done, f)) + f(c)
  {
    SumUpdate(bound, Masked(done, f), Masked(done + {c}, f), c);
  }
}
