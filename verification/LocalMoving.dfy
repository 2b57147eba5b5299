/** The local-moving phase: nodes visited in index order, each joining its best neighbouring community. */
module LocalMoving {
  import opened RealAlgebra
  import opened Sums
  import opened FirstSeen
  import opened CommunityGraph
  import opened Modularity

  const MAX_PASSES: nat := 1000

  ghost function Identity(n: nat): (r: seq<nat>)
    ensures |r| == n && forall i | 0 <= i < n :: r[i] == i
  {
    seq(n, i requires 0 <= i < n => i)
  }

  ghost predicate IsState(lv: Level, comm: seq<nat>) {
    Shaped(lv) && IsPartition(lv, comm, lv.n)
  }

  // ----- What one visit, one pass and the whole phase compute

  ghost function NeighbourComms(lv: Level, comm: seq<nat>, i: nat): (r: seq<nat>)
    requires IsState(lv, comm) && i < lv.n
    ensures |r| == |lv.adj[i]|
    ensures forall p | 0 <= p < |r| :: lv.adj[i][p].node < lv.n && r[p] == comm[lv.adj[i][p].node]
    ensures forall c | c in r :: c in comm && c < lv.n
  {
    assert NodesBelow(lv.adj[i], lv.n);
    seq(|lv.adj[i]|, p requires 0 <= p < |lv.adj[i]| => comm[lv.adj[i][p].node])
  }

  /** The neighbouring communities of i in the order its adjacency list meets them. */
  ghost function Candidates(lv: Level, comm: seq<nat>, i: nat): (r: seq<nat>)
    requires IsState(lv, comm) && i < lv.n
    ensures Distinct(r)
    ensures forall c | c in r :: c in comm && c < lv.n
  {
    Order(NeighbourComms(lv, comm, i))
  }

  /** The winner and its gain after the first k candidates; staying scores 0. */
  ghost function Best(lv: Level, comm: seq<nat>, i: nat, m2: real, k: nat): (nat, real)
    requires IsState(lv, comm) && i < lv.n && m2 != 0.0 && k <= |Candidates(lv, comm, i)|
  {
    if k == 0 then (comm[i], 0.0)
    else
      var best := Best(lv, comm, i, m2, k - 1);
      var c := Candidates(lv, comm, i)[k - 1];
      var gain := Gain(lv, comm, i, c, m2);
      if gain > best.1 then (c, gain) else best
  }

  ghost function Target(lv: Level, comm: seq<nat>, i: nat, m2: real): (c: nat)
    requires IsState(lv, comm) && i < lv.n && m2 != 0.0
    ensures c < lv.n && c in comm
  {
    BestFrom(lv, comm, i, m2, |Candidates(lv, comm, i)|);
    Best(lv, comm, i, m2, |Candidates(lv, comm, i)|).0
  }

  ghost function Visit(lv: Level, comm: seq<nat>, i: nat, m2: real): (r: seq<nat>)
    requires IsState(lv, comm) && i < lv.n && m2 != 0.0
    ensures IsState(lv, r)
    ensures forall c | c in r :: c in comm
  {
    comm[i := Target(lv, comm, i, m2)]
  }

  /** Nodes 0 to k - 1 visited in order. */
  ghost function Pass(lv: Level, comm: seq<nat>, m2: real, k: nat): (r: seq<nat>)
    requires IsState(lv, comm) && k <= lv.n && m2 != 0.0
    ensures IsState(lv, r)
    ensures forall i | k <= i < lv.n :: r[i] == comm[i]
    ensures forall c | c in r :: c in comm
  {
    if k == 0 then comm else Visit(lv, Pass(lv, comm, m2, k - 1), k - 1, m2)
  }

  /** Passes until one moves nothing, at most k of them. */
  ghost function Passes(lv: Level, comm: seq<nat>, m2: real, k: nat): (r: seq<nat>)
    requires IsState(lv, comm) && m2 != 0.0
    ensures IsState(lv, r)
    ensures forall c | c in r :: c in comm
    decreases k
  {
    if k == 0 || Pass(lv, comm, m2, lv.n) == comm then comm
    else Passes(lv, Pass(lv, comm, m2, lv.n), m2, k - 1)
  }

  /** How many passes that is, the one that moves nothing included. */
  ghost function PassCount(lv: Level, comm: seq<nat>, m2: real, k: nat): (n: nat)
    requires IsState(lv, comm) && m2 != 0.0
    ensures k > 0 ==> 1 <= n <= k
    decreases k
  {
    if k == 0 then 0
    else if Pass(lv, comm, m2, lv.n) == comm then 1
    else 1 + PassCount(lv, Pass(lv, comm, m2, lv.n), m2, k - 1)
  }

  ghost function SettlingPasses(lv: Level, m2: real): (n: nat)
    requires Shaped(lv) && m2 != 0.0
    ensures n >= 1
  {
    PassCount(lv, Identity(lv.n), m2, MAX_PASSES)
  }

  ghost function Settled(lv: Level, m2: real): (r: seq<nat>)
    requires Shaped(lv) && m2 != 0.0
    ensures IsState(lv, r)
  {
    Passes(lv, Identity(lv.n), m2, MAX_PASSES)
  }

  // ----- Which community a visit picks

  /** Either nothing gains and the node stays, or the earliest candidate of maximal positive gain wins. */
  ghost predicate Picks(lv: Level, comm: seq<nat>, i: nat, m2: real, k: nat, c: nat, gain: real)
    requires IsState(lv, comm) && i < lv.n && m2 != 0.0 && k <= |Candidates(lv, comm, i)|
  {
    var cand := Candidates(lv, comm, i);
    && (forall q | 0 <= q < k :: Gain(lv, comm, i, cand[q], m2) <= gain)
    && if gain == 0.0 then c == comm[i]
       else gain > 0.0 && exists p | 0 <= p < k :: WinsAt(lv, comm, i, m2, c, gain, p)
  }

  ghost predicate WinsAt(lv: Level, comm: seq<nat>, i: nat, m2: real, c: nat, gain: real, p: nat)
    requires IsState(lv, comm) && i < lv.n && m2 != 0.0 && p < |Candidates(lv, comm, i)|
  {
    var cand := Candidates(lv, comm, i);
    && cand[p] == c && Gain(lv, comm, i, c, m2) == gain
    && forall q | 0 <= q < p :: Gain(lv, comm, i, cand[q], m2) < gain
  }

  lemma {:induction false} BestPicks(lv: Level, comm: seq<nat>, i: nat, m2: real, k: nat)
    requires IsState(lv, comm) && i < lv.n && m2 != 0.0 && k <= |Candidates(lv, comm, i)|
    ensures var best := Best(lv, comm, i, m2, k); Picks(lv, comm, i, m2, k, best.0, best.1)
  {
    if k > 0 {
      BestPicks(lv, comm, i, m2, k - 1);
      var best := Best(lv, comm, i, m2, k);
      if best != Best(lv, comm, i, m2, k - 1) {
        assert WinsAt(lv, comm, i, m2, best.0, best.1, k - 1);
      }
    }
  }

  lemma {:induction false} BestFrom(lv: Level, comm: seq<nat>, i: nat, m2: real, k: nat)
    requires IsState(lv, comm) && i < lv.n && m2 != 0.0 && k <= |Candidates(lv, comm, i)|
    ensures var c := Best(lv, comm, i, m2, k).0; c < lv.n && c in comm
  {
    if k > 0 {
      BestFrom(lv, comm, i, m2, k - 1);
      assert Candidates(lv, comm, i)[k - 1] in Candidates(lv, comm, i);
    }
  }

  // ----- Modularity along a run

  /** A community no neighbour of i belongs to offers no positive gain. */
  lemma AbsentGain(lv: Level, comm: seq<nat>, i: nat, m2: real, c: nat)
    requires IsLevel(lv) && IsState(lv, comm) && NonNegative(lv.edges, lv.selfLoop) && i < lv.n && m2 > 0.0
    requires c !in Candidates(lv, comm, i)
    ensures Gain(lv, comm, i, c, m2) <= 0.0
  {
    var nc := NeighbourComms(lv, comm, i);
    forall p | 0 <= p < |lv.adj[i]| ensures Chosen(lv.adj[i], InCommunity(comm, c))(p) == 0.0 {
      assert nc[p] in nc;
    }
    SumZero(|lv.adj[i]|, Chosen(lv.adj[i], InCommunity(comm, c)));
    RestNonNegative(lv, comm, i, c);
    DegreeNonNegative(lv, i);
    ScaledNonNegative(RestDegree(lv, comm, i, c), lv.degree[i], m2);
  }

  lemma ScaledNonNegative(r: real, k: real, m2: real)
    requires r >= 0.0 && k >= 0.0 && m2 > 0.0
    ensures r * k / m2 >= 0.0
  {
    assert r * k >= 0.0;
  }

  lemma RestNonNegative(lv: Level, comm: seq<nat>, i: nat, c: nat)
    requires IsLevel(lv) && IsState(lv, comm) && NonNegative(lv.edges, lv.selfLoop) && i < lv.n
    ensures RestDegree(lv, comm, i, c) >= 0.0
  {
    forall j | 0 <= j < lv.n ensures lv.degree[j] >= 0.0 {
      DegreeNonNegative(lv, j);
    }
    var terms := Keyed(Key(comm), At(lv.degree), c);
    var rest := (j: int) => if j == i then 0.0 else terms(j);
    SumUpdate(lv.n, terms, rest, i);
    SumNonNegative(lv.n, rest);
  }

  /** The gain of i's own community is the greatest and positive, but some candidate met earlier has it too. */
  ghost predicate TiesLater(lv: Level, comm: seq<nat>, i: nat, m2: real)
    requires IsState(lv, comm) && i < lv.n && m2 != 0.0
  {
    exists q | 0 <= q < |Candidates(lv, comm, i)| :: TiesAt(lv, comm, i, m2, q)
  }

  ghost predicate TiesAt(lv: Level, comm: seq<nat>, i: nat, m2: real, q: nat)
    requires IsState(lv, comm) && i < lv.n && m2 != 0.0 && q < |Candidates(lv, comm, i)|
  {
    var cand := Candidates(lv, comm, i);
    var own := Gain(lv, comm, i, cand[q], m2);
    && cand[q] == comm[i] && own > 0.0
    && (forall j | 0 <= j < |cand| :: Gain(lv, comm, i, cand[j], m2) <= own)
    && exists p | 0 <= p < q :: Gain(lv, comm, i, cand[p], m2) == own
  }

  /** A node whose community ties later leaves it for the first candidate of the same gain. */
  lemma TieMoves(lv: Level, comm: seq<nat>, i: nat, m2: real, q: nat)
    requires IsState(lv, comm) && i < lv.n && m2 != 0.0
    requires q < |Candidates(lv, comm, i)| && TiesAt(lv, comm, i, m2, q)
    ensures var best := Best(lv, comm, i, m2, |Candidates(lv, comm, i)|);
            best.0 != comm[i] && best.1 == Gain(lv, comm, i, comm[i], m2)
  {
    hide Gain, Candidates;
    var cand := Candidates(lv, comm, i);
    BestPicks(lv, comm, i, m2, |cand|);
    var best := Best(lv, comm, i, m2, |cand|);
    var p :| 0 <= p < |cand| && WinsAt(lv, comm, i, m2, best.0, best.1, p);
    var e :| 0 <= e < q && Gain(lv, comm, i, cand[e], m2) == Gain(lv, comm, i, cand[q], m2);
    assert p <= e;
    assert cand[p] != cand[q];
  }

  /** What one visit does to Q: it never lowers it, and moves the node without raising it exactly on a later tie. */
  lemma VisitRaises(lv: Level, comm: seq<nat>, i: nat, m: real)
    requires IsLevel(lv) && IsState(lv, comm) && NonNegative(lv.edges, lv.selfLoop) && i < lv.n && m > 0.0
    ensures Quality(lv, Visit(lv, comm, i, 2.0 * m), m) >= Quality(lv, comm, m)
    ensures Visit(lv, comm, i, 2.0 * m) != comm && Quality(lv, Visit(lv, comm, i, 2.0 * m), m) == Quality(lv, comm, m)
            <==> TiesLater(lv, comm, i, 2.0 * m)
  {
    hide Quality, Gain;
    var m2, cand, from := 2.0 * m, Candidates(lv, comm, i), comm[i];
    var best := Best(lv, comm, i, m2, |cand|);
    BestPicks(lv, comm, i, m2, |cand|);
    BestFrom(lv, comm, i, m2, |cand|);
    forall q | 0 <= q < |cand| && TiesAt(lv, comm, i, m2, q)
      ensures best.0 != from && best.1 == Gain(lv, comm, i, from, m2)
    {
      TieMoves(lv, comm, i, m2, q);
    }
    if best.0 == from {
      assert Visit(lv, comm, i, m2) == comm;
    } else {
      assert Visit(lv, comm, i, m2)[i] != comm[i];
      MoveChange(lv, comm, i, best.0, lv.n, m);
      MoverTies(lv, comm, i, m2);
      QuotientSign(best.1 - Gain(lv, comm, i, from, m2), m);
    }
  }

  /** A node that moves gains at least what its own community offered, and as much only on a later tie. */
  lemma MoverTies(lv: Level, comm: seq<nat>, i: nat, m2: real)
    requires IsLevel(lv) && IsState(lv, comm) && NonNegative(lv.edges, lv.selfLoop) && i < lv.n && m2 > 0.0
    requires Best(lv, comm, i, m2, |Candidates(lv, comm, i)|).0 != comm[i]
    ensures var best := Best(lv, comm, i, m2, |Candidates(lv, comm, i)|).1;
            var own := Gain(lv, comm, i, comm[i], m2);
            best >= own && (best == own ==> TiesLater(lv, comm, i, m2))
  {
    hide Gain, Candidates;
    var cand, from := Candidates(lv, comm, i), comm[i];
    var best := Best(lv, comm, i, m2, |cand|);
    BestPicks(lv, comm, i, m2, |cand|);
    var p :| 0 <= p < |cand| && WinsAt(lv, comm, i, m2, best.0, best.1, p);
    if from !in cand {
      AbsentGain(lv, comm, i, m2, from);
    } else {
      var q :| 0 <= q < |cand| && cand[q] == from;
      if best.1 == Gain(lv, comm, i, from, m2) {
        assert p < q;
        assert TiesAt(lv, comm, i, m2, q);
      }
    }
  }

  lemma QuotientSign(x: real, m: real)
    requires m > 0.0
    ensures x > 0.0 ==> x / m > 0.0
    ensures x == 0.0 ==> x / m == 0.0
  {
  }

  lemma {:induction false} PassRaises(lv: Level, comm: seq<nat>, m: real, k: nat)
    requires IsLevel(lv) && IsState(lv, comm) && NonNegative(lv.edges, lv.selfLoop) && m > 0.0 && k <= lv.n
    ensures Quality(lv, Pass(lv, comm, 2.0 * m, k), m) >= Quality(lv, comm, m)
  {
    hide Quality, Visit;
    if k > 0 {
      PassRaises(lv, comm, m, k - 1);
      VisitRaises(lv, Pass(lv, comm, 2.0 * m, k - 1), k - 1, m);
    }
  }

  lemma {:induction false} PassesRaise(lv: Level, comm: seq<nat>, m: real, k: nat)
    requires IsLevel(lv) && IsState(lv, comm) && NonNegative(lv.edges, lv.selfLoop) && m > 0.0
    ensures Quality(lv, Passes(lv, comm, 2.0 * m, k), m) >= Quality(lv, comm, m)
    decreases k
  {
    hide Quality, Visit;
    if k > 0 && Pass(lv, comm, 2.0 * m, lv.n) != comm {
      PassRaises(lv, comm, m, lv.n);
      PassesRaise(lv, Pass(lv, comm, 2.0 * m, lv.n), m, k - 1);
    }
  }

  // ----- Communities emptied by moves never refill

  ghost predicate Vacant(comm: seq<nat>, c: nat) {
    c !in comm
  }

  ghost predicate SomeVacant(comm: seq<nat>) {
    exists c: nat | c < |comm| :: Vacant(comm, c)
  }

  lemma IdentityFull(n: nat)
    ensures !SomeVacant(Identity(n))
  {
    forall c: nat | c < n ensures !Vacant(Identity(n), c) {
      assert Identity(n)[c] == c;
    }
  }

  lemma IdentityMove(n: nat, x: nat, t: nat)
    requires x < n && t != x
    ensures SomeVacant(Identity(n)[x := t])
  {
    assert Vacant(Identity(n)[x := t], x);
  }

  lemma VacancyStays(comm: seq<nat>, next: seq<nat>)
    requires |next| == |comm| && forall c | c in next :: c in comm
    requires SomeVacant(comm)
    ensures SomeVacant(next)
  {
    var c: nat :| c < |comm| && Vacant(comm, c);
    assert Vacant(next, c);
  }

  /** If any node moved, some community that started with one member ends empty. */
  lemma {:induction false} PassEmpties(lv: Level, m2: real, k: nat)
    requires Shaped(lv) && m2 != 0.0 && k <= lv.n
    ensures var r := Pass(lv, Identity(lv.n), m2, k); r == Identity(lv.n) || SomeVacant(r)
  {
    hide Target, SomeVacant;
    var id := Identity(lv.n);
    if k > 0 {
      PassEmpties(lv, m2, k - 1);
      var before, after := Pass(lv, id, m2, k - 1), Pass(lv, id, m2, k);
      if before != id {
        VacancyStays(before, after);
      } else if after != id {
        var t := Target(lv, id, k - 1, m2);
        assert after == id[k - 1 := t];
        IdentityMove(lv.n, k - 1, t);
      }
    }
  }

  lemma SettledEmpties(lv: Level, m2: real)
    requires Shaped(lv) && m2 != 0.0
    ensures Settled(lv, m2) != Identity(lv.n) ==> |Order(Settled(lv, m2))| < lv.n
  {
    var id, r := Identity(lv.n), Settled(lv, m2);
    if r != id {
      var first := Pass(lv, id, m2, lv.n);
      PassEmpties(lv, m2, lv.n);
      VacancyStays(first, r);
      var c: nat :| c < lv.n && Vacant(r, c);
      OrderShorter(r, lv.n, c);
    }
  }

  // ----- The imperative phase

  function WeightTo(sums: map<nat, real>, c: nat): real {
    if c in sums then sums[c] else 0.0
  }

  /** The first p neighbours of i have been scanned. */
  ghost predicate Scanned(lv: Level, comm: seq<nat>, i: nat, p: nat, neighOrder: seq<nat>, neighSum: map<nat, real>)
    requires IsState(lv, comm) && i < lv.n && p <= |lv.adj[i]|
  {
    && neighOrder == Order(NeighbourComms(lv, comm, i)[..p])
    && (forall c :: c in neighSum <==> c in neighOrder)
    && Summed(lv, comm, i, p, neighSum)
  }

  ghost predicate Summed(lv: Level, comm: seq<nat>, i: nat, p: nat, sums: map<nat, real>)
    requires i < |lv.adj|
  {
    forall c: nat :: WeightTo(sums, c) == Sum(p, Chosen(lv.adj[i], InCommunity(comm, c)))
  }

  lemma ScanStart(lv: Level, comm: seq<nat>, i: nat)
    requires IsState(lv, comm) && i < lv.n
    ensures |lv.adj| == |comm| == lv.n && NodesBelow(lv.adj[i], lv.n) && Scanned(lv, comm, i, 0, [], map[])
  {
    EmptyOrder<nat>();
    assert NeighbourComms(lv, comm, i)[..0] == [];
  }

  lemma ScanOne(lv: Level, comm: seq<nat>, i: nat, p: nat, neighOrder: seq<nat>, neighSum: map<nat, real>,
                c: nat, order: seq<nat>, sums: map<nat, real>)
    requires IsState(lv, comm) && i < lv.n && p < |lv.adj[i]| && Scanned(lv, comm, i, p, neighOrder, neighSum)
    requires NodesBelow(lv.adj[i], lv.n) && c == comm[lv.adj[i][p].node]
    requires order == if c in neighSum then neighOrder else neighOrder + [c]
    requires sums == neighSum[c := WeightTo(neighSum, c) + lv.adj[i][p].weight]
    ensures Scanned(lv, comm, i, p + 1, order, sums)
  {
    hide Order, Sum, Summed;
    ScanOrder(NeighbourComms(lv, comm, i), p, c, neighOrder);
    ScanSums(lv, comm, i, p, neighSum, c, sums);
  }

  lemma ScanSums(lv: Level, comm: seq<nat>, i: nat, p: nat, neighSum: map<nat, real>, c: nat, sums: map<nat, real>)
    requires IsState(lv, comm) && i < lv.n && p < |lv.adj[i]| && Summed(lv, comm, i, p, neighSum)
    requires NodesBelow(lv.adj[i], lv.n) && c == comm[lv.adj[i][p].node]
    requires sums == neighSum[c := WeightTo(neighSum, c) + lv.adj[i][p].weight]
    ensures Summed(lv, comm, i, p + 1, sums)
  {
    hide Sum;
    ChosenStep(lv, comm, i, p);
    forall x: nat ensures WeightTo(sums, x) == Sum(p + 1, Chosen(lv.adj[i], InCommunity(comm, x))) {
      assert WeightTo(neighSum, x) == Sum(p, Chosen(lv.adj[i], InCommunity(comm, x)));
    }
  }

  lemma ScanOrder(nc: seq<nat>, p: nat, c: nat, neighOrder: seq<nat>)
    requires p < |nc| && c == nc[p] && neighOrder == Order(nc[..p])
    ensures Order(nc[..p + 1]) == if c in neighOrder then neighOrder else neighOrder + [c]
    ensures forall x :: x in neighOrder + [c] <==> x in neighOrder || x == c
  {
    OrderStep(nc, p);
  }

  /** The neighbouring communities of i in order of first meeting, each with the weight joining it. */
  ghost predicate IsScan(lv: Level, comm: seq<nat>, i: nat, neighOrder: seq<nat>, neighSum: map<nat, real>)
    requires IsState(lv, comm) && i < lv.n
  {
    && neighOrder == Candidates(lv, comm, i)
    && (forall c :: c in neighSum <==> c in neighOrder)
    && (forall c | c in neighSum :: neighSum[c] == NeighSum(lv, comm, i, c))
  }

  lemma ScanEnd(lv: Level, comm: seq<nat>, i: nat, neighOrder: seq<nat>, neighSum: map<nat, real>)
    requires IsState(lv, comm) && i < lv.n && Scanned(lv, comm, i, |lv.adj[i]|, neighOrder, neighSum)
    ensures IsScan(lv, comm, i, neighOrder, neighSum)
  {
    var nc := NeighbourComms(lv, comm, i);
    hide Order, Sum;
    assert nc[..|nc|] == nc;
    forall c | c in neighSum ensures neighSum[c] == NeighSum(lv, comm, i, c) {
      assert WeightTo(neighSum, c) == Sum(|lv.adj[i]|, Chosen(lv.adj[i], InCommunity(comm, c)));
    }
  }

  /** Each neighbouring community with the weight joining it, in order of first meeting. */
  method ScanNeighbors(lv: Level, comm: array<nat>, i: nat)
    returns (neighOrder: seq<nat>, neighSum: map<nat, real>)
    requires IsState(lv, comm[..]) && i < lv.n
    ensures IsScan(lv, comm[..], i, neighOrder, neighSum)
  {
    ghost var state := comm[..];
    ScanStart(lv, state, i);
    var neighbours := lv.adj[i];
    assert forall p | 0 <= p < |neighbours| :: neighbours[p].node < comm.Length;
    hide *;
    neighOrder, neighSum := [], map[];
    for p := 0 to |neighbours|
      invariant Scanned(lv, state, i, p, neighOrder, neighSum)
    {
      var nb := neighbours[p];
      var c := comm[nb.node];
      ghost var order, sums := neighOrder, neighSum;
      if c !in neighSum {
        neighOrder := neighOrder + [c];
      }
      neighSum := neighSum[c := WeightTo(neighSum, c) + nb.weight];
      ScanOne(lv, state, i, p, order, sums, c, neighOrder, neighSum);
    }
    ScanEnd(lv, state, i, neighOrder, neighSum);
  }

  lemma ChosenStep(lv: Level, comm: seq<nat>, i: nat, p: nat)
    requires IsState(lv, comm) && i < lv.n && p < |lv.adj[i]| && lv.adj[i][p].node < lv.n
    ensures forall c: nat :: Sum(p + 1, Chosen(lv.adj[i], InCommunity(comm, c)))
                          == Sum(p, Chosen(lv.adj[i], InCommunity(comm, c)))
                             + if comm[lv.adj[i][p].node] == c then lv.adj[i][p].weight else 0.0
  {
  }

  /** The candidate of greatest positive gain, given sigmaTot with i already taken out. */
  method PickBest(lv: Level, comm: array<nat>, sigmaTot: array<real>, i: nat, m2: real)
    returns (bestComm: nat)
    requires IsState(lv, comm[..]) && i < lv.n && m2 != 0.0 && WithoutOne(lv, comm[..], i, sigmaTot[..])
    ensures bestComm == Target(lv, comm[..], i, m2)
  {
    hide GainOf, NeighSum, RestDegree;
    ghost var state := comm[..];
    var neighOrder, neighSum := ScanNeighbors(lv, comm, i);
    var ki := lv.degree[i];
    bestComm := comm[i];
    var bestGain := 0.0;
    for k := 0 to |neighOrder|
      invariant bestComm == Best(lv, state, i, m2, k).0
      invariant bestGain == Best(lv, state, i, m2, k).1
    {
      var c := neighOrder[k];
      assert c in neighSum;
      var gain := GainOf(neighSum[c], sigmaTot[c], ki, m2);
      assert gain == Gain(lv, state, i, c, m2);
      if gain > bestGain {
        bestGain := gain;
        bestComm := c;
      }
    }
  }

  /** A cancellable context: done from its given check onwards, or never. */
  datatype Context = Background | DoneAfter(limit: nat) {
    predicate Err(check: nat) {
      DoneAfter? && check >= limit
    }
  }

  /** Once done, a context stays done. */
  lemma ErrStays(ctx: Context, check: nat, later: nat)
    requires ctx.Err(check) && check <= later
    ensures ctx.Err(later)
  {
  }

  /**
   * tick counts the context checks made before the call, checks those made
   * by its end. The phase checks once a pass, and is cancelled exactly when
   * the context is done by the last of the passes it would make.
   */
  method MoveNodes(lv: Level, m2: real, ctx: Context, tick: nat)
    returns (cancelled: bool, comm: seq<nat>, moved: bool, checks: nat)
    requires Shaped(lv) && m2 != 0.0
    ensures cancelled <==> ctx.Err(tick + SettlingPasses(lv, m2) - 1)
    ensures !cancelled ==> checks == tick + SettlingPasses(lv, m2)
    ensures !cancelled ==> comm == Settled(lv, m2) && (moved <==> comm != Identity(lv.n))
  {
    var n := lv.n;
    var membership := new nat[n](i => i);
    var sigmaTot := new real[n](i requires 0 <= i < n => lv.degree[i]);
    assert membership[..] == Identity(n);
    SingletonDegrees(lv);
    AtStart(lv, m2, sigmaTot[..]);
    hide CommDegree, Settled, SettlingPasses, AtPass;
    cancelled, moved, checks := RunPasses(lv, m2, membership, sigmaTot, ctx, tick);
    comm := if cancelled then [] else membership[..];
  }

  /** How the phase ends: cancelled, or settled after all its passes. */
  ghost predicate Ended(lv: Level, m2: real, ctx: Context, tick: nat, cancelled: bool, state: seq<nat>, moved: bool,
                        checks: nat)
    requires Shaped(lv) && m2 != 0.0
  {
    && (cancelled <==> ctx.Err(tick + SettlingPasses(lv, m2) - 1))
    && (!cancelled ==> checks == tick + SettlingPasses(lv, m2))
    && (!cancelled ==> state == Settled(lv, m2) && (moved <==> state != Identity(lv.n)))
  }

  lemma EndsCancelled(lv: Level, m2: real, ctx: Context, tick: nat, state: seq<nat>, left: nat, moved: bool)
    requires IsState(lv, state) && m2 != 0.0 && 0 < left <= MAX_PASSES && Running(lv, m2, state, left, moved)
    requires ctx.Err(tick + MAX_PASSES - left)
    ensures Ended(lv, m2, ctx, tick, true, state, false, tick)
  {
    hide Passes, Settled, SettlingPasses, SomeVacant;
    ErrStays(ctx, tick + MAX_PASSES - left, tick + SettlingPasses(lv, m2) - 1);
  }

  lemma EndsSettled(lv: Level, m2: real, ctx: Context, tick: nat, state: seq<nat>, left: nat, moved: bool)
    requires IsState(lv, state) && m2 != 0.0 && left <= MAX_PASSES && Running(lv, m2, state, left, moved)
    requires left > 0 ==> Pass(lv, state, m2, lv.n) == state
    requires !ctx.Err(tick + MAX_PASSES - left - (if left == 0 then 1 else 0))
    ensures Ended(lv, m2, ctx, tick, false, state, moved, tick + MAX_PASSES - left + (if left == 0 then 0 else 1))
  {
    hide Passes, Settled, SettlingPasses, SomeVacant, Pass;
    if left == 0 {
      RunningEnd(lv, m2, state, moved);
    } else {
      RunningStep(lv, m2, state, left, moved);
    }
  }

  /** Passes until one moves nothing, starting from every node alone. */
  method RunPasses(lv: Level, m2: real, membership: array<nat>, sigmaTot: array<real>, ctx: Context, tick: nat)
    returns (cancelled: bool, moved: bool, checks: nat)
    requires Shaped(lv) && m2 != 0.0 && AtPass(lv, m2, membership[..], sigmaTot[..], MAX_PASSES, false)
    modifies membership, sigmaTot
    ensures Ended(lv, m2, ctx, tick, cancelled, membership[..], moved, checks)
  {
    hide *;
    checks, moved := tick, false;
    ghost var left := MAX_PASSES;
    for pass := 0 to MAX_PASSES
      invariant left == MAX_PASSES - pass && checks == tick + pass
      invariant checks > tick ==> !ctx.Err(checks - 1)
      invariant AtPass(lv, m2, membership[..], sigmaTot[..], left, moved)
    {
      checks := checks + 1;
      if ctx.Err(checks - 1) {
        PassCancelled(lv, m2, ctx, tick, membership[..], sigmaTot[..], left, moved, checks);
        return true, moved, checks;
      }
      var movedThisPass := NextPass(lv, m2, membership, sigmaTot, left, moved);
      if !movedThisPass {
        break;
      }
      moved := true;
      left := left - 1;
    }
    PassSettled(lv, m2, ctx, tick, membership[..], sigmaTot[..], left, moved, checks);
    return false, moved, checks;
  }

  /** The phase stands between passes, with at most left to go. */
  ghost predicate AtPass(lv: Level, m2: real, state: seq<nat>, sigma: seq<real>, left: nat, moved: bool)
    requires m2 != 0.0
  {
    IsState(lv, state) && Totals(lv, state, sigma) && Running(lv, m2, state, left, moved)
  }

  /** The next pass would move nothing. */
  ghost predicate AtRest(lv: Level, m2: real, state: seq<nat>)
    requires m2 != 0.0
  {
    IsState(lv, state) && Pass(lv, state, m2, lv.n) == state
  }

  lemma AtStart(lv: Level, m2: real, sigma: seq<real>)
    requires Shaped(lv) && m2 != 0.0 && Totals(lv, Identity(lv.n), sigma)
    ensures AtPass(lv, m2, Identity(lv.n), sigma, MAX_PASSES, false)
  {
    hide Totals;
    RunningStart(lv, m2);
  }

  lemma PassCancelled(lv: Level, m2: real, ctx: Context, tick: nat, state: seq<nat>, sigma: seq<real>, left: nat,
                      moved: bool, checks: nat)
    requires m2 != 0.0 && 0 < left <= MAX_PASSES && AtPass(lv, m2, state, sigma, left, moved)
    requires checks == tick + (MAX_PASSES - left) + 1 && ctx.Err(checks - 1)
    ensures Shaped(lv) && Ended(lv, m2, ctx, tick, true, state, moved, checks)
  {
    hide Totals, Running;
    EndsCancelled(lv, m2, ctx, tick, state, left, moved);
  }

  lemma PassSettled(lv: Level, m2: real, ctx: Context, tick: nat, state: seq<nat>, sigma: seq<real>, left: nat,
                    moved: bool, checks: nat)
    requires m2 != 0.0 && left <= MAX_PASSES && AtPass(lv, m2, state, sigma, left, moved)
    requires left > 0 ==> AtRest(lv, m2, state)
    requires checks == tick + (MAX_PASSES - left) + (if left == 0 then 0 else 1)
    requires checks > tick ==> !ctx.Err(checks - 1)
    ensures Shaped(lv) && Ended(lv, m2, ctx, tick, false, state, moved, checks)
  {
    hide Totals, Running, Ended, Pass;
    EndsSettled(lv, m2, ctx, tick, state, left, moved);
  }

  /** One more pass: it takes the phase on, or shows it at rest. */
  method NextPass(lv: Level, m2: real, membership: array<nat>, sigmaTot: array<real>,
                  ghost left: nat, ghost moved: bool)
    returns (movedThisPass: bool)
    requires m2 != 0.0 && left > 0 && AtPass(lv, m2, membership[..], sigmaTot[..], left, moved)
    modifies membership, sigmaTot
    ensures movedThisPass ==> AtPass(lv, m2, membership[..], sigmaTot[..], left - 1, true)
    ensures !movedThisPass ==>
              AtPass(lv, m2, membership[..], sigmaTot[..], left, moved) && AtRest(lv, m2, membership[..])
  {
    hide Totals, Running, Pass;
    ghost var state := membership[..];
    movedThisPass := RunPass(lv, m2, membership, sigmaTot);
    RunningStep(lv, m2, state, left, moved);
  }

  /** The phase has reached this state, with at most left passes to go. */
  ghost predicate Running(lv: Level, m2: real, state: seq<nat>, left: nat, moved: bool)
    requires IsState(lv, state) && m2 != 0.0
  {
    && Passes(lv, state, m2, left) == Settled(lv, m2)
    && PassCount(lv, state, m2, left) + (MAX_PASSES - left) == SettlingPasses(lv, m2)
    && if moved then SomeVacant(state) else left == MAX_PASSES && state == Identity(lv.n)
  }

  lemma RunningStart(lv: Level, m2: real)
    requires Shaped(lv) && m2 != 0.0
    ensures Running(lv, m2, Identity(lv.n), MAX_PASSES, false)
  {
  }

  lemma RunningStep(lv: Level, m2: real, state: seq<nat>, left: nat, moved: bool)
    requires IsState(lv, state) && m2 != 0.0 && left > 0 && Running(lv, m2, state, left, moved)
    ensures var next := Pass(lv, state, m2, lv.n);
            if next == state
            then state == Settled(lv, m2) && (moved <==> state != Identity(lv.n))
                 && MAX_PASSES - left + 1 == SettlingPasses(lv, m2)
            else Running(lv, m2, next, left - 1, true)
  {
    hide SomeVacant, Pass, Settled, SettlingPasses;
    PassesStep(lv, state, m2, left);
    IdentityFull(lv.n);
    if moved {
      VacancyStays(state, Pass(lv, state, m2, lv.n));
    } else {
      PassEmpties(lv, m2, lv.n);
    }
  }

  lemma RunningEnd(lv: Level, m2: real, state: seq<nat>, moved: bool)
    requires IsState(lv, state) && m2 != 0.0 && Running(lv, m2, state, 0, moved)
    ensures state == Settled(lv, m2) && (moved <==> state != Identity(lv.n))
    ensures MAX_PASSES == SettlingPasses(lv, m2)
  {
    hide SomeVacant, Settled, SettlingPasses;
    IdentityFull(lv.n);
  }

  lemma SingletonDegrees(lv: Level)
    requires Shaped(lv)
    ensures forall c | 0 <= c < lv.n :: CommDegree(lv, Identity(lv.n), c) == lv.degree[c]
  {
    forall c | 0 <= c < lv.n ensures CommDegree(lv, Identity(lv.n), c) == lv.degree[c] {
      SumSingle(lv.n, Keyed(Key(Identity(lv.n)), At(lv.degree), c), c);
    }
  }

  lemma PassesStep(lv: Level, comm: seq<nat>, m2: real, k: nat)
    requires IsState(lv, comm) && m2 != 0.0
    ensures k == 0 || Pass(lv, comm, m2, lv.n) == comm ==> Passes(lv, comm, m2, k) == comm
    ensures k > 0 ==> Passes(lv, comm, m2, k) == Passes(lv, Pass(lv, comm, m2, lv.n), m2, k - 1)
  {
  }

  /** sigma holds each community's total degree. */
  ghost predicate Totals(lv: Level, comm: seq<nat>, sigma: seq<real>) {
    |sigma| == lv.n && forall c | 0 <= c < lv.n :: sigma[c] == CommDegree(lv, comm, c)
  }

  /** One visit of every node in index order. */
  method RunPass(lv: Level, m2: real, comm: array<nat>, sigmaTot: array<real>) returns (moved: bool)
    requires IsState(lv, comm[..]) && m2 != 0.0 && Totals(lv, comm[..], sigmaTot[..])
    modifies comm, sigmaTot
    ensures comm[..] == Pass(lv, old(comm[..]), m2, lv.n) && IsState(lv, comm[..])
    ensures Totals(lv, comm[..], sigmaTot[..])
    ensures moved <==> comm[..] != old(comm[..])
  {
    hide *;
    ghost var start := comm[..];
    PassNone(lv, start, m2);
    moved := false;
    for i := 0 to lv.n
      invariant IsState(lv, comm[..]) && comm[..] == Pass(lv, start, m2, i)
      invariant Totals(lv, comm[..], sigmaTot[..])
      invariant moved <==> comm[..] != start
    {
      ghost var before, totals := comm[..], sigmaTot[..];
      PassOne(lv, start, m2, i);
      InRange(lv, before, totals, i);
      var ci, ki := comm[i], lv.degree[i];
      sigmaTot[ci] := sigmaTot[ci] - ki;
      assert sigmaTot[..] == totals[ci := totals[ci] - ki];
      TakenOut(lv, before, totals, i);
      var bestComm := PickBest(lv, comm, sigmaTot, i, m2);
      PutBack(lv, before, sigmaTot[..], i, bestComm);
      ghost var rest := sigmaTot[..];
      sigmaTot[bestComm] := sigmaTot[bestComm] + ki;
      comm[i] := bestComm;
      assert sigmaTot[..] == rest[bestComm := rest[bestComm] + ki];
      assert comm[..] == before[i := bestComm];
      if bestComm != ci {
        moved := true;
        assert comm[..][i] != start[i];
      }
    }
  }

  lemma PassNone(lv: Level, comm: seq<nat>, m2: real)
    requires IsState(lv, comm) && m2 != 0.0
    ensures Pass(lv, comm, m2, 0) == comm && |comm| == lv.n
  {
  }

  lemma PassOne(lv: Level, comm: seq<nat>, m2: real, i: nat)
    requires IsState(lv, comm) && m2 != 0.0 && i < lv.n
    ensures var before := Pass(lv, comm, m2, i);
            && IsState(lv, before) && before[i] == comm[i]
            && Pass(lv, comm, m2, i + 1) == before[i := Target(lv, before, i, m2)]
            && IsState(lv, Pass(lv, comm, m2, i + 1))
  {
    hide Target;
  }

  lemma InRange(lv: Level, comm: seq<nat>, sigma: seq<real>, i: nat)
    requires IsState(lv, comm) && Totals(lv, comm, sigma) && i < lv.n
    ensures |comm| == |sigma| == |lv.degree| == lv.n && comm[i] < lv.n
  {
  }

  /** sigma holds each community's total degree with node i taken out of its own. */
  ghost predicate WithoutOne(lv: Level, comm: seq<nat>, i: nat, sigma: seq<real>)
    requires i < |comm| && i < |lv.degree|
  {
    |sigma| == lv.n && forall c | 0 <= c < lv.n :: sigma[c] == RestDegree(lv, comm, i, c)
  }

  lemma TakenOut(lv: Level, comm: seq<nat>, sigma: seq<real>, i: nat)
    requires IsState(lv, comm) && Totals(lv, comm, sigma) && i < lv.n
    ensures WithoutOne(lv, comm, i, sigma[comm[i] := sigma[comm[i]] - lv.degree[i]])
  {
    hide CommDegree;
  }

  lemma PutBack(lv: Level, comm: seq<nat>, sigma: seq<real>, i: nat, c: nat)
    requires IsState(lv, comm) && i < lv.n && c < lv.n && WithoutOne(lv, comm, i, sigma)
    ensures |sigma| == lv.n && Totals(lv, comm[i := c], sigma[c := sigma[c] + lv.degree[i]])
  {
    hide CommDegree, RestDegree;
    Rehoused(lv, comm, i, c);
  }

  /** Degrees once i, taken out of its community, has joined c. */
  lemma Rehoused(lv: Level, comm: seq<nat>, i: nat, c: nat)
    requires |comm| == |lv.degree| == lv.n && i < lv.n
    ensures forall d: int :: CommDegree(lv, comm[i := c], d)
                          == RestDegree(lv, comm, i, d) + if d == c then lv.degree[i] else 0.0
  {
    forall d: int ensures CommDegree(lv, comm[i := c], d)
                       == RestDegree(lv, comm, i, d) + if d == c then lv.degree[i] else 0.0
    {
      if c != comm[i] {
        MoveDegree(lv, comm, i, c, d);
      } else {
        assert comm[i := c] == comm;
      }
    }
  }
}
