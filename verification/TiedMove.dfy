/** A run of the local-moving phase in which an accepted move leaves modularity unchanged. */
module TiedMove {
  import opened Sums
  import opened FirstSeen
  import opened CommunityGraph
  import opened Modularity
  import opened LocalMoving

  const PathEdges := [Edge(1, 2, 1.0), Edge(0, 1, 1.0)]

  ghost function PathLevel(): Level {
    LevelOf(3, PathEdges, [0.0, 0.0, 0.0])
  }

  lemma PathShape()
    ensures var lv := PathLevel();
            && Shaped(lv) && lv.degree == [1.0, 2.0, 1.0]
            && lv.adj == [[Neighbor(1, 1.0)], [Neighbor(2, 1.0), Neighbor(0, 1.0)], [Neighbor(1, 1.0)]]
  {
    var lv, none := PathLevel(), [0.0, 0.0, 0.0];
    LevelShaped(lv);
    forall i: nat | i < 3
      ensures DegreeOf(PathEdges, none, i, 2) == Incident(PathEdges, i)(0) + Incident(PathEdges, i)(1)
      ensures Adjacency(PathEdges, i, 2) == if i == 1 then [Neighbor(2, 1.0), Neighbor(0, 1.0)] else [Neighbor(1, 1.0)]
    {
      var f := Incident(PathEdges, i);
      assert Sum(2, f) == Sum(1, f) + f(1) && Sum(1, f) == Sum(0, f) + f(0);
      assert Adjacency(PathEdges, i, 0) == [];
      assert Adjacency(PathEdges, i, 1)
          == if i == 1 then [Neighbor(2, 1.0)] else if i == 2 then [Neighbor(1, 1.0)] else [];
    }
  }

  /** The gains met in ZeroMove are all one half. */
  lemma PathGain(comm: seq<nat>, i: nat, c: nat)
    requires (comm, i, c) in [(Identity(3), 0, 1), ([1, 1, 2], 1, 2), ([1, 1, 2], 1, 1)]
    ensures |comm| == 3 && i < 3 && Gain(PathLevel(), comm, i, c, 4.0) == 0.5
  {
    var lv := PathLevel();
    PathShape();
    var f := Keyed(Key(comm), At(lv.degree), c);
    assert Sum(3, f) == Sum(2, f) + f(2) && Sum(2, f) == Sum(1, f) + f(1) && Sum(1, f) == Sum(0, f) + f(0);
    var g := Chosen(lv.adj[i], InCommunity(comm, c));
    assert Sum(1, g) == Sum(0, g) + g(0);
    assert i == 1 ==> Sum(2, g) == Sum(1, g) + g(1);
  }

  lemma FirstVisit()
    ensures IsState(PathLevel(), Identity(3))
    ensures Visit(PathLevel(), Identity(3), 0, 4.0) == [1, 1, 2]
  {
    var lv, id := PathLevel(), Identity(3);
    PathShape();
    PathGain(id, 0, 1);
    var nc := NeighbourComms(lv, id, 0);
    assert nc == [1];
    assert Order(nc) == [1];
    assert Best(lv, id, 0, 4.0, 0) == (0, 0.0);
    assert Target(lv, id, 0, 4.0) == 1;
  }

  lemma SecondCandidates()
    ensures IsState(PathLevel(), [1, 1, 2])
    ensures Candidates(PathLevel(), [1, 1, 2], 1) == [2, 1]
  {
    PathShape();
    var nc := NeighbourComms(PathLevel(), [1, 1, 2], 1);
    hide PathLevel;
    assert nc[0] == 2 && nc[1] == 1;
    assert nc == [2, 1];
    OrderPair(2, 1);
  }

  lemma OrderPair(x: nat, y: nat)
    requires x != y
    ensures Order([x, y]) == [x, y]
  {
    EmptyOrder<nat>();
    OrderSnoc([], x);
    OrderSnoc([x], y);
    assert [] + [x] == [x];
    assert [x] + [y] == [x, y];
  }

  lemma SecondVisit()
    ensures IsState(PathLevel(), [1, 1, 2])
    ensures Visit(PathLevel(), [1, 1, 2], 1, 4.0) == [1, 2, 2]
  {
    var lv, comm := PathLevel(), [1, 1, 2];
    PathShape();
    PathGain(comm, 1, 2);
    PathGain(comm, 1, 1);
    SecondCandidates();
    hide Candidates, Gain;
    assert Best(lv, comm, 1, 4.0, 0) == (1, 0.0);
    assert Best(lv, comm, 1, 4.0, 1) == (2, 0.5);
    assert Target(lv, comm, 1, 4.0) == 2;
  }

  /**
   * An accepted move need not raise Q. On the path 0 - 1 - 2 with the edge
   * 1 - 2 listed first, node 0 joins node 1; node 1 then leaves that
   * community for node 2's, which it meets first and which gains the same.
   */
  lemma ZeroMove()
    ensures IsState(PathLevel(), Identity(3))
    ensures Pass(PathLevel(), Identity(3), 4.0, 1) == [1, 1, 2]
    ensures Pass(PathLevel(), Identity(3), 4.0, 2) == [1, 2, 2]
    ensures Quality(PathLevel(), [1, 2, 2], 2.0) == Quality(PathLevel(), [1, 1, 2], 2.0)
  {
    hide Visit, Quality, Gain;
    var lv, id, after := PathLevel(), Identity(3), [1, 1, 2];
    FirstVisit();
    SecondVisit();
    assert Pass(lv, id, 4.0, 0) == id;
    assert after[1 := 2] == [1, 2, 2];
    PathGain(after, 1, 2);
    PathGain(after, 1, 1);
    MoveChange(lv, after, 1, 2, 3, 2.0);
  }
}
