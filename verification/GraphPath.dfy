/** The shortest path between two groups of nodes, by one breadth-first search from all of the first group. */
module GraphPath {
  import opened Wrappers

  /** A canonical entity's identifier. The program keeps its text, which is never empty. */
  type Id(==, !new)

  datatype Edge = Edge(aId: Id, aText: string, bId: Id, bText: string)

  datatype Outcome = NoStart | NoEnd | NoPath | Path(nodes: seq<Id>)

  // ----- The graph the edges describe

  ghost predicate Joins(e: Edge, x: Id, y: Id) {
    (e.aId == x && e.bId == y) || (e.bId == x && e.aId == y)
  }

  ghost predicate Linked(edges: seq<Edge>, x: Id, y: Id) {
    exists e | e in edges :: Joins(e, x, y)
  }

  predicate Mentions(e: Edge, x: Id) {
    e.aId == x || e.bId == x
  }

  /** The name e gives x, its second end before its first. */
  predicate Names(e: Edge, x: Id, text: string) {
    if e.bId == x then e.bText == text else e.aId == x && e.aText == text
  }

  /** The last edge that mentions x names it text. */
  ghost predicate Named(edges: seq<Edge>, x: Id, text: string) {
    exists k | 0 <= k < |edges| :: NamedAt(edges, k, x, text)
  }

  ghost predicate NamedAt(edges: seq<Edge>, k: nat, x: Id, text: string)
    requires k < |edges|
  {
    Names(edges[k], x, text) && forall j | k < j < |edges| :: !Mentions(edges[j], x)
  }

  ghost predicate IsAdjacency(edges: seq<Edge>, adj: map<Id, set<Id>>) {
    && (forall x, y | x in adj && y in adj[x] :: Linked(edges, x, y))
    && (forall x, y | Linked(edges, x, y) :: x in adj && y in adj[x])
  }

  /** Every node has the name the last edge that mentions it gives it, and nothing else is named. */
  ghost predicate IsNaming(edges: seq<Edge>, names: map<Id, string>) {
    && (forall x | x in names :: Named(edges, x, names[x]))
    && (forall e | e in edges :: e.aId in names && e.bId in names)
  }

  function With(adj: map<Id, set<Id>>, x: Id, y: Id): map<Id, set<Id>> {
    adj[x := (if x in adj then adj[x] else {}) + {y}]
  }

  lemma LinkedSnoc(edges: seq<Edge>, e: Edge, x: Id, y: Id)
    ensures Linked(edges + [e], x, y) <==> Linked(edges, x, y) || Joins(e, x, y)
  {
    if Linked(edges, x, y) {
      var f :| f in edges && Joins(f, x, y);
      assert f in edges + [e];
    }
    assert e in edges + [e];
  }

  lemma AdjacencySnoc(edges: seq<Edge>, adj: map<Id, set<Id>>, e: Edge)
    requires IsAdjacency(edges, adj)
    ensures IsAdjacency(edges + [e], With(With(adj, e.aId, e.bId), e.bId, e.aId))
  {
    hide Linked;
    forall x, y ensures Linked(edges + [e], x, y) <==> Linked(edges, x, y) || Joins(e, x, y) {
      LinkedSnoc(edges, e, x, y);
    }
  }

  lemma NamedSnoc(edges: seq<Edge>, e: Edge, x: Id, text: string)
    requires if Mentions(e, x) then Names(e, x, text) else Named(edges, x, text)
    ensures Named(edges + [e], x, text)
  {
    if Mentions(e, x) {
      assert NamedAt(edges + [e], |edges|, x, text);
    } else {
      var k :| 0 <= k < |edges| && NamedAt(edges, k, x, text);
      assert NamedAt(edges + [e], k, x, text);
    }
  }

  lemma NamingSnoc(edges: seq<Edge>, names: map<Id, string>, e: Edge)
    requires IsNaming(edges, names)
    ensures IsNaming(edges + [e], names[e.aId := e.aText][e.bId := e.bText])
  {
    hide Named;
    var now := names[e.aId := e.aText][e.bId := e.bText];
    forall x | x in now ensures Named(edges + [e], x, now[x]) {
      NamedSnoc(edges, e, x, now[x]);
    }
  }

  method LoadGraph(edges: seq<Edge>) returns (names: map<Id, string>, adj: map<Id, set<Id>>)
    ensures IsNaming(edges, names) && IsAdjacency(edges, adj)
  {
    hide IsNaming, IsAdjacency;
    names := map[];
    adj := map[];
    EmptyGraph();
    for i := 0 to |edges|
      invariant IsNaming(edges[..i], names) && IsAdjacency(edges[..i], adj)
    {
      var e := edges[i];
      AdjacencySnoc(edges[..i], adj, e);
      NamingSnoc(edges[..i], names, e);
      assert edges[..i + 1] == edges[..i] + [e];
      names := names[e.aId := e.aText];
      names := names[e.bId := e.bText];
      adj := With(adj, e.aId, e.bId);
      adj := With(adj, e.bId, e.aId);
    }
    assert edges[..|edges|] == edges;
  }

  lemma EmptyGraph()
    ensures IsNaming([], map[]) && IsAdjacency([], map[])
  {
  }

  // ----- Walks

  function Nbrs(adj: map<Id, set<Id>>, x: Id): set<Id> {
    if x in adj then adj[x] else {}
  }

  ghost predicate IsWalk(adj: map<Id, set<Id>>, w: seq<Id>) {
    w != [] && forall i, j | 0 <= i && j == i + 1 < |w| :: w[j] in Nbrs(adj, w[i])
  }

  ghost predicate Connects(adj: map<Id, set<Id>>, starts: seq<Id>, ends: set<Id>, w: seq<Id>) {
    IsWalk(adj, w) && w[0] in starts && w[|w| - 1] in ends
  }

  /** No walk leads from a start to an end. */
  ghost predicate Apart(adj: map<Id, set<Id>>, starts: seq<Id>, ends: set<Id>) {
    forall w :: !Connects(adj, starts, ends, w)
  }

  ghost predicate Shortest(adj: map<Id, set<Id>>, starts: seq<Id>, ends: set<Id>, w: seq<Id>) {
    Connects(adj, starts, ends, w) && forall v | Connects(adj, starts, ends, v) :: |w| <= |v|
  }

  // ----- What the search knows

  /** Each visited node's predecessor is one step nearer the starts, which precede themselves. */
  ghost predicate IsTree(adj: map<Id, set<Id>>, starts: seq<Id>, visited: map<Id, Id>, dist: map<Id, nat>) {
    && visited.Keys == dist.Keys
    && (forall s | s in starts :: s in visited && visited[s] == s)
    && (forall x | x in visited :: TreeNode(adj, starts, visited, dist, x))
  }

  ghost predicate TreeNode(adj: map<Id, set<Id>>, starts: seq<Id>, visited: map<Id, Id>, dist: map<Id, nat>, x: Id)
    requires x in visited && visited.Keys == dist.Keys
  {
    var p := visited[x];
    if p == x then x in starts && dist[x] == 0
    else p in visited && x in Nbrs(adj, p) && dist[x] == dist[p] + 1
  }

  /** The queue holds nodes in order of distance, none more than one step beyond its head. */
  ghost predicate IsFringe(queue: seq<Id>, dist: map<Id, nat>) {
    && (forall i | 0 <= i < |queue| :: queue[i] in dist)
    && (forall i, j | 0 <= i <= j < |queue| :: dist[queue[i]] <= dist[queue[j]])
    && (queue != [] ==> forall x | x in dist :: dist[x] <= dist[queue[0]] + 1)
  }

  /** x has been taken from the queue: it is no end, and its neighbours are known. */
  ghost predicate Done(adj: map<Id, set<Id>>, ends: set<Id>, dist: map<Id, nat>, x: Id)
    requires x in dist
  {
    x !in ends && forall y | y in Nbrs(adj, x) :: y in dist && dist[y] <= dist[x] + 1
  }

  ghost predicate IsClosed(adj: map<Id, set<Id>>, ends: set<Id>, queue: seq<Id>, dist: map<Id, nat>) {
    forall x | x in dist && x !in queue :: Done(adj, ends, dist, x)
  }

  ghost predicate Searching(adj: map<Id, set<Id>>, starts: seq<Id>, ends: set<Id>,
                            visited: map<Id, Id>, queue: seq<Id>, dist: map<Id, nat>) {
    IsTree(adj, starts, visited, dist) && IsFringe(queue, dist) && IsClosed(adj, ends, queue, dist)
  }

  lemma StepBound(adj: map<Id, set<Id>>, ends: set<Id>, queue: seq<Id>, dist: map<Id, nat>, u: Id, v: Id)
    requires IsFringe(queue, dist) && IsClosed(adj, ends, queue, dist)
    requires u in dist && v in Nbrs(adj, u)
    ensures (v in dist && dist[v] <= dist[u] + 1)
            || (queue != [] && queue[0] in dist && dist[queue[0]] <= dist[u])
  {
    if u in queue {
      HeadFirst(queue, dist, u);
    } else {
      assert Done(adj, ends, dist, u);
    }
  }

  lemma HeadFirst(queue: seq<Id>, dist: map<Id, nat>, u: Id)
    requires IsFringe(queue, dist) && u in queue
    ensures queue[0] in dist && u in dist && dist[queue[0]] <= dist[u]
  {
    var i :| 0 <= i < |queue| && queue[i] == u;
  }

  /** A walk's end is either known to be that near, or lies beyond the head of the queue. */
  lemma {:induction false} WalkBound(adj: map<Id, set<Id>>, starts: seq<Id>, ends: set<Id>, visited: map<Id, Id>,
                                     queue: seq<Id>, dist: map<Id, nat>, w: seq<Id>)
    requires Searching(adj, starts, ends, visited, queue, dist)
    requires IsWalk(adj, w) && w[0] in starts
    ensures var v := w[|w| - 1];
            || (v in dist && dist[v] <= |w| - 1)
            || (queue != [] && queue[0] in dist && dist[queue[0]] < |w| - 1)
  {
    hide IsFringe, IsClosed, IsTree, Nbrs;
    var n := |w| - 1;
    if n == 0 {
      StartKnown(adj, starts, visited, dist, w[0]);
    } else {
      WalkPrefix(adj, w);
      WalkBound(adj, starts, ends, visited, queue, dist, w[..n]);
      if w[n - 1] in dist && dist[w[n - 1]] <= n - 1 {
        StepBound(adj, ends, queue, dist, w[n - 1], w[n]);
      }
    }
  }

  lemma WalkPrefix(adj: map<Id, set<Id>>, w: seq<Id>)
    requires IsWalk(adj, w) && |w| > 1
    ensures IsWalk(adj, w[..|w| - 1]) && w[|w| - 1] in Nbrs(adj, w[|w| - 2])
  {
  }

  lemma StartKnown(adj: map<Id, set<Id>>, starts: seq<Id>, visited: map<Id, Id>, dist: map<Id, nat>, s: Id)
    requires IsTree(adj, starts, visited, dist) && s in starts
    ensures s in dist && dist[s] == 0
  {
    assert TreeNode(adj, starts, visited, dist, s);
  }

  lemma HeadIsNearest(adj: map<Id, set<Id>>, starts: seq<Id>, ends: set<Id>, visited: map<Id, Id>,
                      queue: seq<Id>, dist: map<Id, nat>, w: seq<Id>)
    requires Searching(adj, starts, ends, visited, queue, dist)
    requires Connects(adj, starts, ends, w)
    ensures queue != [] && queue[0] in dist && dist[queue[0]] <= |w| - 1
  {
    WalkBound(adj, starts, ends, visited, queue, dist, w);
    var v := w[|w| - 1];
    if v in dist && dist[v] <= |w| - 1 {
      hide IsTree, IsFringe;
      assert v in queue;
      HeadFirst(queue, dist, v);
    }
  }

  // ----- One step of the search

  function Given<V>(keys: set<Id>, v: V): map<Id, V> {
    map k | k in keys :: v
  }

  lemma GivenSnoc(visited: map<Id, Id>, keys: set<Id>, n: Id, cur: Id)
    ensures visited + Given(keys + {n}, cur) == (visited + Given(keys, cur))[n := cur]
  {
  }

  /** The neighbours in seen have been marked and queued, those new to visited in the order added. */
  ghost predicate Expanded(seen: set<Id>, cur: Id, visited: map<Id, Id>, visited': map<Id, Id>, added: seq<Id>) {
    && visited' == visited + Given(seen - visited.Keys, cur)
    && forall x :: x in added <==> x in seen - visited.Keys
  }

  lemma ExpandedNone(cur: Id, visited: map<Id, Id>)
    ensures Expanded({}, cur, visited, visited, [])
  {
  }

  lemma ExpandedOne(seen: set<Id>, cur: Id, visited: map<Id, Id>, visited': map<Id, Id>, added: seq<Id>, nbr: Id)
    requires Expanded(seen, cur, visited, visited', added) && nbr !in seen
    ensures nbr in visited' ==> Expanded(seen + {nbr}, cur, visited, visited', added)
    ensures nbr !in visited' ==> Expanded(seen + {nbr}, cur, visited, visited'[nbr := cur], added + [nbr])
  {
    var marked := seen - visited.Keys;
    if nbr in visited' {
      assert (seen + {nbr}) - visited.Keys == marked;
    } else {
      assert (seen + {nbr}) - visited.Keys == marked + {nbr};
      GivenSnoc(visited, marked, nbr, cur);
    }
  }

  /** Marks the unseen neighbours of cur, in whatever order they come. */
  method Expand(nbrs: set<Id>, cur: Id, visited: map<Id, Id>, queue: seq<Id>)
    returns (visited': map<Id, Id>, ghost added: seq<Id>, queue': seq<Id>)
    ensures visited' == visited + Given(nbrs - visited.Keys, cur)
    ensures queue' == queue + added
    ensures forall x :: x in added <==> x in nbrs - visited.Keys
  {
    hide Expanded;
    visited', added, queue' := visited, [], queue;
    var seen: set<Id> := {};
    ExpandedNone(cur, visited);
    while nbrs - seen != {}
      invariant seen <= nbrs && queue' == queue + added
      invariant Expanded(seen, cur, visited, visited', added)
      decreases nbrs - seen
    {
      var nbr :| nbr in nbrs - seen;
      ExpandedOne(seen, cur, visited, visited', added, nbr);
      if nbr !in visited' {
        visited' := visited'[nbr := cur];
        queue' := queue' + [nbr];
        added := added + [nbr];
      }
      seen := seen + {nbr};
    }
    assert seen == nbrs by {
      assert forall x | x in nbrs :: x in nbrs - seen || x in seen;
    }
    ExpandedGives(nbrs, cur, visited, visited', added);
  }

  lemma ExpandedGives(nbrs: set<Id>, cur: Id, visited: map<Id, Id>, visited': map<Id, Id>, added: seq<Id>)
    requires Expanded(nbrs, cur, visited, visited', added)
    ensures visited' == visited + Given(nbrs - visited.Keys, cur)
    ensures forall x :: x in added <==> x in nbrs - visited.Keys
  {
  }

  lemma TreeGrows(adj: map<Id, set<Id>>, starts: seq<Id>, visited: map<Id, Id>, dist: map<Id, nat>, cur: Id)
    requires IsTree(adj, starts, visited, dist) && cur in dist
    ensures var unseen := Nbrs(adj, cur) - visited.Keys;
            IsTree(adj, starts, visited + Given(unseen, cur), dist + Given(unseen, dist[cur] + 1))
  {
    var unseen := Nbrs(adj, cur) - visited.Keys;
    var visited', dist' := visited + Given(unseen, cur), dist + Given(unseen, dist[cur] + 1);
    forall x | x in visited' ensures TreeNode(adj, starts, visited', dist', x) {
      if x in visited {
        assert TreeNode(adj, starts, visited, dist, x);
      }
    }
  }

  lemma FringeGrows(queue: seq<Id>, dist: map<Id, nat>, unseen: set<Id>, added: seq<Id>)
    requires queue != [] && IsFringe(queue, dist)
    requires unseen !! dist.Keys && forall x :: x in added <==> x in unseen
    ensures IsFringe(queue[1..] + added, dist + Given(unseen, dist[queue[0]] + 1))
  {
    var dist' := dist + Given(unseen, dist[queue[0]] + 1);
    var queue' := queue[1..] + added;
    var n := |queue| - 1;
    forall i | 0 <= i < |queue'|
      ensures queue'[i] in dist' && dist[queue[0]] <= dist'[queue'[i]] <= dist[queue[0]] + 1
    {
      FringeEntry(queue, dist, unseen, added, i);
    }
    forall i, j | 0 <= i <= j < |queue'| ensures dist'[queue'[i]] <= dist'[queue'[j]] {
      if j >= n {
        assert queue'[j] == added[j - n];
      } else {
        assert queue'[i] == queue[i + 1] && queue'[j] == queue[j + 1];
      }
    }
  }

  lemma FringeEntry(queue: seq<Id>, dist: map<Id, nat>, unseen: set<Id>, added: seq<Id>, i: nat)
    requires queue != [] && IsFringe(queue, dist)
    requires unseen !! dist.Keys && forall x :: x in added <==> x in unseen
    requires i < |queue[1..] + added|
    ensures var q := (queue[1..] + added)[i];
            var dist' := dist + Given(unseen, dist[queue[0]] + 1);
            q in dist' && dist[queue[0]] <= dist'[q] <= dist[queue[0]] + 1
  {
    if i < |queue| - 1 {
      assert (queue[1..] + added)[i] == queue[i + 1];
    } else {
      assert (queue[1..] + added)[i] == added[i - (|queue| - 1)];
    }
  }

  lemma ClosureGrows(adj: map<Id, set<Id>>, ends: set<Id>, queue: seq<Id>, dist: map<Id, nat>, added: seq<Id>)
    requires queue != [] && IsFringe(queue, dist) && IsClosed(adj, ends, queue, dist) && queue[0] !in ends
    requires forall x :: x in added <==> x in Nbrs(adj, queue[0]) - dist.Keys
    ensures IsClosed(adj, ends, queue[1..] + added,
                     dist + Given(Nbrs(adj, queue[0]) - dist.Keys, dist[queue[0]] + 1))
  {
    var cur := queue[0];
    var unseen := Nbrs(adj, cur) - dist.Keys;
    var dist' := dist + Given(unseen, dist[cur] + 1);
    forall x | x in dist' && x !in queue[1..] + added ensures Done(adj, ends, dist', x) {
      assert x !in added && x !in queue[1..];
      assert x in dist;
      if x != cur {
        assert x !in queue by { assert queue == [cur] + queue[1..]; }
        assert Done(adj, ends, dist, x);
      }
    }
  }

  lemma SearchKeys(adj: map<Id, set<Id>>, starts: seq<Id>, visited: map<Id, Id>, dist: map<Id, nat>, queue: seq<Id>)
    requires IsTree(adj, starts, visited, dist) && IsFringe(queue, dist) && queue != []
    ensures visited.Keys == dist.Keys && queue[0] in dist
  {
  }

  lemma SearchGoesOn(adj: map<Id, set<Id>>, starts: seq<Id>, ends: set<Id>, visited: map<Id, Id>,
                     queue: seq<Id>, dist: map<Id, nat>, added: seq<Id>)
    requires Searching(adj, starts, ends, visited, queue, dist) && queue != [] && queue[0] !in ends
    requires forall x :: x in added <==> x in Nbrs(adj, queue[0]) - visited.Keys
    ensures var unseen := Nbrs(adj, queue[0]) - visited.Keys;
            Searching(adj, starts, ends, visited + Given(unseen, queue[0]), queue[1..] + added,
                      dist + Given(unseen, dist[queue[0]] + 1))
  {
    SearchKeys(adj, starts, visited, dist, queue);
    hide IsTree, IsFringe, IsClosed, Nbrs, Given;
    TreeGrows(adj, starts, visited, dist, queue[0]);
    FringeGrows(queue, dist, Nbrs(adj, queue[0]) - visited.Keys, added);
    ClosureGrows(adj, ends, queue, dist, added);
  }

  // ----- The search

  method Search(adj: map<Id, set<Id>>, starts: seq<Id>, ends: set<Id>, nodes: set<Id>)
    returns (found: Option<Id>, visited: map<Id, Id>, ghost dist: map<Id, nat>)
    requires forall x, y | x in adj && y in adj[x] :: y in nodes
    requires forall s | s in starts :: s in nodes
    ensures IsTree(adj, starts, visited, dist)
    ensures found.None? ==> forall w :: !Connects(adj, starts, ends, w)
    ensures found.Some? ==> found.value in ends && found.value in dist
                            && forall w | Connects(adj, starts, ends, w) :: dist[found.value] <= |w| - 1
  {
    hide IsTree, IsFringe, IsClosed, Connects;
    visited := map[];
    var queue: seq<Id> := [];
    for i := 0 to |starts|
      invariant queue == starts[..i] && visited == map s | s in starts[..i] :: s
    {
      assert starts[..i + 1] == starts[..i] + [starts[i]];
      visited := visited[starts[i] := starts[i]];
      queue := queue + [starts[i]];
    }
    assert starts[..|starts|] == starts;
    dist := map s | s in starts :: 0;
    SearchBegins(adj, starts, ends);
    found := None;
    while |queue| > 0 && found == None
      invariant Searching(adj, starts, ends, visited, queue, dist)
      invariant visited.Keys <= nodes && forall q | q in queue :: q in nodes
      invariant found == None
      decreases nodes - visited.Keys, |queue|
    {
      var cur := queue[0];
      if cur in ends {
        forall w | Connects(adj, starts, ends, w) ensures cur in dist && dist[cur] <= |w| - 1 {
          HeadIsNearest(adj, starts, ends, visited, queue, dist, w);
        }
        HeadKnown(queue, dist);
        found := Some(cur);
        return;
      }
      ghost var before, waiting := visited, queue;
      ghost var unseen := Nbrs(adj, cur) - visited.Keys;
      ghost var added;
      visited, added, queue := Expand(Nbrs(adj, cur), cur, visited, queue[1..]);
      SearchGoesOn(adj, starts, ends, before, waiting, dist, added);
      HeadKnown(waiting, dist);
      dist := dist + Given(unseen, dist[cur] + 1);
      Shrinks(nodes, before, unseen, cur);
      assert unseen == {} ==> added == [] by {
        assert added != [] ==> added[0] in added;
      }
    }
    forall w ensures !Connects(adj, starts, ends, w) {
      if Connects(adj, starts, ends, w) {
        HeadIsNearest(adj, starts, ends, visited, queue, dist, w);
      }
    }
  }

  lemma Shrinks(nodes: set<Id>, visited: map<Id, Id>, unseen: set<Id>, cur: Id)
    requires unseen <= nodes && unseen !! visited.Keys
    ensures var now := visited + Given(unseen, cur);
            if unseen == {} then now == visited else nodes - now.Keys < nodes - visited.Keys
  {
    if unseen != {} {
      var x :| x in unseen;
      assert x in nodes - visited.Keys && x !in nodes - (visited + Given(unseen, cur)).Keys;
    }
  }

  lemma HeadKnown(queue: seq<Id>, dist: map<Id, nat>)
    requires queue != [] && IsFringe(queue, dist)
    ensures queue[0] in dist
  {
  }

  lemma SearchBegins(adj: map<Id, set<Id>>, starts: seq<Id>, ends: set<Id>)
    ensures Searching(adj, starts, ends, map s | s in starts :: s, starts, map s | s in starts :: 0)
  {
  }

  /** Following predecessors from a visited node reaches a start in as many steps as its distance. */
  method WalkBack(adj: map<Id, set<Id>>, starts: seq<Id>, visited: map<Id, Id>, ghost dist: map<Id, nat>, found: Id)
    returns (path: seq<Id>)
    requires IsTree(adj, starts, visited, dist) && found in visited
    ensures IsWalk(adj, path) && path[0] in starts && path[|path| - 1] == found && |path| == dist[found] + 1
  {
    hide Nbrs, IsTree, IsWalk;
    TreeKeys(adj, starts, visited, dist);
    path := [];
    var n := found;
    while true
      invariant n in visited && n in dist && |path| + dist[n] == dist[found]
      invariant path == [] ==> n == found
      invariant path != [] ==> IsWalk(adj, path) && path[|path| - 1] == found && path[0] in Nbrs(adj, n)
      decreases dist[n]
    {
      NodeGives(adj, starts, visited, dist, n);
      Prepend(adj, n, path);
      path := [n] + path;
      var p := visited[n];
      if p == n {
        break;
      }
      n := p;
    }
  }

  lemma NodeGives(adj: map<Id, set<Id>>, starts: seq<Id>, visited: map<Id, Id>, dist: map<Id, nat>, x: Id)
    requires IsTree(adj, starts, visited, dist) && x in visited && x in dist
    ensures visited[x] == x ==> x in starts && dist[x] == 0
    ensures visited[x] != x ==>
              && visited[x] in visited && visited[x] in dist
              && x in Nbrs(adj, visited[x]) && dist[x] == dist[visited[x]] + 1
  {
    hide Nbrs;
    assert TreeNode(adj, starts, visited, dist, x);
  }

  lemma Prepend(adj: map<Id, set<Id>>, n: Id, path: seq<Id>)
    requires path != [] ==> IsWalk(adj, path) && path[0] in Nbrs(adj, n)
    ensures IsWalk(adj, [n] + path)
  {
  }

  // ----- The whole command

  /** Each id of names is in the result once exactly when its text matches. */
  method Matching(names: map<Id, string>, matches: string -> bool) returns (ids: seq<Id>)
    ensures forall x :: x in ids <==> x in names && matches(names[x])
  {
    ids := [];
    var todo := names.Keys;
    while todo != {}
      invariant todo <= names.Keys
      invariant forall x :: x in ids <==> x in names && x !in todo && matches(names[x])
      decreases |todo|
    {
      var id :| id in todo;
      todo := todo - {id};
      if matches(names[id]) {
        ids := ids + [id];
      }
    }
  }

  method Run(edges: seq<Edge>, from: string -> bool, to: string -> bool)
    returns (outcome: Outcome, names: map<Id, string>,
             ghost adj: map<Id, set<Id>>, ghost starts: seq<Id>, ghost ends: set<Id>)
    ensures IsNaming(edges, names) && IsAdjacency(edges, adj)
    ensures forall x :: x in starts <==> x in names && from(names[x])
    ensures forall x :: x in ends <==> x in names && to(names[x])
    ensures outcome.NoStart? <==> starts == []
    ensures outcome.NoEnd? <==> starts != [] && ends == {}
    ensures outcome.NoPath? <==> starts != [] && ends != {} && Apart(adj, starts, ends)
    ensures outcome.Path? ==> Shortest(adj, starts, ends, outcome.nodes)
  {
    hide IsNaming, IsAdjacency, Connects, Shortest;
    var graph;
    names, graph := LoadGraph(edges);
    adj := graph;
    var fromIds := Matching(names, from);
    var toIds := Matching(names, to);
    starts := fromIds;
    var endSet := set x | x in toIds;
    ends := endSet;
    if |fromIds| == 0 {
      return NoStart, names, adj, starts, ends;
    }
    if |toIds| == 0 {
      return NoEnd, names, adj, starts, ends;
    }
    assert toIds[0] in ends;
    NodesNamed(edges, names, adj);
    var path := PathBetween(graph, fromIds, endSet, names.Keys);
    outcome := if path == None then NoPath else Path(path.value);
  }

  method PathBetween(adj: map<Id, set<Id>>, starts: seq<Id>, ends: set<Id>, nodes: set<Id>) returns (r: Option<seq<Id>>)
    requires forall x, y | x in adj && y in adj[x] :: y in nodes
    requires forall s | s in starts :: s in nodes
    ensures r.None? <==> Apart(adj, starts, ends)
    ensures r.Some? ==> Shortest(adj, starts, ends, r.value)
  {
    hide IsWalk, IsTree, Connects;
    var found, visited, dist := Search(adj, starts, ends, nodes);
    if found == None {
      return None;
    }
    TreeKeys(adj, starts, visited, dist);
    var path := WalkBack(adj, starts, visited, dist, found.value);
    ConnectsBy(adj, starts, ends, path);
    r := Some(path);
  }

  lemma ConnectsBy(adj: map<Id, set<Id>>, starts: seq<Id>, ends: set<Id>, w: seq<Id>)
    requires IsWalk(adj, w) && w[0] in starts && w[|w| - 1] in ends
    ensures Connects(adj, starts, ends, w)
  {
  }

  lemma TreeKeys(adj: map<Id, set<Id>>, starts: seq<Id>, visited: map<Id, Id>, dist: map<Id, nat>)
    requires IsTree(adj, starts, visited, dist)
    ensures visited.Keys == dist.Keys
  {
  }

  lemma NodesNamed(edges: seq<Edge>, names: map<Id, string>, adj: map<Id, set<Id>>)
    requires IsNaming(edges, names) && IsAdjacency(edges, adj)
    ensures forall x, y | x in adj && y in adj[x] :: y in names
  {
    hide Linked;
    forall x, y | x in adj && y in adj[x] ensures y in names {
      LinkedNamed(edges, names, x, y);
    }
  }

  lemma LinkedNamed(edges: seq<Edge>, names: map<Id, string>, x: Id, y: Id)
    requires IsNaming(edges, names) && Linked(edges, x, y)
    ensures y in names
  {
    hide Named;
    var e :| e in edges && Joins(e, x, y);
  }
}
