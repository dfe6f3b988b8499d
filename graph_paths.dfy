/**
 * Paths through the mind map in articles/article-page.js: the undirected
 * adjacency `buildNodeAdjacency` builds from the edges, the breadth-first
 * search `findNodePathBfs` that links two thread mentions, the step of
 * `buildThreadAutoMetaById` that drops consecutive repeats, and
 * `findNextThreadIndex`, which cycles to the next mention in another section.
 */
module GraphPaths {
  import opened GraphIndex

  type Adjacency = map<string, set<string>>

  /** `adjacency.get(id) || []`. */
  function Neighbours(adj: Adjacency, a: string): set<string>
  {
    if a in adj then adj[a] else {}
  }

  /** `adjacency.get(a).add(b)`, the set created empty when missing. */
  function AddLink(adj: Adjacency, a: string, b: string): Adjacency
  {
    adj[a := Neighbours(adj, a) + {b}]
  }

  /** The adjacency once `edges` have been added in order, each in both directions. */
  function AdjacencyOf(edges: seq<Edge>): Adjacency
    decreases |edges|
  {
    if edges == [] then map[]
    else
      AddEdge(AdjacencyOf(edges[..|edges| - 1]), edges[|edges| - 1])
  }

  /** Edge `e` joins `a` and `b`, in either direction. */
  predicate Joins(e: Edge, a: string, b: string)
  {
    (e.from == a && e.to == b) || (e.from == b && e.to == a)
  }

  /** Edge `e` has `a` as an end point. */
  predicate Touches(e: Edge, a: string)
  {
    e.from == a || e.to == a
  }

  /** Both links of one edge. */
  function AddEdge(adj: Adjacency, e: Edge): Adjacency
  {
    AddLink(AddLink(adj, e.from, e.to), e.to, e.from)
  }

  /** Adding an edge adds to `a` just the other end of the edge, if it touches `a`. */
  lemma AddEdgeNeighbours(adj: Adjacency, e: Edge, a: string, b: string)
    ensures b in Neighbours(AddEdge(adj, e), a) <==> b in Neighbours(adj, a) || Joins(e, a, b)
  {
  }

  /** Adding an edge gives sets to its two ends and to no other node. */
  lemma AddEdgeKeys(adj: Adjacency, e: Edge, a: string)
    ensures a in AddEdge(adj, e) <==> a in adj || Touches(e, a)
  {
  }

  /**
   * The four steps `buildNodeAdjacency` takes for one edge (both sets made
   * when missing, then each end added to the other's) add that edge.
   */
  lemma EdgeSteps(adj: Adjacency, e: Edge)
    ensures var a1 := if e.from in adj then adj else adj[e.from := {}];
      var a2 := if e.to in a1 then a1 else a1[e.to := {}];
      var a3 := a2[e.from := a2[e.from] + {e.to}];
      a3[e.to := a3[e.to] + {e.from}] == AddEdge(adj, e)
  {
  }

  /** `a` has a set exactly when an edge touches it. */
  lemma {:induction false} AdjacencyOfKeys(edges: seq<Edge>, a: string)
    ensures a in AdjacencyOf(edges) <==> exists i :: 0 <= i < |edges| && Touches(edges[i], a)
    decreases |edges|
  {
    if edges != [] {
      var n := |edges|;
      var p := edges[..n - 1];
      AdjacencyOfKeys(p, a);
      AddEdgeKeys(AdjacencyOf(p), edges[n - 1], a);
      if exists i :: 0 <= i < |p| && Touches(p[i], a) {
        var i :| 0 <= i < |p| && Touches(p[i], a);
        assert edges[i] == p[i];
      }
      if exists i :: 0 <= i < |edges| && Touches(edges[i], a) {
        var i :| 0 <= i < |edges| && Touches(edges[i], a);
        if i < n - 1 {
          assert p[i] == edges[i];
        }
      }
    }
  }

  /** `b` is a neighbour of `a` exactly when an edge joins them. */
  lemma {:induction false} AdjacencyOfMeaning(edges: seq<Edge>, a: string, b: string)
    ensures b in Neighbours(AdjacencyOf(edges), a) <==> exists i :: 0 <= i < |edges| && Joins(edges[i], a, b)
    decreases |edges|
  {
    if edges != [] {
      var n := |edges|;
      var p := edges[..n - 1];
      var e := edges[n - 1];
      AdjacencyOfMeaning(p, a, b);
      assert AdjacencyOf(edges) == AddEdge(AdjacencyOf(p), e);
      AddEdgeNeighbours(AdjacencyOf(p), e, a, b);
      if exists i :: 0 <= i < |p| && Joins(p[i], a, b) {
        var i :| 0 <= i < |p| && Joins(p[i], a, b);
        assert edges[i] == p[i];
      }
      if exists i :: 0 <= i < |edges| && Joins(edges[i], a, b) {
        var i :| 0 <= i < |edges| && Joins(edges[i], a, b);
        if i < n - 1 {
          assert p[i] == edges[i];
        }
      }
    }
  }

  /** The adjacency is undirected. */
  lemma AdjacencySymmetric(edges: seq<Edge>, a: string, b: string)
    ensures b in Neighbours(AdjacencyOf(edges), a) <==> a in Neighbours(AdjacencyOf(edges), b)
  {
    AdjacencyOfMeaning(edges, a, b);
    AdjacencyOfMeaning(edges, b, a);
    if exists i :: 0 <= i < |edges| && Joins(edges[i], a, b) {
      var i :| 0 <= i < |edges| && Joins(edges[i], a, b);
      assert Joins(edges[i], b, a);
    }
    if exists i :: 0 <= i < |edges| && Joins(edges[i], b, a) {
      var i :| 0 <= i < |edges| && Joins(edges[i], b, a);
      assert Joins(edges[i], a, b);
    }
  }

  /** Every neighbour has a set of its own. */
  predicate KeysClosed(adj: Adjacency)
  {
    forall a, b :: a in adj && b in adj[a] ==> b in adj
  }

  /** No node is named by the empty id, which the path rebuilding reads as a missing predecessor. */
  predicate NoEmptyId(adj: Adjacency)
  {
    forall a :: a in adj ==> [] !in adj[a]
  }

  lemma AdjacencyOfKeysClosed(edges: seq<Edge>)
    ensures KeysClosed(AdjacencyOf(edges))
  {
    var adj := AdjacencyOf(edges);
    forall a, b | a in adj && b in adj[a] ensures b in adj {
      AdjacencyOfMeaning(edges, a, b);
      var i :| 0 <= i < |edges| && Joins(edges[i], a, b);
      AdjacencyOfKeys(edges, b);
      assert Touches(edges[i], b);
    }
  }

  /** `buildNodeAdjacency`: both end points of every edge get a set, and each is added to the other's. */
  method BuildNodeAdjacency(edges: seq<Edge>) returns (adj: Adjacency)
    ensures adj == AdjacencyOf(edges)
  {
    adj := map[];
    var i := 0;
    while i < |edges|
      invariant 0 <= i <= |edges|
      invariant adj == AdjacencyOf(edges[..i])
    {
      var e := edges[i];
      EdgeSteps(adj, e);
      if e.from !in adj {
        adj := adj[e.from := {}];
      }
      if e.to !in adj {
        adj := adj[e.to := {}];
      }
      adj := adj[e.from := adj[e.from] + {e.to}];
      adj := adj[e.to := adj[e.to] + {e.from}];
      assert edges[..i + 1][..i] == edges[..i];
      i := i + 1;
    }
    assert edges[..i] == edges;
  }

  /** `p` walks from `s` to `t` along the adjacency. */
  predicate IsPath(p: seq<string>, s: string, t: string, adj: Adjacency)
  {
    |p| >= 1 && p[0] == s && p[|p| - 1] == t
    && forall i :: 0 <= i < |p| - 1 ==> p[i + 1] in Neighbours(adj, p[i])
  }

  /** A path of two nodes or more starts and ends at nodes that have neighbour sets. */
  lemma PathNeedsKeys(adj: Adjacency, p: seq<string>, s: string, t: string)
    requires KeysClosed(adj) && IsPath(p, s, t, adj) && |p| >= 2
    ensures s in adj && t in adj
  {
    assert p[1] in Neighbours(adj, p[0]);
    assert p[|p| - 1] in Neighbours(adj, p[|p| - 2]);
  }

  /** Every node the adjacency names. */
  ghost function AllNodes(adj: Adjacency): set<string>
  {
    adj.Keys + set a, b | a in adj && b in adj[a] :: b
  }

  /** The search tree: each node but the start has a predecessor one step closer. */
  ghost predicate Tree(adj: Adjacency, from: string, prev: map<string, string>, visited: set<string>, dist: map<string, nat>)
  {
    from in visited && dist.Keys == visited && dist[from] == 0
    && from !in prev && prev.Keys == visited - {from}
    && forall v :: v in prev ==>
      prev[v] in visited && v in Neighbours(adj, prev[v]) && dist[v] == dist[prev[v]] + 1
  }

  /** No path to a visited node is shorter than its recorded distance. */
  ghost predicate Shortest(adj: Adjacency, from: string, visited: set<string>, dist: map<string, nat>)
  {
    forall v, q :: v in visited && v in dist && IsPath(q, from, v, adj) ==> |q| - 1 >= dist[v]
  }

  /** Every visited node with an unvisited neighbour is at distance `level` or more. */
  ghost predicate FrontierAtLeast(adj: Adjacency, visited: set<string>, dist: map<string, nat>, level: nat)
  {
    forall u, x :: u in visited && x in Neighbours(adj, u) && x !in visited ==> u in dist && dist[u] >= level
  }

  /** A path that leaves the visited nodes goes through the frontier, and so is longer than its level. */
  lemma {:induction false} ExitLevel(adj: Adjacency, from: string, visited: set<string>, dist: map<string, nat>,
                                     level: nat, p: seq<string>, w: string)
    requires from in visited && Shortest(adj, from, visited, dist) && FrontierAtLeast(adj, visited, dist, level)
    requires IsPath(p, from, w, adj) && w !in visited
    ensures |p| - 1 >= level + 1
    decreases |p|
  {
    var q := p[..|p| - 1];
    var y := q[|q| - 1];
    assert p[|p| - 2] == y;
    assert IsPath(q, from, y, adj) by {
      forall i | 0 <= i < |q| - 1 ensures q[i + 1] in Neighbours(adj, q[i]) {
        assert q[i] == p[i] && q[i + 1] == p[i + 1];
      }
    }
    assert w in Neighbours(adj, y);
    if y !in visited {
      ExitLevel(adj, from, visited, dist, level, q, y);
    }
  }

  /** From a set closed under neighbours, every path stays inside it. */
  lemma {:induction false} PathStaysInside(adj: Adjacency, from: string, visited: set<string>, p: seq<string>, w: string)
    requires from in visited
    requires forall u, x :: u in visited && x in Neighbours(adj, u) ==> x in visited
    requires IsPath(p, from, w, adj)
    ensures w in visited
    decreases |p|
  {
    if |p| > 1 {
      var q := p[..|p| - 1];
      assert IsPath(q, from, q[|q| - 1], adj) by {
        forall i | 0 <= i < |q| - 1 ensures q[i + 1] in Neighbours(adj, q[i]) {
          assert q[i] == p[i] && q[i + 1] == p[i + 1];
        }
      }
      PathStaysInside(adj, from, visited, q, q[|q| - 1]);
      assert w in Neighbours(adj, p[|p| - 2]);
    }
  }

  /** Visiting an unvisited neighbour of a node at the frontier level keeps the distances shortest. */
  lemma VisitKeepsShortest(adj: Adjacency, from: string, visited: set<string>, dist: map<string, nat>,
                           current: string, w: string)
    requires Tree(adj, from, map[], visited, dist) || (from in visited && dist.Keys == visited)
    requires Shortest(adj, from, visited, dist)
    requires current in visited && FrontierAtLeast(adj, visited, dist, dist[current])
    requires w in Neighbours(adj, current) && w !in visited
    ensures Shortest(adj, from, visited + {w}, dist[w := dist[current] + 1])
  {
    var d := dist[current];
    forall v, q | v in visited + {w} && IsPath(q, from, v, adj) ensures |q| - 1 >= dist[w := d + 1][v] {
      if v == w {
        ExitLevel(adj, from, visited, dist, d, q, w);
      }
    }
  }

  /** Sorted by distance from the start. */
  ghost predicate SortedByDist(queue: seq<string>, dist: map<string, nat>)
  {
    (forall i :: 0 <= i < |queue| ==> queue[i] in dist)
    && forall i, j :: 0 <= i < j < |queue| ==> dist[queue[i]] <= dist[queue[j]]
  }

  /** Removing more of `a` leaves less of it. */
  lemma DifferenceShrinks(a: set<string>, b0: set<string>, b: set<string>)
    requires b0 <= b <= a && b0 != b
    ensures |a - b| < |a - b0|
  {
    var x :| x in b && x !in b0;
    assert a - b0 == (a - b) + (b - b0);
    assert (a - b) * (b - b0) == {};
    assert x in b - b0;
  }

  /** The queue, the predecessors, the visited set and the found flag of `findNodePathBfs`. */
  datatype Search = Search(queue: seq<string>, prev: map<string, string>, visited: set<string>, found: bool)

  /** What holds of the search throughout, `dist` being the distance of each visited node. */
  ghost predicate Common(adj: Adjacency, from: string, to: string, s: Search, dist: map<string, nat>)
  {
    Tree(adj, from, s.prev, s.visited, dist) && Shortest(adj, from, s.visited, dist)
    && (forall i :: 0 <= i < |s.queue| ==> s.queue[i] in s.visited)
    && (s.found <==> to in s.visited) && (s.found ==> s.queue == [])
    && s.visited <= AllNodes(adj) && (NoEmptyId(adj) ==> [] !in s.visited)
    && SortedByDist(s.queue, dist)
  }

  /** Between two rounds: the queue spans one distance level, and holds the whole frontier. */
  ghost predicate BetweenRounds(adj: Adjacency, s: Search, dist: map<string, nat>)
    requires SortedByDist(s.queue, dist)
  {
    (s.queue != [] ==> forall i :: 0 <= i < |s.queue| ==> dist[s.queue[i]] <= dist[s.queue[0]] + 1)
    && (!s.found ==> forall u, x :: u in s.visited && x in Neighbours(adj, u) && x !in s.visited ==> u in s.queue)
  }

  /**
   * Within the round of `current` at distance `d`: the queue holds levels `d`
   * and `d + 1`, and the frontier is in the queue or among the neighbours of
   * `current` still to be looked at.
   */
  ghost predicate InRound(adj: Adjacency, s: Search, dist: map<string, nat>, current: string, d: nat, remaining: set<string>)
    requires SortedByDist(s.queue, dist)
  {
    current in s.visited && current in dist && dist[current] == d && remaining <= Neighbours(adj, current)
    && (forall i :: 0 <= i < |s.queue| ==> d <= dist[s.queue[i]] <= d + 1)
    && (!s.found ==> forall u, x :: u in s.visited && x in Neighbours(adj, u) && x !in s.visited ==>
      u in s.queue || (u == current && x in remaining))
  }

  /** Taking the head of the queue starts its round. */
  lemma PopStartsRound(adj: Adjacency, from: string, to: string, s: Search, dist: map<string, nat>)
    requires Common(adj, from, to, s, dist) && BetweenRounds(adj, s, dist) && s.queue != []
    ensures var p := s.(queue := s.queue[1..]);
      Common(adj, from, to, p, dist)
      && InRound(adj, p, dist, s.queue[0], dist[s.queue[0]], Neighbours(adj, s.queue[0]))
  {
    var q := s.queue[1..];
    assert forall i :: 0 <= i < |q| ==> q[i] == s.queue[i + 1];
    var p := s.(queue := q);
    assert SortedByDist(q, dist);
    assert !s.found;
  }

  /** Looking at a neighbour `w` of `current` that was already visited changes nothing else. */
  lemma SkipKeepsRound(adj: Adjacency, from: string, to: string, s: Search, dist: map<string, nat>,
                       current: string, d: nat, remaining: set<string>, w: string)
    requires Common(adj, from, to, s, dist) && InRound(adj, s, dist, current, d, remaining)
    requires w in remaining && w in s.visited
    ensures InRound(adj, s, dist, current, d, remaining - {w})
  {
  }

  /** The search once `w` is visited from `current`: queued, or the search ends when it is the target. */
  function Visit(s: Search, current: string, w: string, to: string): Search
  {
    var visited := s.visited + {w};
    var prev := s.prev[w := current];
    if w == to then Search([], prev, visited, true) else Search(s.queue + [w], prev, visited, false)
  }

  /** Visiting an unvisited neighbour `w` of `current`: the search invariants carry over. */
  lemma VisitKeepsRound(adj: Adjacency, from: string, to: string, s: Search, dist: map<string, nat>,
                        current: string, d: nat, remaining: set<string>, w: string)
    requires Common(adj, from, to, s, dist) && InRound(adj, s, dist, current, d, remaining)
    requires w in remaining && w !in s.visited && !s.found
    ensures var t := Visit(s, current, w, to);
      Common(adj, from, to, t, dist[w := d + 1]) && InRound(adj, t, dist[w := d + 1], current, d, remaining - {w})
  {
    VisitKeepsCommon(adj, from, to, s, dist, current, d, remaining, w);
    VisitKeepsInRound(adj, from, to, s, dist, current, d, remaining, w);
  }

  lemma VisitKeepsCommon(adj: Adjacency, from: string, to: string, s: Search, dist: map<string, nat>,
                         current: string, d: nat, remaining: set<string>, w: string)
    requires Common(adj, from, to, s, dist) && InRound(adj, s, dist, current, d, remaining)
    requires w in remaining && w !in s.visited && !s.found
    ensures Common(adj, from, to, Visit(s, current, w, to), dist[w := d + 1])
  {
    var t := Visit(s, current, w, to);
    var dist' := dist[w := d + 1];
    assert FrontierAtLeast(adj, s.visited, dist, d);
    VisitKeepsShortest(adj, from, s.visited, dist, current, w);
    assert w in AllNodes(adj) by {
      assert current in adj && w in adj[current];
    }
    VisitKeepsTree(adj, from, s.prev, s.visited, dist, current, w);
    VisitKeepsSorted(s.queue, dist, d, w);
  }

  /** Recording `current` as the predecessor of a new neighbour `w` keeps the tree. */
  lemma VisitKeepsTree(adj: Adjacency, from: string, prev: map<string, string>, visited: set<string>,
                       dist: map<string, nat>, current: string, w: string)
    requires Tree(adj, from, prev, visited, dist)
    requires current in visited && w in Neighbours(adj, current) && w !in visited
    ensures Tree(adj, from, prev[w := current], visited + {w}, dist[w := dist[current] + 1])
  {
  }

  /** Queueing a node one level past the queue's levels keeps the queue sorted. */
  lemma VisitKeepsSorted(queue: seq<string>, dist: map<string, nat>, d: nat, w: string)
    requires SortedByDist(queue, dist) && w !in dist
    requires forall i :: 0 <= i < |queue| ==> dist[queue[i]] <= d + 1
    ensures SortedByDist(queue, dist[w := d + 1]) && SortedByDist(queue + [w], dist[w := d + 1])
  {
  }

  lemma VisitKeepsInRound(adj: Adjacency, from: string, to: string, s: Search, dist: map<string, nat>,
                          current: string, d: nat, remaining: set<string>, w: string)
    requires Common(adj, from, to, s, dist) && InRound(adj, s, dist, current, d, remaining)
    requires w in remaining && w !in s.visited && !s.found
    requires SortedByDist(Visit(s, current, w, to).queue, dist[w := d + 1])
    ensures InRound(adj, Visit(s, current, w, to), dist[w := d + 1], current, d, remaining - {w})
  {
  }

  /** The end of a round that did not find the target leaves the whole frontier queued. */
  lemma RoundEnds(adj: Adjacency, from: string, to: string, s: Search, dist: map<string, nat>, current: string, d: nat)
    requires Common(adj, from, to, s, dist) && InRound(adj, s, dist, current, d, {})
    ensures BetweenRounds(adj, s, dist)
  {
  }

  /** The inner loop of `findNodePathBfs`: the neighbours of `current`, in any order, until the target is found. */
  method VisitNeighbours(adj: Adjacency, from: string, to: string, current: string, s: Search, ghost dist: map<string, nat>)
    returns (t: Search, ghost tdist: map<string, nat>)
    requires Common(adj, from, to, s, dist) && !s.found
    requires current in dist && InRound(adj, s, dist, current, dist[current], Neighbours(adj, current))
    ensures Common(adj, from, to, t, tdist) && BetweenRounds(adj, t, tdist)
    ensures s.visited <= t.visited && (t.visited == s.visited ==> |t.queue| <= |s.queue|)
  {
    ghost var d := dist[current];
    t, tdist := s, dist;
    var remaining := Neighbours(adj, current);
    while remaining != {}
      invariant Common(adj, from, to, t, tdist) && !t.found
      invariant InRound(adj, t, tdist, current, d, remaining)
      invariant s.visited <= t.visited && (t.visited == s.visited ==> |t.queue| <= |s.queue|)
      decreases remaining
    {
      var neighbour :| neighbour in remaining;
      if neighbour in t.visited {
        SkipKeepsRound(adj, from, to, t, tdist, current, d, remaining, neighbour);
        remaining := remaining - {neighbour};
      } else {
        VisitKeepsRound(adj, from, to, t, tdist, current, d, remaining, neighbour);
        remaining := remaining - {neighbour};
        var visited := t.visited + {neighbour};
        var prev := t.prev[neighbour := current];
        tdist := tdist[neighbour := d + 1];
        if neighbour == to {
          t := Search([], prev, visited, true);
          return;
        }
        t := Search(t.queue + [neighbour], prev, visited, false);
      }
    }
    RoundEnds(adj, from, to, t, tdist, current, d);
  }

  /**
   * The rebuilding loop of `findNodePathBfs`: predecessors from `to` back to
   * `from`, the path given up for `[from, to]` when a predecessor is the
   * empty id.
   */
  method RebuildPath(adj: Adjacency, from: string, to: string, s: Search, ghost dist: map<string, nat>)
    returns (chain: seq<string>)
    requires Common(adj, from, to, s, dist) && s.found
    ensures (chain == [from, to] && [] in s.visited) || (IsPath(chain, from, to, adj) && |chain| == dist[to] + 1)
  {
    var cursor := to;
    chain := [to];
    while cursor != from
      invariant cursor in s.visited
      invariant |chain| >= 1 && chain[0] == cursor && chain[|chain| - 1] == to
      invariant forall i :: 0 <= i < |chain| - 1 ==> chain[i + 1] in Neighbours(adj, chain[i])
      invariant |chain| - 1 + dist[cursor] == dist[to]
      decreases dist[cursor]
    {
      var next := chain;
      cursor := s.prev[cursor];
      if cursor == [] {
        return [from, to];
      }
      chain := [cursor] + chain;
      assert forall i :: 0 < i < |chain| ==> chain[i] == next[i - 1];
    }
  }

  /** With no frontier left and the target unvisited, the target cannot be reached. */
  lemma Unreachable(adj: Adjacency, from: string, to: string, s: Search, dist: map<string, nat>)
    requires Common(adj, from, to, s, dist) && BetweenRounds(adj, s, dist) && s.queue == [] && !s.found
    ensures forall p :: !IsPath(p, from, to, adj)
  {
    forall p | IsPath(p, from, to, adj) ensures false {
      PathStaysInside(adj, from, s.visited, p, to);
    }
  }

  /** The outer loop of `findNodePathBfs`: rounds until the queue is empty. */
  method SearchFrom(adj: Adjacency, from: string, to: string) returns (s: Search, ghost dist: map<string, nat>)
    requires from != [] && from != to && from in adj
    ensures Common(adj, from, to, s, dist) && BetweenRounds(adj, s, dist) && s.queue == []
  {
    s := Search([from], map[], {from}, false);
    dist := map[from := 0];
    assert Common(adj, from, to, s, dist);
    while s.queue != []
      invariant Common(adj, from, to, s, dist) && BetweenRounds(adj, s, dist)
      decreases |AllNodes(adj) - s.visited|, |s.queue|
    {
      var current := s.queue[0];
      PopStartsRound(adj, from, to, s, dist);
      ghost var before := s.visited;
      s, dist := VisitNeighbours(adj, from, to, current, s.(queue := s.queue[1..]), dist);
      if s.visited != before {
        DifferenceShrinks(AllNodes(adj), before, s.visited);
      }
    }
  }

  /**
   * `findNodePathBfs`: an empty id gives no path, equal ids the one-node
   * path, an id without neighbours `[from, to]`; otherwise a breadth-first
   * search from `from` over the neighbour sets (visited in any order) rebuilds
   * the path through the predecessors, and `[from, to]` stands in when `to`
   * cannot be reached or the rebuilding meets an empty id.
   */
  method FindNodePathBfs(from: string, to: string, adj: Adjacency) returns (chain: seq<string>)
    ensures from == [] || to == [] ==> chain == []
    ensures from != [] && to != [] && from == to ==> chain == [from]
    ensures from != [] && to != [] && from != to && (from !in adj || to !in adj) ==> chain == [from, to]
    ensures from != [] && to != [] ==> chain == [from, to] || IsPath(chain, from, to, adj)
    ensures from != [] && to != [] && KeysClosed(adj) && NoEmptyId(adj) ==>
      forall p :: IsPath(p, from, to, adj) ==> IsPath(chain, from, to, adj) && |chain| <= |p|
  {
    if from == [] || to == [] {
      return [];
    }
    if from == to {
      return [from];
    }
    if from !in adj || to !in adj {
      forall p | KeysClosed(adj) && IsPath(p, from, to, adj) ensures false {
        PathNeedsKeys(adj, p, from, to);
      }
      return [from, to];
    }
    var s;
    ghost var dist;
    s, dist := SearchFrom(adj, from, to);
    if !s.found {
      Unreachable(adj, from, to, s, dist);
      return [from, to];
    }
    chain := RebuildPath(adj, from, to, s, dist);
  }

  /**
   * The consecutive-repeat filter of `buildThreadAutoMetaById`: a node id
   * is kept unless it equals the one kept just before it.
   */
  function DedupeConsecutive(s: seq<string>): (r: seq<string>)
    ensures |r| <= |s|
    ensures forall i :: 0 <= i < |r| - 1 ==> r[i] != r[i + 1]
    ensures s != [] ==> r != [] && r[0] == s[0] && r[|r| - 1] == s[|s| - 1]
    decreases |s|
  {
    if s == [] then []
    else
      var r := DedupeConsecutive(s[..|s| - 1]);
      if r != [] && r[|r| - 1] == s[|s| - 1] then r else r + [s[|s| - 1]]
  }

  /** The filter drops repeats only: the same ids come out. */
  lemma {:induction false} DedupeConsecutiveMembers(s: seq<string>, x: string)
    ensures x in DedupeConsecutive(s) <==> x in s
    decreases |s|
  {
    if s != [] {
      var p := s[..|s| - 1];
      DedupeConsecutiveMembers(p, x);
      assert s == p + [s[|s| - 1]];
    }
  }

  /** A list without consecutive repeats passes through unchanged. */
  lemma {:induction false} DedupeConsecutiveKeeps(s: seq<string>)
    requires forall i :: 0 <= i < |s| - 1 ==> s[i] != s[i + 1]
    ensures DedupeConsecutive(s) == s
    decreases |s|
  {
    if s != [] {
      var p := s[..|s| - 1];
      DedupeConsecutiveKeeps(p);
      if |p| > 0 {
        assert p[|p| - 1] == s[|s| - 2];
      }
      assert p + [s[|s| - 1]] == s;
    }
  }

  /** The filter written as the loop of `buildThreadAutoMetaById`. */
  method OrderedUniqueNodeIds(s: seq<string>) returns (r: seq<string>)
    ensures r == DedupeConsecutive(s)
  {
    r := [];
    var i := 0;
    while i < |s|
      invariant 0 <= i <= |s|
      invariant r == DedupeConsecutive(s[..i])
    {
      assert s[..i + 1][..i] == s[..i] && s[..i + 1][i] == s[i];
      if r == [] || r[|r| - 1] != s[i] {
        r := r + [s[i]];
      }
      i := i + 1;
    }
    assert s[..i] == s;
  }

  /** The section of the current mention, or `""` when the index is past the end. */
  function CurrentSection(sections: seq<string>, current: nat): string
  {
    if current < |sections| then sections[current] else ""
  }

  /** The section of the mention `offset` steps after the current one, cyclically. */
  function SectionAt(sections: seq<string>, current: nat, offset: nat): string
    requires |sections| > 0
  {
    sections[(current + offset) % |sections|]
  }

  /** The loop of `findNextThreadIndex` from `offset` on. */
  function ScanFrom(sections: seq<string>, current: nat, section: string, offset: nat): (r: nat)
    requires |sections| > 0
    ensures r < |sections|
    decreases |sections| - offset
  {
    if offset >= |sections| then (current + 1) % |sections|
    else if SectionAt(sections, current, offset) != section then (current + offset) % |sections|
    else ScanFrom(sections, current, section, offset + 1)
  }

  /**
   * `findNextThreadIndex(mentions, currentIndex)`, a mention being given by
   * its section id: `-1` for no mentions; otherwise the first mention after
   * the current one, cyclically, that lies in another section, or the next
   * mention when all lie in the same section.
   */
  function FindNextThreadIndex(sections: seq<string>, current: nat): (r: int)
    ensures sections == [] ==> r == -1
    ensures sections != [] ==> 0 <= r < |sections|
  {
    if sections == [] then -1
    else ScanFrom(sections, current, CurrentSection(sections, current), 1)
  }

  /** The steps `offset` from `start` up to `k` all land in `section`. */
  predicate SameSectionUpTo(sections: seq<string>, current: nat, section: string, start: nat, k: nat)
    requires |sections| > 0
  {
    forall j :: start <= j < k ==> SectionAt(sections, current, j) == section
  }

  /** One more step in the same section extends the run. */
  lemma SameSectionExtends(sections: seq<string>, current: nat, section: string, offset: nat, k: nat)
    requires |sections| > 0
    requires SectionAt(sections, current, offset) == section
    requires SameSectionUpTo(sections, current, section, offset + 1, k)
    ensures SameSectionUpTo(sections, current, section, offset, k)
  {
  }

  /** `r` is `k` steps on, in another section, after a run in `section` from `start`. */
  predicate FirstOtherAt(sections: seq<string>, current: nat, section: string, start: nat, k: nat, r: nat)
    requires |sections| > 0
  {
    start <= k < |sections| && r == (current + k) % |sections|
    && sections[r] != section && SameSectionUpTo(sections, current, section, start, k)
  }

  /**
   * `r` is the first index after `current`, from `start` steps on, in
   * another section than `section`, or the next index when there is none.
   */
  ghost predicate FirstOtherOrNext(sections: seq<string>, current: nat, section: string, start: nat, r: nat)
    requires |sections| > 0
  {
    (exists k: nat :: FirstOtherAt(sections, current, section, start, k, r))
    || (r == (current + 1) % |sections| && SameSectionUpTo(sections, current, section, start, |sections|))
  }

  lemma {:induction false} ScanFromFinds(sections: seq<string>, current: nat, section: string, offset: nat)
    requires |sections| > 0 && offset >= 1
    ensures FirstOtherOrNext(sections, current, section, offset, ScanFrom(sections, current, section, offset))
    decreases |sections| - offset
  {
    var n := |sections|;
    var r := ScanFrom(sections, current, section, offset);
    if offset >= n {
      assert r == (current + 1) % n;
      assert SameSectionUpTo(sections, current, section, offset, n);
    } else if SectionAt(sections, current, offset) != section {
      assert r == (current + offset) % n && sections[r] != section;
      assert FirstOtherAt(sections, current, section, offset, offset, r);
    } else {
      var next := offset + 1;
      assert r == ScanFrom(sections, current, section, next);
      ScanFromFinds(sections, current, section, next);
      if exists k: nat :: FirstOtherAt(sections, current, section, next, k, r) {
        var k: nat :| FirstOtherAt(sections, current, section, next, k, r);
        SameSectionExtends(sections, current, section, offset, k);
        assert FirstOtherAt(sections, current, section, offset, k, r);
      } else {
        SameSectionExtends(sections, current, section, offset, n);
      }
    }
  }

  /**
   * The index found is the first one after the current mention, cyclically,
   * in another section; and only when every other mention shares the
   * current section does the search fall back to the next mention.
   */
  lemma NextThreadIndexFirstOther(sections: seq<string>, current: nat)
    requires sections != []
    ensures FirstOtherOrNext(sections, current, CurrentSection(sections, current), 1, FindNextThreadIndex(sections, current))
  {
    ScanFromFinds(sections, current, CurrentSection(sections, current), 1);
  }

  /** A step of 1 to n - 1 mentions from a mention never comes back to it. */
  lemma StepMoves(current: nat, k: nat, n: nat)
    requires current < n && 1 <= k < n
    ensures (current + k) % n != current
  {
    if current + k < n {
      assert (current + k) % n == current + k;
    } else {
      assert current + k == n + (current + k - n);
      assert 0 <= current + k - n < n;
      assert (current + k) % n == current + k - n;
    }
  }

  /** With two mentions or more the search never stays on the current one. */
  lemma NextThreadIndexMoves(sections: seq<string>, current: nat)
    requires |sections| >= 2 && current < |sections|
    ensures FindNextThreadIndex(sections, current) != current
  {
    var n := |sections|;
    NextThreadIndexFirstOther(sections, current);
    var r := FindNextThreadIndex(sections, current);
    var section := CurrentSection(sections, current);
    if exists k: nat :: FirstOtherAt(sections, current, section, 1, k, r) {
      var k: nat :| FirstOtherAt(sections, current, section, 1, k, r);
      StepMoves(current, k, n);
    } else {
      StepMoves(current, 1, n);
    }
  }
}
