/**
 * The edge index of the mind map in articles/article-page.js (and its copy in
 * listening-notes-7q4m/article-page.js, which keeps the pair index only):
 * every edge gets an id, both orders of its end points map to that id, and
 * each end point lists the ids of the edges that touch it.
 */
module GraphIndex {
  import opened Options
  import opened JsStrings

  /** An edge as the map file gives it; `id` may be missing (or empty, which reads as missing). */
  datatype RawEdge = RawEdge(id: Option<string>, from: string, to: string)

  /** An edge with its id settled. */
  datatype Edge = Edge(id: string, from: string, to: string)

  /** `` `${from}->${to}` ``, the key of `edgeIdByPairKey`. */
  function PairKey(from: string, to: string): string
  {
    from + "->" + to
  }

  /** `edge.id || `edge-${index}-${edge.from}-${edge.to}``. */
  function EdgeIdFor(e: RawEdge, index: nat): (id: string)
    ensures e.id.Some? && e.id.value != "" ==> id == e.id.value
    ensures e.id.None? || e.id.value == "" ==> id == "edge-" + NatToString(index) + "-" + e.from + "-" + e.to
  {
    if e.id.Some? && e.id.value != "" then e.id.value
    else "edge-" + NatToString(index) + "-" + e.from + "-" + e.to
  }

  /** The edges `buildMapEdges` returns. */
  function Normalize(raw: seq<RawEdge>): (r: seq<Edge>)
    ensures |r| == |raw|
    ensures forall i :: 0 <= i < |raw| ==> r[i] == Edge(EdgeIdFor(raw[i], i), raw[i].from, raw[i].to)
  {
    seq(|raw|, i requires 0 <= i < |raw| => Edge(EdgeIdFor(raw[i], i), raw[i].from, raw[i].to))
  }

  /** `edgeIdByPairKey` once `edges` have been added in order: both key orders of every edge. */
  function PairIndex(edges: seq<Edge>): map<string, string>
    decreases |edges|
  {
    if edges == [] then map[]
    else
      var e := edges[|edges| - 1];
      PairIndex(edges[..|edges| - 1])[PairKey(e.from, e.to) := e.id][PairKey(e.to, e.from) := e.id]
  }

  /** `list.push(id)` on the list of `node`, created empty when missing. */
  function Append(m: map<string, seq<string>>, node: string, id: string): map<string, seq<string>>
  {
    m[node := (if node in m then m[node] else []) + [id]]
  }

  /** `edgeIdsByNodeId` once `edges` have been added in order. */
  function Incidence(edges: seq<Edge>): map<string, seq<string>>
    decreases |edges|
  {
    if edges == [] then map[]
    else
      AddIncidence(Incidence(edges[..|edges| - 1]), edges[|edges| - 1])
  }

  /** Edge `e` pushed on the lists of its two end points. */
  function AddIncidence(m: map<string, seq<string>>, e: Edge): map<string, seq<string>>
  {
    Append(Append(m, e.from, e.id), e.to, e.id)
  }

  /** Pushing an edge touches only the lists of its ends, each once per end it is. */
  lemma AddIncidenceAt(m: map<string, seq<string>>, e: Edge, node: string)
    ensures node in AddIncidence(m, e) <==> node in m || e.from == node || e.to == node
    ensures node in AddIncidence(m, e) ==>
      AddIncidence(m, e)[node]
      == (if node in m then m[node] else []) + (if e.from == node then [e.id] else []) + (if e.to == node then [e.id] else [])
  {
  }

  /** An edge `j` that writes neither key of edge `i`. */
  predicate Disjoint(edges: seq<Edge>, i: nat, j: nat)
    requires i < |edges| && j < |edges|
  {
    var a := edges[i];
    var b := edges[j];
    PairKey(b.from, b.to) != PairKey(a.from, a.to) && PairKey(b.from, b.to) != PairKey(a.to, a.from)
    && PairKey(b.to, b.from) != PairKey(a.from, a.to) && PairKey(b.to, b.from) != PairKey(a.to, a.from)
  }

  /**
   * Both orders of every edge are keys of the index, and an edge that no
   * later edge overwrites is found under both orders. (Later edges with the
   * same end points win: the map is written in order.)
   */
  lemma {:induction false} PairIndexBothOrders(edges: seq<Edge>, i: nat)
    requires i < |edges|
    ensures PairKey(edges[i].from, edges[i].to) in PairIndex(edges)
    ensures PairKey(edges[i].to, edges[i].from) in PairIndex(edges)
    ensures (forall j :: i < j < |edges| ==> Disjoint(edges, i, j)) ==>
      PairIndex(edges)[PairKey(edges[i].from, edges[i].to)] == edges[i].id
      && PairIndex(edges)[PairKey(edges[i].to, edges[i].from)] == edges[i].id
    decreases |edges|
  {
    var n := |edges|;
    var p := edges[..n - 1];
    if i < n - 1 {
      assert p[i] == edges[i];
      PairIndexBothOrders(p, i);
      if forall j :: i < j < |edges| ==> Disjoint(edges, i, j) {
        assert Disjoint(edges, i, n - 1);
        forall j | i < j < |p| ensures Disjoint(p, i, j) {
          assert p[j] == edges[j];
          assert Disjoint(edges, i, j);
        }
      }
    }
  }

  /** Every key of the index is a key of some edge, and maps to that edge's id. */
  lemma {:induction false} PairIndexValues(edges: seq<Edge>, k: string)
    requires k in PairIndex(edges)
    ensures exists i :: (0 <= i < |edges|
      && (k == PairKey(edges[i].from, edges[i].to) || k == PairKey(edges[i].to, edges[i].from))
      && PairIndex(edges)[k] == edges[i].id)
    decreases |edges|
  {
    var n := |edges|;
    var e := edges[n - 1];
    var p := edges[..n - 1];
    if k != PairKey(e.from, e.to) && k != PairKey(e.to, e.from) {
      PairIndexValues(p, k);
      var i :| 0 <= i < |p|
        && (k == PairKey(p[i].from, p[i].to) || k == PairKey(p[i].to, p[i].from))
        && PairIndex(p)[k] == p[i].id;
      assert p[i] == edges[i];
    } else {
      assert PairIndex(edges)[k] == edges[n - 1].id;
    }
  }

  /** The ids of the edges touching `node`, in edge order; a self-loop is listed twice. */
  function IncidentIds(edges: seq<Edge>, node: string): seq<string>
    decreases |edges|
  {
    if edges == [] then []
    else
      var e := edges[|edges| - 1];
      IncidentIds(edges[..|edges| - 1], node)
      + (if e.from == node then [e.id] else []) + (if e.to == node then [e.id] else [])
  }

  /** A node has a list exactly when some edge touches it, and its list is `IncidentIds`. */
  lemma {:induction false} IncidenceIsIncidentIds(edges: seq<Edge>, node: string)
    ensures node in Incidence(edges) <==> exists i :: 0 <= i < |edges| && (edges[i].from == node || edges[i].to == node)
    ensures node in Incidence(edges) ==> Incidence(edges)[node] == IncidentIds(edges, node)
    decreases |edges|
  {
    if edges != [] {
      var n := |edges|;
      var e := edges[n - 1];
      var p := edges[..n - 1];
      IncidenceIsIncidentIds(p, node);
      AddIncidenceAt(Incidence(p), e, node);
      if exists i :: 0 <= i < |p| && (p[i].from == node || p[i].to == node) {
        var i :| 0 <= i < |p| && (p[i].from == node || p[i].to == node);
        assert edges[i] == p[i];
      }
      if exists i :: 0 <= i < |edges| && (edges[i].from == node || edges[i].to == node) {
        var i :| 0 <= i < |edges| && (edges[i].from == node || edges[i].to == node);
        if i < n - 1 {
          assert p[i] == edges[i];
        }
      }
      if node !in Incidence(p) {
        assert IncidentIds(p, node) == [] by {
          NoTouchNoIds(p, node);
        }
      }
    }
  }

  lemma {:induction false} NoTouchNoIds(edges: seq<Edge>, node: string)
    requires forall i :: 0 <= i < |edges| ==> edges[i].from != node && edges[i].to != node
    ensures IncidentIds(edges, node) == []
    decreases |edges|
  {
    if edges != [] {
      var p := edges[..|edges| - 1];
      assert forall i :: 0 <= i < |p| ==> p[i] == edges[i];
      NoTouchNoIds(p, node);
    }
  }

  /** The list of a node holds exactly the ids of the edges that touch it. */
  lemma {:induction false} IncidentIdsMembers(edges: seq<Edge>, node: string, id: string)
    ensures id in IncidentIds(edges, node) <==>
      exists i :: 0 <= i < |edges| && edges[i].id == id && (edges[i].from == node || edges[i].to == node)
    decreases |edges|
  {
    if edges != [] {
      var n := |edges|;
      var p := edges[..n - 1];
      IncidentIdsMembers(p, node, id);
      if exists i :: 0 <= i < |p| && p[i].id == id && (p[i].from == node || p[i].to == node) {
        var i :| 0 <= i < |p| && p[i].id == id && (p[i].from == node || p[i].to == node);
        assert edges[i] == p[i];
      }
      if exists i :: 0 <= i < |edges| && edges[i].id == id && (edges[i].from == node || edges[i].to == node) {
        var i :| 0 <= i < |edges| && edges[i].id == id && (edges[i].from == node || edges[i].to == node);
        if i < n - 1 {
          assert p[i] == edges[i];
        }
      }
    }
  }

  class MindMap {
    var edgeIdByPairKey: map<string, string>
    var edgeIdsByNodeId: map<string, seq<string>>

    constructor()
      ensures edgeIdByPairKey == map[] && edgeIdsByNodeId == map[]
    {
      edgeIdByPairKey := map[];
      edgeIdsByNodeId := map[];
    }

    /**
     * `buildMapEdges`: both maps start over; a missing list gives no edges;
     * otherwise every edge is given its id and added to both maps in order.
     */
    method BuildMapEdges(raw: Option<seq<RawEdge>>) returns (edges: seq<Edge>)
      modifies this
      ensures raw.None? ==> edges == [] && edgeIdByPairKey == map[] && edgeIdsByNodeId == map[]
      ensures raw.Some? ==>
        edges == Normalize(raw.value)
        && edgeIdByPairKey == PairIndex(edges) && edgeIdsByNodeId == Incidence(edges)
    {
      edgeIdByPairKey := map[];
      edgeIdsByNodeId := map[];
      edges := [];
      if raw.None? {
        return;
      }
      var all := raw.value;
      ghost var target := Normalize(all);
      var i := 0;
      while i < |all|
        invariant 0 <= i <= |all|
        invariant edges == target[..i]
        invariant edgeIdByPairKey == PairIndex(edges) && edgeIdsByNodeId == Incidence(edges)
      {
        var e := Edge(EdgeIdFor(all[i], i), all[i].from, all[i].to);
        edgeIdByPairKey := edgeIdByPairKey[PairKey(e.from, e.to) := e.id][PairKey(e.to, e.from) := e.id];
        edgeIdsByNodeId := Append(Append(edgeIdsByNodeId, e.from, e.id), e.to, e.id);
        ghost var prev := edges;
        edges := edges + [e];
        assert edges[..|edges| - 1] == prev;
        assert target[..i + 1] == target[..i] + [target[i]];
        i := i + 1;
      }
      assert target[..i] == target;
    }
  }
}
