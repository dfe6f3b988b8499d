/**
 * The hop-chain notation of the article markers (`data-path`,
 * `data-edges`): fragments are separated by runs of `;` and `,`, and inside
 * a fragment the node ids are separated by `->` or `>`. `resolveNodeIdsForPath`
 * collects the node ids it names and `resolveEdgeIdsForMarker` the ids of the
 * indexed edges between consecutive ids of a fragment, both without repeats
 * in first-seen order.
 */
module PathSpec {
  import opened JsStrings
  import opened Collections
  import opened GraphIndex

  /** `s.replaceAll("->", ">")`: left to right, matches never overlapping. */
  function ReplaceArrow(s: string): (r: string)
    ensures |r| <= |s|
    decreases |s|
  {
    if s == [] then []
    else if |s| >= 2 && s[0] == '-' && s[1] == '>' then ">" + ReplaceArrow(s[2..])
    else [s[0]] + ReplaceArrow(s[1..])
  }

  predicate DashFree(s: string)
  {
    forall i :: 0 <= i < |s| ==> s[i] != '-'
  }

  /** Text without a `-` is left alone. */
  lemma {:induction false} ReplaceArrowNoDash(s: string)
    requires DashFree(s)
    ensures ReplaceArrow(s) == s
    decreases |s|
  {
    if s != [] {
      ReplaceArrowNoDash(s[1..]);
      assert [s[0]] + s[1..] == s;
    }
  }

  /** A `-`-free start is kept as it is, and replacing goes on after it. */
  lemma {:induction false} ReplaceArrowAfterDashFree(t: string, x: string)
    requires DashFree(t)
    ensures ReplaceArrow(t + x) == t + ReplaceArrow(x)
    decreases |t|
  {
    if t == [] {
      assert t + x == x && t + ReplaceArrow(x) == ReplaceArrow(x);
    } else {
      var tx := t + x;
      assert tx[0] == t[0] && tx[1..] == t[1..] + x;
      assert DashFree(t[1..]);
      ReplaceArrowAfterDashFree(t[1..], x);
      assert ReplaceArrow(tx) == [t[0]] + (t[1..] + ReplaceArrow(x));
      assert [t[0]] + (t[1..] + ReplaceArrow(x)) == t + ReplaceArrow(x);
    }
  }

  /** `spec.split(/[;,]+/).map(f => f.trim()).filter(Boolean)`. */
  function Fragments(spec: string): (r: seq<string>)
    ensures forall k :: 0 <= k < |r| ==> r[k] != [] && IsTrimmed(r[k])
    ensures forall k :: 0 <= k < |r| ==> ';' !in r[k] && ',' !in r[k]
  {
    var pieces := Split(spec, {';', ','});
    TrimmedTokensAvoid(pieces, ';');
    TrimmedTokensAvoid(pieces, ',');
    TrimmedTokens(pieces)
  }

  /** The node ids of one fragment: `fragment.replaceAll("->", ">").split(">")`, trimmed, empty ones dropped. */
  function Chain(fragment: string): (r: seq<string>)
    ensures forall k :: 0 <= k < |r| ==> r[k] != [] && IsTrimmed(r[k]) && '>' !in r[k]
  {
    var pieces := Split(ReplaceArrow(fragment), {'>'});
    TrimmedTokensAvoid(pieces, '>');
    TrimmedTokens(pieces)
  }

  /** The values of `g` on `xs`, one after the other. */
  function FlatMap(xs: seq<string>, g: string -> seq<string>): seq<string>
    decreases |xs|
  {
    if xs == [] then [] else g(xs[0]) + FlatMap(xs[1..], g)
  }

  lemma {:induction false} FlatMapMember(xs: seq<string>, g: string -> seq<string>, y: string)
    ensures y in FlatMap(xs, g) <==> exists j :: 0 <= j < |xs| && y in g(xs[j])
    decreases |xs|
  {
    if xs != [] {
      FlatMapMember(xs[1..], g, y);
      if exists j :: 0 <= j < |xs| && y in g(xs[j]) {
        var j :| 0 <= j < |xs| && y in g(xs[j]);
        if j > 0 {
          assert xs[1..][j - 1] == xs[j];
        }
      }
      if exists j :: 0 <= j < |xs[1..]| && y in g(xs[1..][j]) {
        var j :| 0 <= j < |xs[1..]| && y in g(xs[1..][j]);
        assert xs[1..][j] == xs[j + 1];
      }
    }
  }

  /** `resolveNodeIdsForPath`: the node ids of all fragments, each once, in first-seen order. */
  function ResolveNodeIdsForPath(spec: string): (r: seq<string>)
    ensures spec == [] ==> r == []
    ensures NoDups(r)
    ensures forall k :: 0 <= k < |r| ==> r[k] != [] && IsTrimmed(r[k]) && '>' !in r[k]
  {
    if spec == [] then []
    else
      var ids := FlatMap(Fragments(spec), Chain);
      forall y | y in ids ensures y != [] && IsTrimmed(y) && '>' !in y {
        FlatMapMember(Fragments(spec), Chain, y);
      }
      Dedupe(ids)
  }

  /** The empty text has no fragments. */
  lemma FragmentsOfEmpty(spec: string)
    requires spec == []
    ensures Fragments(spec) == []
  {
    assert Split(spec, {';', ','}) == [[]];
    assert Trim([]) == [];
  }

  lemma {:induction false} NodeIdsOfFragments(spec: string, id: string)
    requires spec != []
    ensures id in ResolveNodeIdsForPath(spec) <==>
      exists j :: 0 <= j < |Fragments(spec)| && id in Chain(Fragments(spec)[j])
  {
    var frags := Fragments(spec);
    var ids := FlatMap(frags, Chain);
    assert ResolveNodeIdsForPath(spec) == Dedupe(ids);
    assert id in Dedupe(ids) <==> id in ids;
    FlatMapMember(frags, Chain, id);
  }

  /** A result is an id named by one of the fragments, and every such id is a result. */
  lemma NodeIdsMember(spec: string, id: string)
    ensures id in ResolveNodeIdsForPath(spec) <==>
      exists j :: 0 <= j < |Fragments(spec)| && id in Chain(Fragments(spec)[j])
  {
    if spec != [] {
      NodeIdsOfFragments(spec, id);
    } else {
      FragmentsOfEmpty(spec);
    }
  }

  /** Hop `i` of `chain` is an indexed edge whose id is `id`. */
  predicate HopHasId(chain: seq<string>, i: int, index: map<string, string>, id: string)
  {
    0 <= i < |chain| - 1 && PairKey(chain[i], chain[i + 1]) in index && index[PairKey(chain[i], chain[i + 1])] == id
  }

  /** The ids `edgeIdByPairKey` gives for the consecutive pairs of a chain, missing pairs skipped. */
  function HopIds(chain: seq<string>, index: map<string, string>): seq<string>
    decreases |chain|
  {
    if |chain| < 2 then []
    else
      var key := PairKey(chain[0], chain[1]);
      (if key in index then [index[key]] else []) + HopIds(chain[1..], index)
  }

  lemma {:induction false} HopIdsMember(chain: seq<string>, index: map<string, string>, id: string)
    ensures id in HopIds(chain, index) <==> exists i :: HopHasId(chain, i, index, id)
    decreases |chain|
  {
    if |chain| >= 2 {
      var rest := chain[1..];
      var key := PairKey(chain[0], chain[1]);
      var head: seq<string> := if key in index then [index[key]] else [];
      assert HopIds(chain, index) == head + HopIds(rest, index);
      HopIdsMember(rest, index, id);
      if id in head {
        assert HopHasId(chain, 0, index, id);
      }
      if exists i :: HopHasId(rest, i, index, id) {
        var i :| HopHasId(rest, i, index, id);
        assert rest[i] == chain[i + 1] && rest[i + 1] == chain[i + 2];
        assert HopHasId(chain, i + 1, index, id);
      }
      if exists i :: HopHasId(chain, i, index, id) {
        var i :| HopHasId(chain, i, index, id);
        if i > 0 {
          assert rest[i - 1] == chain[i] && rest[i] == chain[i + 1];
          assert HopHasId(rest, i - 1, index, id);
        } else {
          assert id in head;
        }
      }
    } else {
      assert forall i :: !HopHasId(chain, i, index, id);
    }
  }

  /** The chain of each fragment. */
  function Chains(frags: seq<string>): (cs: seq<seq<string>>)
    ensures |cs| == |frags| && forall j :: 0 <= j < |frags| ==> cs[j] == Chain(frags[j])
  {
    seq(|frags|, j requires 0 <= j < |frags| => Chain(frags[j]))
  }

  /** The hop ids of each chain, one chain after the other. */
  function ChainsHopIds(cs: seq<seq<string>>, index: map<string, string>): seq<string>
    decreases |cs|
  {
    if cs == [] then [] else HopIds(cs[0], index) + ChainsHopIds(cs[1..], index)
  }

  /** The hop ids of each fragment, one fragment after the other. */
  function FragmentHopIds(frags: seq<string>, index: map<string, string>): seq<string>
  {
    ChainsHopIds(Chains(frags), index)
  }

  lemma {:induction false} ChainsHopIdsMember(cs: seq<seq<string>>, index: map<string, string>, id: string)
    ensures id in ChainsHopIds(cs, index) <==>
      exists j, i :: 0 <= j < |cs| && HopHasId(cs[j], i, index, id)
    decreases |cs|
  {
    if cs != [] {
      var rest := cs[1..];
      assert ChainsHopIds(cs, index) == HopIds(cs[0], index) + ChainsHopIds(rest, index);
      ChainsHopIdsMember(rest, index, id);
      HopIdsMember(cs[0], index, id);
      if exists j, i :: 0 <= j < |rest| && HopHasId(rest[j], i, index, id) {
        var j, i :| 0 <= j < |rest| && HopHasId(rest[j], i, index, id);
        assert rest[j] == cs[j + 1];
        assert HopHasId(cs[j + 1], i, index, id);
      }
      if exists j, i :: 0 <= j < |cs| && HopHasId(cs[j], i, index, id) {
        var j, i :| 0 <= j < |cs| && HopHasId(cs[j], i, index, id);
        if j > 0 {
          assert rest[j - 1] == cs[j];
          assert HopHasId(rest[j - 1], i, index, id);
        }
      }
    }
  }

  lemma FragmentHopIdsMember(frags: seq<string>, index: map<string, string>, id: string)
    ensures id in FragmentHopIds(frags, index) <==>
      exists j, i :: 0 <= j < |frags| && HopHasId(Chain(frags[j]), i, index, id)
  {
    var cs := Chains(frags);
    ChainsHopIdsMember(cs, index, id);
    if exists j, i :: 0 <= j < |cs| && HopHasId(cs[j], i, index, id) {
      var j, i :| 0 <= j < |cs| && HopHasId(cs[j], i, index, id);
      assert HopHasId(Chain(frags[j]), i, index, id);
    }
    if exists j, i :: 0 <= j < |frags| && HopHasId(Chain(frags[j]), i, index, id) {
      var j, i :| 0 <= j < |frags| && HopHasId(Chain(frags[j]), i, index, id);
      assert HopHasId(cs[j], i, index, id);
    }
  }

  /** `resolveEdgeIdsForMarker`: the ids of the indexed hops of all fragments, each once, in first-seen order. */
  function ResolveEdgeIdsForMarker(spec: string, index: map<string, string>): (r: seq<string>)
    ensures spec == [] ==> r == []
    ensures NoDups(r)
  {
    if spec == [] then []
    else Dedupe(FragmentHopIds(Fragments(spec), index))
  }

  /**
   * A result is the id the index gives for two consecutive ids of one
   * fragment, and every such id is a result.
   */
  lemma {:induction false} EdgeIdsOfFragments(spec: string, index: map<string, string>, id: string)
    requires spec != []
    ensures id in ResolveEdgeIdsForMarker(spec, index) <==>
      exists j, i :: 0 <= j < |Fragments(spec)| && HopHasId(Chain(Fragments(spec)[j]), i, index, id)
  {
    var ids := FragmentHopIds(Fragments(spec), index);
    assert ResolveEdgeIdsForMarker(spec, index) == Dedupe(ids);
    assert id in Dedupe(ids) <==> id in ids;
    FragmentHopIdsMember(Fragments(spec), index, id);
  }

  lemma EdgeIdsMember(spec: string, index: map<string, string>, id: string)
    ensures id in ResolveEdgeIdsForMarker(spec, index) <==>
      exists j, i :: 0 <= j < |Fragments(spec)| && HopHasId(Chain(Fragments(spec)[j]), i, index, id)
  {
    if spec != [] {
      EdgeIdsOfFragments(spec, index, id);
    } else {
      FragmentsOfEmpty(spec);
    }
  }

  /** Joining `->`-free ids with `->` and replacing the arrows gives the ids joined with `>`. */
  lemma {:induction false} ReplaceArrowJoin(ts: seq<string>)
    requires forall k :: 0 <= k < |ts| ==> DashFree(ts[k])
    ensures ReplaceArrow(Join(ts, "->")) == Join(ts, ">")
    decreases |ts|
  {
    if |ts| == 1 {
      ReplaceArrowNoDash(ts[0]);
    } else if |ts| >= 2 {
      var t, tail := ts[0], ts[1..];
      var rest := Join(tail, "->");
      var arrowRest := "->" + rest;
      assert Join(ts, "->") == t + arrowRest;
      ReplaceArrowAfterDashFree(t, arrowRest);
      assert arrowRest[2..] == rest;
      assert ReplaceArrow(arrowRest) == ">" + ReplaceArrow(rest);
      assert forall k :: 0 <= k < |tail| ==> tail[k] == ts[k + 1];
      ReplaceArrowJoin(tail);
      assert Join(ts, ">") == t + (">" + Join(tail, ">"));
    }
  }

  /** Splitting ids joined by a separator they do not contain gives them back. */
  lemma {:induction false} SplitJoined(ts: seq<string>, c: char)
    requires ts != []
    requires forall k, i :: 0 <= k < |ts| && 0 <= i < |ts[k]| ==> ts[k][i] != c
    ensures Split(Join(ts, [c]), {c}) == ts
    decreases |ts|
  {
    if |ts| == 1 {
      SplitNoSeparator(ts[0], {c});
    } else {
      SplitJoined(ts[1..], c);
      SplitAfterPrefix(ts[0], c, Join(ts[1..], [c]), {c});
      assert [ts[0]] + ts[1..] == ts;
    }
  }

  /** Non-empty trimmed ids survive the trim-and-filter step unchanged. */
  lemma {:induction false} TrimmedTokensOfTokens(ts: seq<string>)
    requires forall k :: 0 <= k < |ts| ==> ts[k] != [] && IsTrimmed(ts[k])
    ensures TrimmedTokens(ts) == ts
    decreases |ts|
  {
    if ts != [] {
      TrimmedTokensOfTokens(ts[1..]);
      assert [ts[0]] + ts[1..] == ts;
    }
  }

  /**
   * The notation reads back what it writes: ids free of `-` and `>`, joined
   * with `->`, form a fragment whose chain is those ids.
   */
  lemma ChainOfJoinedIds(ts: seq<string>)
    requires forall k :: 0 <= k < |ts| ==> ts[k] != [] && IsTrimmed(ts[k])
    requires forall k, i :: 0 <= k < |ts| && 0 <= i < |ts[k]| ==> ts[k][i] != '-' && ts[k][i] != '>'
    ensures Chain(Join(ts, "->")) == ts
  {
    assert forall k :: 0 <= k < |ts| ==> DashFree(ts[k]);
    ReplaceArrowJoin(ts);
    var pieces := Split(Join(ts, ">"), {'>'});
    assert Chain(Join(ts, "->")) == TrimmedTokens(pieces);
    if ts == [] {
      assert pieces == [[]];
    } else {
      SplitJoined(ts, '>');
      TrimmedTokensOfTokens(ts);
    }
  }
}
