/**
 * The oscillator bookkeeping of the mind map in articles/article-page.js:
 * every edge and node has a wave state whose amplitude a hover or a click
 * raises (never lowers), and a node impulse is passed on, damped, to every
 * edge that touches the node. The pointer speed sets the impulse strength,
 * and an edge's length and impulse set the pitch of its tone.
 */
module WaveImpulses {
  import opened JsNumbers
  import opened MathUtils

  const EdgeWaveMin: real := 0.18
  const EdgeWaveMax: real := 3.2
  const NodeImpulseMin: real := 0.2
  const NodeImpulseMax: real := 3.4
  /** The share of a node impulse that reaches each of its edges. */
  const EdgeShare: real := 0.95

  /** The wave of one edge or node; the phase only feeds the drawing. */
  datatype WaveState = WaveState(amplitude: real, phase: real)

  /** The amplitude of `id`, 0 for an id without a wave state yet (`ensure...WaveState`). */
  function Amplitude(waves: map<string, WaveState>, id: string): real
  {
    if id in waves then waves[id].amplitude else 0.0
  }

  /** The amplitude an edge wave takes from a hit of `strength`. */
  function EdgeAmplitude(before: real, strength: real): (a: real)
    ensures a >= before
    ensures a >= EdgeWaveMin
    ensures 0.0 <= before <= EdgeWaveMax ==> a <= EdgeWaveMax
    ensures a == before || a == Clamp(strength, EdgeWaveMin, EdgeWaveMax)
  {
    Max(before, Clamp(strength, EdgeWaveMin, EdgeWaveMax))
  }

  /** The impulse a node takes from a hit of `strength`. */
  function NodeImpulse(strength: real): (impulse: real)
    ensures NodeImpulseMin <= impulse <= NodeImpulseMax
    ensures NodeImpulseMin <= strength <= NodeImpulseMax ==> impulse == strength
  {
    Clamp(strength, NodeImpulseMin, NodeImpulseMax)
  }

  /** A node impulse reaches its edges with between 0.19 and 3.2 of amplitude. */
  lemma NodeImpulseReachesEdges(strength: real)
    ensures 0.19 <= Clamp(NodeImpulse(strength) * EdgeShare, EdgeWaveMin, EdgeWaveMax) <= EdgeWaveMax
  {
    var impulse := NodeImpulse(strength);
    assert impulse * EdgeShare >= 0.2 * 0.95;
  }

  /** Hitting twice with the same strength is hitting once: the amplitude only takes a maximum. */
  lemma EdgeAmplitudeIdempotent(before: real, strength: real)
    ensures EdgeAmplitude(EdgeAmplitude(before, strength), strength) == EdgeAmplitude(before, strength)
  {
  }

  /** `getPointerImpulseStrength`: 0.28 plus 5.4 per px/ms of pointer speed, kept in [0.25, 3.4]. */
  function PointerImpulseStrength(speed: real): (s: real)
    ensures 0.25 <= s <= 3.4
    ensures 0.0 <= speed <= (3.4 - 0.28) / 5.4 ==> s == 0.28 + speed * 5.4
  {
    Clamp(0.28 + speed * 5.4, 0.25, 3.4)
  }

  /** A faster pointer never gives a weaker impulse. */
  lemma PointerImpulseMonotone(v: real, w: real)
    requires v <= w
    ensures PointerImpulseStrength(v) <= PointerImpulseStrength(w)
  {
    ClampMonotone(0.28 + v * 5.4, 0.28 + w * 5.4, 0.25, 3.4);
  }

  /** Products of non-negative values within bounds lie within the products of the bounds. */
  lemma ProductBetween(a: real, b: real, aLo: real, aHi: real, bLo: real, bHi: real)
    requires 0.0 <= aLo <= a <= aHi && 0.0 <= bLo <= b <= bHi
    ensures aLo * bLo <= a * b <= aHi * bHi
  {
    MulNonNegative(a, b - bLo);
    MulNonNegative(bLo, a - aLo);
    assert a * b - aLo * bLo == a * (b - bLo) + bLo * (a - aLo);
    MulNonNegative(aHi, bHi - b);
    MulNonNegative(b, aHi - a);
    assert aHi * bHi - a * b == aHi * (bHi - b) + b * (aHi - a);
  }

  /**
   * `edgeLengthToHz`: 860 Hz for edges up to 60 px falling linearly to 190
   * Hz at 580 px and beyond, bent by up to -10 % / +14 % by the impulse.
   */
  function EdgeLengthToHz(lengthPx: real, impulseStrength: real): (hz: real)
    ensures 190.0 * 0.9 <= hz <= 860.0 * 1.14
  {
    var normalized := Clamp((lengthPx - 60.0) / 520.0, 0.0, 1.0);
    var baseHz := Lerp(860.0, 190.0, normalized);
    var bend := 1.0 + Clamp((impulseStrength - 1.0) * 0.045, -0.1, 0.14);
    LerpBetween(860.0, 190.0, normalized);
    ProductBetween(baseHz, bend, 190.0, 860.0, 0.9, 1.14);
    baseHz * bend
  }

  /** At the plain impulse of 1 the pitch is the linear map of the length alone. */
  lemma EdgeLengthToHzPlain(lengthPx: real)
    ensures lengthPx <= 60.0 ==> EdgeLengthToHz(lengthPx, 1.0) == 860.0
    ensures lengthPx >= 580.0 ==> EdgeLengthToHz(lengthPx, 1.0) == 190.0
    ensures 60.0 <= lengthPx <= 580.0 ==> EdgeLengthToHz(lengthPx, 1.0) == 860.0 - 670.0 * (lengthPx - 60.0) / 520.0
  {
  }

  /** A longer edge never sounds higher. */
  lemma EdgeLengthToHzAntitone(l1: real, l2: real, impulseStrength: real)
    requires l1 <= l2
    ensures EdgeLengthToHz(l2, impulseStrength) <= EdgeLengthToHz(l1, impulseStrength)
  {
    var n1 := Clamp((l1 - 60.0) / 520.0, 0.0, 1.0);
    var n2 := Clamp((l2 - 60.0) / 520.0, 0.0, 1.0);
    ClampMonotone((l1 - 60.0) / 520.0, (l2 - 60.0) / 520.0, 0.0, 1.0);
    var bend := 1.0 + Clamp((impulseStrength - 1.0) * 0.045, -0.1, 0.14);
    var b1 := Lerp(860.0, 190.0, n1);
    var b2 := Lerp(860.0, 190.0, n2);
    assert b2 <= b1;
    MulNonNegative(b1 - b2, bend);
    assert b1 * bend - b2 * bend == (b1 - b2) * bend;
  }

  /** The wave states of the edges and the nodes, and the edge list of each node. */
  class WaveField {
    var edgeWaves: map<string, WaveState>
    var nodeWaves: map<string, WaveState>
    var edgeIdsByNodeId: map<string, seq<string>>

    /** Amplitudes stay within the clamping bounds, and the empty id never has a wave. */
    predicate Valid()
      reads this
    {
      [] !in edgeWaves && [] !in nodeWaves
      && (forall id :: id in edgeWaves ==> 0.0 <= edgeWaves[id].amplitude <= EdgeWaveMax)
      && (forall id :: id in nodeWaves ==> 0.0 <= nodeWaves[id].amplitude <= NodeImpulseMax)
    }

    constructor(edgeIdsByNodeId: map<string, seq<string>>)
      ensures Valid() && edgeWaves == map[] && nodeWaves == map[]
      ensures this.edgeIdsByNodeId == edgeIdsByNodeId
    {
      edgeWaves := map[];
      nodeWaves := map[];
      this.edgeIdsByNodeId := edgeIdsByNodeId;
    }

    /** The edges of a node, none when it has no list. */
    function Linked(nodeId: string): seq<string>
      reads this
    {
      if nodeId in edgeIdsByNodeId then edgeIdsByNodeId[nodeId] else []
    }

    /**
     * `triggerEdgeWave(edgeId, strength)`: nothing for the empty id;
     * otherwise the edge's wave (created at amplitude 0 and phase
     * `freshPhase` when missing) rises to at least the clamped strength and
     * its phase moves on by `phaseStep`. `freshPhase` and `phaseStep` stand
     * for the two `Math.random()` draws.
     */
    method TriggerEdgeWave(edgeId: string, strength: real, freshPhase: real, phaseStep: real)
      requires Valid()
      modifies this
      ensures Valid() && nodeWaves == old(nodeWaves) && edgeIdsByNodeId == old(edgeIdsByNodeId)
      ensures edgeId == [] ==> edgeWaves == old(edgeWaves)
      ensures edgeId != [] ==>
        edgeWaves.Keys == old(edgeWaves).Keys + {edgeId}
        && edgeWaves[edgeId].amplitude == EdgeAmplitude(Amplitude(old(edgeWaves), edgeId), strength)
        && forall id :: id in old(edgeWaves) && id != edgeId ==> edgeWaves[id] == old(edgeWaves)[id]
    {
      if edgeId == [] {
        return;
      }
      if edgeId !in edgeWaves {
        edgeWaves := edgeWaves[edgeId := WaveState(0.0, freshPhase)];
      }
      var state := edgeWaves[edgeId];
      edgeWaves := edgeWaves[edgeId := WaveState(EdgeAmplitude(state.amplitude, strength), state.phase + phaseStep)];
    }

    /**
     * `triggerNodeImpulse(nodeId, strength)`: nothing for the empty id;
     * otherwise the node's wave rises to at least the impulse (the strength
     * clamped to [0.2, 3.4]) and every edge of the node is hit with 0.95 of
     * it. `draws` stands for the `Math.random()` draws: the node's fresh
     * phase and phase step, then a pair for each linked edge.
     */
    method TriggerNodeImpulse(nodeId: string, strength: real, draws: seq<real>)
      requires Valid() && |draws| >= 2 + 2 * |Linked(nodeId)|
      modifies this
      ensures Valid() && edgeIdsByNodeId == old(edgeIdsByNodeId)
      ensures nodeId == [] ==> edgeWaves == old(edgeWaves) && nodeWaves == old(nodeWaves)
      ensures nodeId != [] ==>
        nodeWaves.Keys == old(nodeWaves).Keys + {nodeId}
        && nodeWaves[nodeId].amplitude == Max(Amplitude(old(nodeWaves), nodeId), NodeImpulse(strength))
        && (forall id :: id in old(nodeWaves) && id != nodeId ==> nodeWaves[id] == old(nodeWaves)[id])
      ensures nodeId != [] ==>
        forall id :: id in edgeWaves ==>
          edgeWaves[id].amplitude == if id in old(Linked(nodeId))
          then EdgeAmplitude(Amplitude(old(edgeWaves), id), NodeImpulse(strength) * EdgeShare)
          else Amplitude(old(edgeWaves), id)
      ensures nodeId != [] ==> forall id :: id in old(Linked(nodeId)) && id != [] ==> id in edgeWaves
      ensures nodeId != [] ==> forall id :: id in edgeWaves ==> id in old(edgeWaves) || id in old(Linked(nodeId))
    {
      if nodeId == [] {
        return;
      }
      var impulse := NodeImpulse(strength);
      if nodeId !in nodeWaves {
        nodeWaves := nodeWaves[nodeId := WaveState(0.0, draws[0])];
      }
      var state := nodeWaves[nodeId];
      nodeWaves := nodeWaves[nodeId := WaveState(Max(state.amplitude, impulse), state.phase + draws[1])];
      HitEdges(Linked(nodeId), impulse * EdgeShare, draws[2..]);
    }

    /** The loop of `triggerNodeImpulse`: `triggerEdgeWave` on every edge of `linked` in turn. */
    method HitEdges(linked: seq<string>, reach: real, draws: seq<real>)
      requires Valid() && |draws| >= 2 * |linked|
      modifies this
      ensures Valid() && nodeWaves == old(nodeWaves) && edgeIdsByNodeId == old(edgeIdsByNodeId)
      ensures forall id :: id in edgeWaves ==>
        edgeWaves[id].amplitude == if id in linked then EdgeAmplitude(Amplitude(old(edgeWaves), id), reach) else Amplitude(old(edgeWaves), id)
      ensures forall id :: id in linked && id != [] ==> id in edgeWaves
      ensures forall id :: id in edgeWaves ==> id in old(edgeWaves) || id in linked
    {
      ghost var before := edgeWaves;
      var i := 0;
      while i < |linked|
        invariant 0 <= i <= |linked|
        invariant Valid() && nodeWaves == old(nodeWaves) && edgeIdsByNodeId == old(edgeIdsByNodeId)
        invariant forall id :: id in linked[..i] && id != [] ==> id in edgeWaves
        invariant forall id :: id in edgeWaves ==> id in before || id in linked[..i]
        invariant forall id :: id in before ==> id in edgeWaves
        invariant forall id :: id in edgeWaves ==>
          edgeWaves[id].amplitude == if id in linked[..i] then EdgeAmplitude(Amplitude(before, id), reach) else Amplitude(before, id)
      {
        ghost var mid := edgeWaves;
        TriggerEdgeWave(linked[i], reach, draws[2 * i], draws[2 * i + 1]);
        assert linked[..i + 1] == linked[..i] + [linked[i]];
        forall id | id in edgeWaves
          ensures edgeWaves[id].amplitude == if id in linked[..i + 1] then EdgeAmplitude(Amplitude(before, id), reach) else Amplitude(before, id)
        {
          if id == linked[i] {
            assert edgeWaves[id].amplitude == EdgeAmplitude(Amplitude(mid, id), reach);
            if id in linked[..i] {
              assert id in mid;
              EdgeAmplitudeIdempotent(Amplitude(before, id), reach);
            } else if id in mid {
              assert Amplitude(mid, id) == Amplitude(before, id);
            } else {
              assert id !in before;
            }
          } else {
            assert id in mid && edgeWaves[id] == mid[id];
          }
        }
        i := i + 1;
      }
      assert linked[..i] == linked;
    }
  }
}
