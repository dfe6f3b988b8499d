/**
 * The pair-anchor game of js/background-fx.js. Blue dots (or words) arm and
 * close pairs; the path traced between them becomes a locked connection that
 * replays a pluck or a sine tone on a schedule; three secret shapes of the
 * right length unlock the hidden video once.
 *
 * Drawing, mask sampling and the frame loop are not modelled. Sounds are
 * returned as the requests the game makes of the audio module.
 */
module BackgroundFx {
  import opened Options
  import opened JsNumbers
  import opened MathUtils
  import opened Collections
  import opened TrailBuffer
  import opened WordShuffle
  import opened AudioPluck

  // The `settings` of js/background-fx.js that the game logic reads.
  const BaseDotSize: real := 1.85
  const BaseLife: nat := 54
  const AccentLife: nat := 126
  const AccentMaxExtraSize: real := 6.5
  const MaxPoints: nat := 180
  const TraceSampleSpacing: real := 6.0
  const MaxConnections: nat := 10
  const MinLoopBpm: real := 1.0
  const MaxLoopBpm: real := 100.0
  const SecretGoalShapes: nat := 3
  const SecretTargetLengthPx: real := 220.0
  const SecretLengthTolerancePx: real := 60.0

  /** A blue dot or word that arms or closes a pair. */
  datatype Anchor = Anchor(
    x: real, y: real, size: real, generatedAt: real,
    isSecretZone: bool, isWord: bool, word: Option<string>)

  /** A sample of the path traced between two anchors. */
  datatype TracePoint = TracePoint(x: real, y: real, generatedAt: real, size: real)

  datatype SoundType = Sine | Pluck

  /** A locked pair and its replay schedule. */
  datatype Connection = Connection(
    a: Anchor, b: Anchor,
    trace: seq<TracePoint>,
    createdAt: real,
    intervalMs: real,
    nextPlayAt: real,
    nextAnchorIndex: nat,
    isLengthMatch: bool,
    soundType: SoundType,
    sineFrequencyHz: real)

  /** `lastAccentEmitAt`, which starts (and is reset to) `-Infinity`. */
  datatype EmitTime = NeverEmitted | EmittedAt(ms: real)

  /** The sum of the segment lengths, with `sqrt` standing for `Math.sqrt`. */
  function PolylineLength(points: seq<TracePoint>, sqrt: real -> real): real
    decreases |points|
  {
    if |points| < 2 then 0.0
    else
      var n := |points|;
      PolylineLength(points[..n - 1], sqrt)
        + sqrt(DistSq(points[n - 1].x, points[n - 1].y, points[n - 2].x, points[n - 2].y))
  }

  /** `polylineLength`: the loop adding one segment at a time. */
  method MeasurePolyline(points: seq<TracePoint>, sqrt: real -> real) returns (total: real)
    ensures total == PolylineLength(points, sqrt)
  {
    total := 0.0;
    if |points| < 2 {
      return;
    }
    var i := 1;
    while i < |points|
      invariant 1 <= i <= |points|
      invariant total == PolylineLength(points[..i], sqrt)
    {
      assert points[..i + 1][..i] == points[..i];
      total := total + sqrt(DistSq(points[i].x, points[i].y, points[i - 1].x, points[i - 1].y));
      i := i + 1;
    }
    assert points[..i] == points;
  }

  /** A segment that `sqrt` measures as non-negative never shortens the path. */
  lemma {:induction false} PolylineNonNegative(points: seq<TracePoint>, sqrt: real -> real)
    requires forall i :: 1 <= i < |points| ==>
      sqrt(DistSq(points[i].x, points[i].y, points[i - 1].x, points[i - 1].y)) >= 0.0
    ensures PolylineLength(points, sqrt) >= 0.0
    decreases |points|
  {
    if |points| >= 2 {
      var p := points[..|points| - 1];
      forall i | 1 <= i < |p| ensures sqrt(DistSq(p[i].x, p[i].y, p[i - 1].x, p[i - 1].y)) >= 0.0 {
        assert p[i] == points[i] && p[i - 1] == points[i - 1];
      }
      PolylineNonNegative(p, sqrt);
    }
  }

  /**
   * `intervalFromTraceLength`: the trace length, against one and a half
   * viewport diagonals, picks a tempo between 100 and 1 beats per minute.
   */
  function IntervalFromTraceLength(traceLength: real, viewportHypot: real): (ms: real)
    ensures 600.0 <= ms <= 60000.0
  {
    var diagonal := Max(1.0, viewportHypot);
    var normalized := Clamp01(traceLength / (diagonal * 1.5));
    var bpm := Lerp(MaxLoopBpm, MinLoopBpm, normalized);
    LerpBetween(MaxLoopBpm, MinLoopBpm, normalized);
    BeatBounds(bpm);
    60000.0 / bpm
  }

  lemma BeatBounds(bpm: real)
    requires 1.0 <= bpm <= 100.0
    ensures 600.0 <= 60000.0 / bpm <= 60000.0
  {
    assert 60000.0 / bpm * bpm == 60000.0;
  }

  /** A longer trace never replays faster. */
  lemma IntervalMonotone(l1: real, l2: real, viewportHypot: real)
    requires 0.0 <= l1 <= l2
    ensures IntervalFromTraceLength(l1, viewportHypot) <= IntervalFromTraceLength(l2, viewportHypot)
  {
    var d := Max(1.0, viewportHypot) * 1.5;
    assert l1 / d <= l2 / d by {
      assert l2 / d - l1 / d == (l2 - l1) / d;
    }
    var t1 := Clamp01(l1 / d);
    var t2 := Clamp01(l2 / d);
    LerpMonotone(MaxLoopBpm, MinLoopBpm, t1, t2);
    LerpBetween(MaxLoopBpm, MinLoopBpm, t1);
    LerpBetween(MaxLoopBpm, MinLoopBpm, t2);
    var b1 := Lerp(MaxLoopBpm, MinLoopBpm, t1);
    var b2 := Lerp(MaxLoopBpm, MinLoopBpm, t2);
    InverseAntitone(b2, b1);
  }

  lemma InverseAntitone(a: real, b: real)
    requires 0.0 < a <= b
    ensures 60000.0 / b <= 60000.0 / a
  {
    assert 60000.0 / a - 60000.0 / b == 60000.0 * (b - a) / (a * b);
    assert a * b > 0.0;
    MulNonNegative(60000.0, b - a);
  }

  const SineMinLength: real := 160.0
  const SineMaxLength: real := 280.0

  /** `traceLengthToSineHz`: traces of 160 to 280 px span 220 to 880 Hz. */
  function TraceLengthToSineHz(traceLength: real): (hz: real)
    ensures 220.0 <= hz <= 880.0
    ensures traceLength <= SineMinLength ==> hz == 220.0
    ensures traceLength >= SineMaxLength ==> hz == 880.0
  {
    var minLen := Max(1.0, SecretTargetLengthPx - SecretLengthTolerancePx);
    var maxLen := SecretTargetLengthPx + SecretLengthTolerancePx;
    var normalized := Clamp01((traceLength - minLen) / Max(1.0, maxLen - minLen));
    LerpBetween(220.0, 880.0, normalized);
    Lerp(220.0, 880.0, normalized)
  }

  /** A longer trace never sounds lower. */
  lemma SineHzMonotone(l1: real, l2: real)
    requires l1 <= l2
    ensures TraceLengthToSineHz(l1) <= TraceLengthToSineHz(l2)
  {
    assert (l1 - 160.0) / 120.0 <= (l2 - 160.0) / 120.0;
    LerpMonotone(220.0, 880.0, Clamp01((l1 - 160.0) / 120.0), Clamp01((l2 - 160.0) / 120.0));
  }

  predicate IsLengthMatch(traceLength: real)
  {
    var d := traceLength - SecretTargetLengthPx;
    (if d < 0.0 then -d else d) <= SecretLengthTolerancePx
  }

  /** Every connection replays at least every 60 s and at most every 600 ms, and its trace is a path. */
  predicate ConnectionOk(c: Connection)
  {
    600.0 <= c.intervalMs <= 60000.0 && |c.trace| >= 2 && c.nextAnchorIndex <= 1
    && (c.soundType == Sine ==> 220.0 <= c.sineFrequencyHz <= 880.0)
  }

  predicate ConnectionsOk(cs: seq<Connection>)
  {
    forall i :: 0 <= i < |cs| ==> ConnectionOk(cs[i])
  }

  /** Keeping the newest of well-formed connections keeps only well-formed ones. */
  lemma KeptConnectionsOk(cs: seq<Connection>, c: Connection)
    requires ConnectionsOk(cs) && ConnectionOk(c)
    ensures ConnectionsOk(KeepNewest(cs + [c], MaxConnections))
  {
    var all := cs + [c];
    var r := KeepNewest(all, MaxConnections);
    forall i | 0 <= i < |r|
      ensures ConnectionOk(r[i])
    {
      var k := |all| - |r| + i;
      assert r[i] == all[k];
      if k < |cs| {
        assert all[k] == cs[k];
      } else {
        assert all[k] == c;
      }
    }
  }

  /** The trace a closing anchor starts from: the pending samples, or the armed anchor alone. */
  function TraceBase(pending: seq<TracePoint>, start: Anchor): (t: seq<TracePoint>)
    ensures |t| >= 1
    ensures pending != [] ==> t == pending
  {
    if |pending| > 0 then pending else [TracePoint(start.x, start.y, start.generatedAt, BaseDotSize)]
  }

  /** The trace a closing anchor completes: the base, then the anchor unless it lies within 2 px of the last sample. */
  function ClosingTrace(pending: seq<TracePoint>, start: Anchor, anchor: Anchor, ts: real): (t: seq<TracePoint>)
    ensures var base := TraceBase(pending, start); var last := base[|base| - 1];
      t == base + (if DistSq(last.x, last.y, anchor.x, anchor.y) > 4.0 then [TracePoint(anchor.x, anchor.y, ts, BaseDotSize)] else [])
    ensures |t| >= 1 && t[0] == TraceBase(pending, start)[0]
  {
    var trace := TraceBase(pending, start);
    var last := trace[|trace| - 1];
    if DistSq(last.x, last.y, anchor.x, anchor.y) > 4.0 then trace + [TracePoint(anchor.x, anchor.y, ts, BaseDotSize)]
    else trace
  }

  /** Closing with no samples on an anchor within 2 px of the armed one locks nothing. */
  lemma ClosingTraceTooShort(start: Anchor, anchor: Anchor, ts: real)
    requires DistSq(start.x, start.y, anchor.x, anchor.y) <= 4.0
    ensures |ClosingTrace([], start, anchor, ts)| == 1
  {
  }

  /** A pending trace of two or more samples always locks a connection. */
  lemma ClosingTraceLong(pending: seq<TracePoint>, start: Anchor, anchor: Anchor, ts: real)
    requires |pending| >= 2
    ensures |ClosingTrace(pending, start, anchor, ts)| >= 2
    ensures ClosingTrace(pending, start, anchor, ts)[..|pending|] == pending
  {
  }

  /** The connection a closed pair becomes. */
  function NewConnection(start: Anchor, anchor: Anchor, trace: seq<TracePoint>, ts: real, traceLength: real, viewportHypot: real): (c: Connection)
    requires |trace| >= 2
    ensures ConnectionOk(c)
    ensures c.soundType == Sine <==> (start.isSecretZone && anchor.isSecretZone) || IsLengthMatch(traceLength)
    ensures c.nextPlayAt == if c.soundType == Sine then ts + c.intervalMs else ts
    ensures c.nextAnchorIndex == 0 && c.a == start && c.b == anchor && c.trace == trace
    ensures c.isLengthMatch == IsLengthMatch(traceLength)
    ensures c.soundType == Sine ==> c.sineFrequencyHz == TraceLengthToSineHz(traceLength)
  {
    var secretShape := start.isSecretZone && anchor.isSecretZone;
    var lengthMatch := IsLengthMatch(traceLength);
    var kind := if secretShape || lengthMatch then Sine else Pluck;
    var hz := if kind == Sine then TraceLengthToSineHz(traceLength) else 0.0;
    var interval := IntervalFromTraceLength(traceLength, viewportHypot);
    Connection(start, anchor, trace, ts, interval, if kind == Sine then ts + interval else ts, 0, lengthMatch, kind, hz)
  }

  /** The connection closing `start` with `anchor` locks, if the trace has two samples or more. */
  function ClosedConnection(pending: seq<TracePoint>, start: Anchor, anchor: Anchor, ts: real,
                            sqrt: real -> real, viewportHypot: real): (r: Option<Connection>)
    ensures r.Some? <==> |ClosingTrace(pending, start, anchor, ts)| >= 2
    ensures r.Some? ==>
      ConnectionOk(r.value) && r.value.a == start && r.value.b == anchor
      && r.value.trace == ClosingTrace(pending, start, anchor, ts)
      && r.value.isLengthMatch == IsLengthMatch(PolylineLength(r.value.trace, sqrt))
  {
    var trace := ClosingTrace(pending, start, anchor, ts);
    if |trace| >= 2 then Some(NewConnection(start, anchor, trace, ts, PolylineLength(trace, sqrt), viewportHypot))
    else None
  }

  /** A connection between two secret-zone anchors whose trace is 160 to 280 px long counts as a secret shape. */
  predicate IsSecretShape(c: Connection)
  {
    c.a.isSecretZone && c.b.isSecretZone && c.isLengthMatch
  }

  // --------------------------------------------------------- replay schedule

  function Toggle(i: nat): nat { if i == 0 then 1 else 0 }

  /** The pluck range for anchor sizes. */
  const AnchorSizeRange: SizeRange := SizeRange(BaseDotSize, BaseDotSize + AccentMaxExtraSize)

  /** What one replay plays: the sine, or a pluck of the anchor whose turn it is. */
  function ReplaySound(c: Connection): SoundRequest
  {
    if c.soundType == Sine then SineRequest(Finite(c.sineFrequencyHz))
    else PluckRequest((if c.nextAnchorIndex == 0 then c.a else c.b).size, AnchorSizeRange)
  }

  /** One replay: the other anchor's turn next, one interval later. */
  function Step(c: Connection): Connection
  {
    c.(nextAnchorIndex := Toggle(c.nextAnchorIndex), nextPlayAt := c.nextPlayAt + c.intervalMs)
  }

  function Overdue(c: Connection, ts: real): nat
  {
    if ts < c.nextPlayAt then 0 else (ts - c.nextPlayAt).Floor + 1
  }

  lemma StepShrinksOverdue(c: Connection, ts: real)
    requires c.intervalMs >= 1.0 && ts >= c.nextPlayAt
    ensures Overdue(Step(c), ts) < Overdue(c, ts)
  {
  }

  /** The connection once every replay due by `ts` is done. */
  function Advanced(c: Connection, ts: real): (r: Connection)
    requires c.intervalMs >= 1.0
    ensures r.nextPlayAt > ts
    decreases Overdue(c, ts)
  {
    if ts >= c.nextPlayAt then
      StepShrinksOverdue(c, ts);
      Advanced(Step(c), ts)
    else c
  }

  /** The sounds those replays make, in order. */
  function Replays(c: Connection, ts: real): seq<SoundRequest>
    requires c.intervalMs >= 1.0
    decreases Overdue(c, ts)
  {
    if ts >= c.nextPlayAt then
      StepShrinksOverdue(c, ts);
      [ReplaySound(c)] + Replays(Step(c), ts)
    else []
  }

  /**
   * Advancing keeps the connection apart from its schedule: the next replay
   * lies one interval per replay later, and the anchor alternates once per
   * replay.
   */
  lemma {:induction false} AdvancedSchedule(c: Connection, ts: real)
    requires c.intervalMs >= 1.0 && c.nextAnchorIndex <= 1
    ensures var r := Advanced(c, ts); var n := |Replays(c, ts)|;
      r == c.(nextPlayAt := r.nextPlayAt, nextAnchorIndex := r.nextAnchorIndex)
      && r.nextPlayAt == c.nextPlayAt + n as real * c.intervalMs
      && r.nextAnchorIndex == (c.nextAnchorIndex + n) % 2
      && (n > 0 <==> ts >= c.nextPlayAt)
    decreases Overdue(c, ts)
  {
    AdvancedKeeps(c, ts);
    AdvancedTime(c, ts);
    AdvancedTurn(c, ts);
  }

  lemma {:induction false} AdvancedKeeps(c: Connection, ts: real)
    requires c.intervalMs >= 1.0
    ensures var r := Advanced(c, ts);
      r == c.(nextPlayAt := r.nextPlayAt, nextAnchorIndex := r.nextAnchorIndex)
    decreases Overdue(c, ts)
  {
    if ts >= c.nextPlayAt {
      StepShrinksOverdue(c, ts);
      AdvancedKeeps(Step(c), ts);
    }
  }

  lemma {:induction false} AdvancedTime(c: Connection, ts: real)
    requires c.intervalMs >= 1.0
    ensures Advanced(c, ts).nextPlayAt == c.nextPlayAt + |Replays(c, ts)| as real * c.intervalMs
    decreases Overdue(c, ts)
  {
    if ts >= c.nextPlayAt {
      StepShrinksOverdue(c, ts);
      AdvancedTime(Step(c), ts);
      StepsAdd(c.nextPlayAt, c.intervalMs, |Replays(Step(c), ts)|);
    }
  }

  lemma {:induction false} AdvancedTurn(c: Connection, ts: real)
    requires c.intervalMs >= 1.0 && c.nextAnchorIndex <= 1
    ensures Advanced(c, ts).nextAnchorIndex == (c.nextAnchorIndex + |Replays(c, ts)|) % 2
    decreases Overdue(c, ts)
  {
    if ts >= c.nextPlayAt {
      StepShrinksOverdue(c, ts);
      AdvancedTurn(Step(c), ts);
    }
  }

  lemma StepsAdd(start: real, interval: real, n: nat)
    ensures start + interval + n as real * interval == start + (n + 1) as real * interval
  {
  }

  /** A pluck connection plays its two anchors in turn, starting with the one whose turn it is. */
  lemma {:induction false} PluckAlternates(c: Connection, ts: real, k: nat)
    requires c.intervalMs >= 1.0 && c.nextAnchorIndex <= 1 && c.soundType == Pluck
    requires k < |Replays(c, ts)|
    ensures Replays(c, ts)[k] == PluckRequest(
      (if (c.nextAnchorIndex + k) % 2 == 0 then c.a else c.b).size, AnchorSizeRange)
    decreases Overdue(c, ts)
  {
    StepShrinksOverdue(c, ts);
    if k > 0 {
      PluckAlternates(Step(c), ts, k - 1);
    }
  }

  function AllAdvanced(cs: seq<Connection>, ts: real): (r: seq<Connection>)
    requires forall i :: 0 <= i < |cs| ==> cs[i].intervalMs >= 1.0
    ensures |r| == |cs| && forall i :: 0 <= i < |cs| ==> r[i] == Advanced(cs[i], ts)
  {
    seq(|cs|, i requires 0 <= i < |cs| => Advanced(cs[i], ts))
  }

  function AllReplays(cs: seq<Connection>, ts: real): seq<SoundRequest>
    requires forall i :: 0 <= i < |cs| ==> cs[i].intervalMs >= 1.0
    decreases |cs|
  {
    if cs == [] then [] else AllReplays(cs[..|cs| - 1], ts) + Replays(cs[|cs| - 1], ts)
  }

  /** The game flags and bookkeeping apart from the trail, the connections and the pending pair. */
  datatype Flags = Flags(
    miniModeActive: bool, secretZoneActive: bool, wordSessionActive: bool,
    wordsActive: bool, gameStopped: bool,
    secretShapesCompleted: nat, secretUnlocked: bool,
    lastAccent: Option<Position>, lastAccentEmitAt: EmitTime,
    lastEmit: Position, lastEmitAt: real)

  /**
   * The flags once `completeSecretChallenge` has unlocked the secret from
   * `f`: unlocked, running, no word session, words off, no accent, and the
   * last emit moved to the pointer at `now`.
   */
  function UnlockedFlags(f: Flags, pointer: Position, now: real): Flags
  {
    f.(secretUnlocked := true, gameStopped := false, wordSessionActive := false,
       wordsActive := false, lastAccent := None, lastAccentEmitAt := NeverEmitted,
       lastEmit := pointer, lastEmitAt := now)
  }

  class BackgroundGame {
    const trail: Trail
    /** `lastWordX`/`lastWordY`: where the last word was drawn. */
    var lastWordAt: Option<Position>
    var connections: seq<Connection>
    var pendingTrace: seq<TracePoint>
    var pairStart: Option<Anchor>
    var miniModeActive: bool
    var secretZoneActive: bool
    var wordSessionActive: bool
    var wordsActive: bool
    var gameStopped: bool
    var secretShapesCompleted: nat
    var secretUnlocked: bool
    var lastAccent: Option<Position>
    var lastAccentEmitAt: EmitTime
    var lastEmit: Position
    var lastEmitAt: real

    function GameFlags(): Flags
      reads this
    {
      Flags(miniModeActive, secretZoneActive, wordSessionActive, wordsActive, gameStopped,
        secretShapesCompleted, secretUnlocked, lastAccent, lastAccentEmitAt, lastEmit, lastEmitAt)
    }

    /**
     * The invariant the game keeps: bounded trail and connection list, every
     * connection on a valid schedule, the secret counter below the goal until
     * it unlocks, and no pending trace without an armed anchor.
     */
    ghost predicate Valid()
      reads this, trail
    {
      trail.Valid() && trail.maxPoints == MaxPoints && trail.baseLife == BaseLife && trail.accentLife == AccentLife
      && |connections| <= MaxConnections
      && ConnectionsOk(connections)
      && secretShapesCompleted <= SecretGoalShapes
      && (!secretUnlocked ==> secretShapesCompleted < SecretGoalShapes)
      && (pairStart.None? ==> pendingTrace == [])
    }

    constructor(pointer: Position)
      ensures Valid() && fresh(trail) && lastWordAt.None?
      ensures connections == [] && pendingTrace == [] && pairStart.None? && trail.points == []
      ensures GameFlags() == Flags(false, false, false, false, false, 0, false, None, NeverEmitted, pointer, 0.0)
    {
      trail := new Trail(MaxPoints, BaseLife, AccentLife);
      lastWordAt := None;
      connections := [];
      pendingTrace := [];
      pairStart := None;
      miniModeActive := false;
      secretZoneActive := false;
      wordSessionActive := false;
      wordsActive := false;
      gameStopped := false;
      secretShapesCompleted := 0;
      secretUnlocked := false;
      lastAccent := None;
      lastAccentEmitAt := NeverEmitted;
      lastEmit := pointer;
      lastEmitAt := 0.0;
    }

    /** `pushPoint`: a dot or word on the trail, the oldest dropped beyond 180. */
    method PushPoint(x: real, y: real, accent: bool, size: real, word: Option<string>)
      requires Valid()
      modifies trail
      ensures Valid()
      ensures trail.points == KeepNewest(old(trail.points) + [trail.NewPoint(x, y, accent, size, word)], MaxPoints)
      ensures |trail.points| <= MaxPoints
    {
      trail.PushPoint(x, y, accent, size, word);
    }

    /** `setWordsActive`: a change forgets where the last word was drawn. */
    method SetWordsActive(next: bool)
      requires Valid()
      modifies this
      ensures Valid() && wordsActive == next
      ensures old(wordsActive) == next ==> lastWordAt == old(lastWordAt)
      ensures old(wordsActive) != next ==> lastWordAt.None?
      ensures GameFlags() == old(GameFlags()).(wordsActive := next)
      ensures connections == old(connections) && pendingTrace == old(pendingTrace) && pairStart == old(pairStart)
    {
      if wordsActive == next {
        return;
      }
      wordsActive := next;
      lastWordAt := None;
    }

    /** `clearAllGameVisuals`: trail, connections, pending pair and spacing memories cleared. */
    method ClearAllGameVisuals()
      requires Valid()
      modifies this, trail
      ensures Valid()
      ensures trail.points == [] && connections == [] && pendingTrace == [] && pairStart.None?
      ensures lastWordAt.None?
      ensures GameFlags() == old(GameFlags()).(lastAccent := None, lastAccentEmitAt := NeverEmitted)
    {
      trail.Clear();
      connections := [];
      pendingTrace := [];
      pairStart := None;
      lastAccent := None;
      lastAccentEmitAt := NeverEmitted;
      lastWordAt := None;
    }

    /**
     * `completeSecretChallenge`: the first call unlocks the secret, ends any
     * word session and clears the game; later calls change nothing.
     */
    method CompleteSecretChallenge(pointer: Position, now: real)
      requires Valid()
      modifies this, trail
      ensures Valid() && secretUnlocked
      ensures old(secretUnlocked) ==>
        GameFlags() == old(GameFlags())
        && connections == old(connections) && pendingTrace == old(pendingTrace) && pairStart == old(pairStart)
        && trail.points == old(trail.points) && lastWordAt == old(lastWordAt)
      ensures !old(secretUnlocked) ==>
        trail.points == [] && connections == [] && pendingTrace == [] && pairStart.None? && lastWordAt.None?
        && GameFlags() == UnlockedFlags(old(GameFlags()), pointer, now)
    {
      if secretUnlocked {
        return;
      }
      // The pointer and clock reads touch nothing the two calls below read or write.
      secretUnlocked, gameStopped, wordSessionActive, lastEmit, lastEmitAt := true, false, false, pointer, now;
      ghost var unlocked := GameFlags();
      ClearAllGameVisuals();
      ghost var cleared := GameFlags();
      assert cleared == unlocked.(lastAccent := None, lastAccentEmitAt := NeverEmitted);
      SetWordsActive(false);
      assert GameFlags() == cleared.(wordsActive := false);
    }

    /** `startWordSession`: the first call of a session clears the game. */
    method StartWordSession()
      requires Valid()
      modifies this, trail
      ensures Valid() && wordSessionActive
      ensures !old(wordSessionActive) ==>
        trail.points == [] && connections == [] && pendingTrace == [] && pairStart.None? && lastWordAt.None?
        && GameFlags() == old(GameFlags()).(wordSessionActive := true, lastAccent := None, lastAccentEmitAt := NeverEmitted)
      ensures old(wordSessionActive) ==>
        (GameFlags() == old(GameFlags()) && connections == old(connections) && pendingTrace == old(pendingTrace)
         && pairStart == old(pairStart) && trail.points == old(trail.points) && lastWordAt == old(lastWordAt))
    {
      if wordSessionActive {
        return;
      }
      wordSessionActive := true;
      ClearAllGameVisuals();
    }

    /**
     * `setMiniModeActive`: leaving the background area forgets the traced
     * samples (outside a word session only the armed anchor stays); entering
     * it with the left button held starts words.
     */
    method SetMiniModeActive(next: bool, leftMouseHeld: bool, lastInputAt: real)
      requires Valid()
      modifies this, trail
      ensures Valid() && miniModeActive == next
      ensures old(miniModeActive) == next ==>
        GameFlags() == old(GameFlags()) && pendingTrace == old(pendingTrace)
        && connections == old(connections) && pairStart == old(pairStart)
        && trail.points == old(trail.points) && lastWordAt == old(lastWordAt)
      ensures old(miniModeActive) && !next ==>
        GameFlags() == old(GameFlags()).(miniModeActive := false, wordsActive := false)
        && pairStart == old(pairStart) && connections == old(connections) && trail.points == old(trail.points)
        && lastWordAt == (if old(wordsActive) then None else old(lastWordAt))
        && pendingTrace == if wordSessionActive then old(pendingTrace)
          else if pairStart.None? then [] else [TracePoint(pairStart.value.x, pairStart.value.y, lastInputAt, BaseDotSize)]
      ensures !old(miniModeActive) && next && !leftMouseHeld ==>
        GameFlags() == old(GameFlags()).(miniModeActive := true)
        && pendingTrace == old(pendingTrace) && connections == old(connections) && pairStart == old(pairStart)
        && trail.points == old(trail.points) && lastWordAt == old(lastWordAt)
      ensures !old(miniModeActive) && next && leftMouseHeld && old(wordSessionActive) ==>
        GameFlags() == old(GameFlags()).(miniModeActive := true, wordsActive := true)
        && pendingTrace == old(pendingTrace) && connections == old(connections) && pairStart == old(pairStart)
        && trail.points == old(trail.points) && lastWordAt == (if old(wordsActive) then old(lastWordAt) else None)
      ensures !old(miniModeActive) && next && leftMouseHeld && !old(wordSessionActive) ==>
        GameFlags() == old(GameFlags()).(miniModeActive := true, wordSessionActive := true, wordsActive := true,
          lastAccent := None, lastAccentEmitAt := NeverEmitted)
        && trail.points == [] && connections == [] && pendingTrace == [] && pairStart.None? && lastWordAt.None?
    {
      if miniModeActive == next {
        return;
      }
      miniModeActive := next;
      if !next {
        SetWordsActive(false);
        if !wordSessionActive {
          pendingTrace := if pairStart.Some? then [TracePoint(pairStart.value.x, pairStart.value.y, lastInputAt, BaseDotSize)] else [];
        }
        return;
      }
      if leftMouseHeld {
        if !wordSessionActive {
          StartWordSession();
        }
        SetWordsActive(true);
      }
    }

    /** `secretZoneActive = isPointInsideElement(...)` of the pointer handler. */
    method SetSecretZone(inside: bool)
      requires Valid()
      modifies this
      ensures Valid() && GameFlags() == old(GameFlags()).(secretZoneActive := inside)
      ensures connections == old(connections) && pendingTrace == old(pendingTrace) && pairStart == old(pairStart)
      ensures lastWordAt == old(lastWordAt)
    {
      secretZoneActive := inside;
    }

    /**
     * `appendPendingTracePoint`: only while an anchor is armed in the
     * background or the secret zone; a sample is added 6 px or more from the
     * previous one.
     */
    method AppendPendingTracePoint(x: real, y: real, ts: real)
      requires Valid()
      modifies this
      ensures Valid() && GameFlags() == old(GameFlags())
      ensures connections == old(connections) && pairStart == old(pairStart) && lastWordAt == old(lastWordAt)
      ensures !(miniModeActive || secretZoneActive) || pairStart.None? ==> pendingTrace == old(pendingTrace)
      ensures (miniModeActive || secretZoneActive) && pairStart.Some? ==>
        var base := if old(pendingTrace) == [] then [TracePoint(pairStart.value.x, pairStart.value.y, ts, BaseDotSize)] else old(pendingTrace);
        var last := base[|base| - 1];
        pendingTrace == base + (if DistSq(x, y, last.x, last.y) >= TraceSampleSpacing * TraceSampleSpacing then [TracePoint(x, y, ts, BaseDotSize)] else [])
    {
      if !(miniModeActive || secretZoneActive) || pairStart.None? {
        return;
      }
      var start := pairStart.value;
      if |pendingTrace| == 0 {
        pendingTrace := [TracePoint(start.x, start.y, ts, BaseDotSize)];
      }
      var last := pendingTrace[|pendingTrace| - 1];
      if DistSq(x, y, last.x, last.y) >= TraceSampleSpacing * TraceSampleSpacing {
        pendingTrace := pendingTrace + [TracePoint(x, y, ts, BaseDotSize)];
      }
    }

    /** The locking half of `registerPairAnchor`: the newest connections kept, at most ten. */
    method LockConnection(c: Connection)
      requires Valid() && ConnectionOk(c)
      modifies this
      ensures Valid() && connections == KeepNewest(old(connections) + [c], MaxConnections)
      ensures GameFlags() == old(GameFlags()) && pendingTrace == old(pendingTrace) && pairStart == old(pairStart)
      ensures lastWordAt == old(lastWordAt)
    {
      KeptConnectionsOk(connections, c);
      connections := KeepNewest(connections + [c], MaxConnections);
    }

    /** A secret shape counted; the third one completes the challenge. */
    method CountSecretShape(pointer: Position, now: real)
      requires Valid() && !secretUnlocked
      modifies this, trail
      ensures Valid() && secretShapesCompleted == old(secretShapesCompleted) + 1
      ensures secretShapesCompleted < SecretGoalShapes ==>
        GameFlags() == old(GameFlags()).(secretShapesCompleted := secretShapesCompleted)
        && connections == old(connections) && pendingTrace == old(pendingTrace) && pairStart == old(pairStart)
        && trail.points == old(trail.points) && lastWordAt == old(lastWordAt)
      ensures secretShapesCompleted >= SecretGoalShapes ==>
        GameFlags() == UnlockedFlags(old(GameFlags()), pointer, now).(secretShapesCompleted := secretShapesCompleted)
        && trail.points == [] && connections == [] && pendingTrace == [] && pairStart.None? && lastWordAt.None?
    {
      // Completing reads no counter, so it may come first and keep the invariant.
      if secretShapesCompleted + 1 >= SecretGoalShapes {
        CompleteSecretChallenge(pointer, now);
      }
      secretShapesCompleted := secretShapesCompleted + 1;
    }

    /**
     * `registerPairAnchor`: with no armed anchor, `anchor` arms the pair;
     * otherwise it closes it, locking the connection `ClosedConnection`
     * describes (and sounding it at once if it is a sine), counting a secret
     * shape, and always disarming. `pointer` and `now` stand for the pointer
     * position and `performance.now()` the secret's completion reads.
     */
    method RegisterPairAnchor(anchor: Anchor, ts: real, sqrt: real -> real, viewportHypot: real, pointer: Position, now: real)
      returns (sounds: seq<SoundRequest>)
      requires Valid()
      modifies this, trail
      ensures Valid()
      ensures old(pairStart).None? ==>
        pairStart == Some(anchor) && pendingTrace == [TracePoint(anchor.x, anchor.y, ts, BaseDotSize)]
        && connections == old(connections) && sounds == [] && GameFlags() == old(GameFlags())
        && trail.points == old(trail.points) && lastWordAt == old(lastWordAt)
      ensures old(pairStart).Some? ==> pairStart.None? && pendingTrace == []
      ensures old(pairStart).Some? ==>
        var closed := ClosedConnection(old(pendingTrace), old(pairStart).value, anchor, ts, sqrt, viewportHypot);
        var counted := closed.Some? && IsSecretShape(closed.value) && !old(secretUnlocked);
        var unlocks := counted && old(secretShapesCompleted) + 1 >= SecretGoalShapes;
        (closed.None? ==>
          connections == old(connections) && sounds == [] && GameFlags() == old(GameFlags())
          && trail.points == old(trail.points) && lastWordAt == old(lastWordAt))
        && (closed.Some? ==>
          sounds == (if closed.value.soundType == Sine then [SineRequest(Finite(closed.value.sineFrequencyHz))] else [])
          && secretShapesCompleted == old(secretShapesCompleted) + (if counted then 1 else 0)
          && secretUnlocked == (old(secretUnlocked) || unlocks)
          && (unlocks ==>
            connections == [] && trail.points == [] && lastWordAt.None?
            && GameFlags() == UnlockedFlags(old(GameFlags()), pointer, now).(secretShapesCompleted := secretShapesCompleted))
          && (!unlocks ==>
            connections == KeepNewest(old(connections) + [closed.value], MaxConnections)
            && trail.points == old(trail.points) && lastWordAt == old(lastWordAt)
            && GameFlags() == old(GameFlags()).(secretShapesCompleted := secretShapesCompleted)))
    {
      if pairStart.None? {
        sounds := [];
        pairStart, pendingTrace := Some(anchor), [TracePoint(anchor.x, anchor.y, ts, BaseDotSize)];
        return;
      }
      sounds := ClosePair(anchor, ts, sqrt, viewportHypot, pointer, now);
    }

    /** The closing half of `registerPairAnchor`, with an anchor armed. */
    method ClosePair(anchor: Anchor, ts: real, sqrt: real -> real, viewportHypot: real, pointer: Position, now: real)
      returns (sounds: seq<SoundRequest>)
      requires Valid() && pairStart.Some?
      modifies this, trail
      ensures Valid() && pairStart.None? && pendingTrace == []
      ensures var closed := ClosedConnection(old(pendingTrace), old(pairStart).value, anchor, ts, sqrt, viewportHypot);
        var counted := closed.Some? && IsSecretShape(closed.value) && !old(secretUnlocked);
        var unlocks := counted && old(secretShapesCompleted) + 1 >= SecretGoalShapes;
        (closed.None? ==>
          connections == old(connections) && sounds == [] && GameFlags() == old(GameFlags())
          && trail.points == old(trail.points) && lastWordAt == old(lastWordAt))
        && (closed.Some? ==>
          sounds == (if closed.value.soundType == Sine then [SineRequest(Finite(closed.value.sineFrequencyHz))] else [])
          && secretShapesCompleted == old(secretShapesCompleted) + (if counted then 1 else 0)
          && secretUnlocked == (old(secretUnlocked) || unlocks)
          && (unlocks ==>
            connections == [] && trail.points == [] && lastWordAt.None?
            && GameFlags() == UnlockedFlags(old(GameFlags()), pointer, now).(secretShapesCompleted := secretShapesCompleted))
          && (!unlocks ==>
            connections == KeepNewest(old(connections) + [closed.value], MaxConnections)
            && trail.points == old(trail.points) && lastWordAt == old(lastWordAt)
            && GameFlags() == old(GameFlags()).(secretShapesCompleted := secretShapesCompleted)))
    {
      var start := pairStart.value;
      var trace := ClosingTrace(pendingTrace, start, anchor, ts);
      var len := MeasurePolyline(trace, sqrt);
      ghost var closed := ClosedConnection(pendingTrace, start, anchor, ts, sqrt, viewportHypot);
      // Disarming first is the same: locking and counting never read the pending pair.
      pairStart, pendingTrace := None, [];
      if |trace| < 2 {
        assert closed.None?;
        return [];
      }
      var c := NewConnection(start, anchor, trace, ts, len, viewportHypot);
      assert closed == Some(c);
      sounds := LockAndCount(c, pointer, now);
    }

    /**
     * The closing half of `registerPairAnchor` once the trace has two
     * points: the connection is locked, sounded at once if it is a sine,
     * and counted when it is a secret shape and the secret is still locked.
     */
    method LockAndCount(c: Connection, pointer: Position, now: real) returns (sounds: seq<SoundRequest>)
      requires Valid() && ConnectionOk(c) && pairStart.None? && pendingTrace == []
      modifies this, trail
      ensures Valid() && pairStart.None? && pendingTrace == []
      ensures sounds == (if c.soundType == Sine then [SineRequest(Finite(c.sineFrequencyHz))] else [])
      ensures var counted := IsSecretShape(c) && !old(secretUnlocked);
        var unlocks := counted && old(secretShapesCompleted) + 1 >= SecretGoalShapes;
        secretShapesCompleted == old(secretShapesCompleted) + (if counted then 1 else 0)
        && secretUnlocked == (old(secretUnlocked) || unlocks)
        && (unlocks ==>
          connections == [] && trail.points == [] && lastWordAt.None?
          && GameFlags() == UnlockedFlags(old(GameFlags()), pointer, now).(secretShapesCompleted := secretShapesCompleted))
        && (!unlocks ==>
          connections == KeepNewest(old(connections) + [c], MaxConnections)
          && trail.points == old(trail.points) && lastWordAt == old(lastWordAt)
          && GameFlags() == old(GameFlags()).(secretShapesCompleted := secretShapesCompleted))
    {
      sounds := [];
      LockConnection(c);
      if c.soundType == Sine {
        sounds := [SineRequest(Finite(c.sineFrequencyHz))];
      }
      ghost var unlocks := IsSecretShape(c) && !secretUnlocked && secretShapesCompleted + 1 >= SecretGoalShapes;
      if IsSecretShape(c) && !secretUnlocked {
        CountSecretShape(pointer, now);
      }
      assert unlocks ==> connections == [] && trail.points == [];
    }

    /**
     * `playConnections`: nothing while the game is stopped; otherwise every
     * connection plays each replay due by `ts`, in order, and is left with
     * its next replay after `ts`.
     */
    method PlayConnections(ts: real) returns (sounds: seq<SoundRequest>)
      requires Valid()
      modifies this
      ensures Valid() && GameFlags() == old(GameFlags())
      ensures pendingTrace == old(pendingTrace) && pairStart == old(pairStart) && lastWordAt == old(lastWordAt)
      ensures gameStopped ==> connections == old(connections) && sounds == []
      ensures !gameStopped ==> connections == AllAdvanced(old(connections), ts) && sounds == AllReplays(old(connections), ts)
    {
      if gameStopped {
        return [];
      }
      var next;
      next, sounds := ReplayAll(connections, ts);
      connections := next;
    }
  }

  /** The loop of `playConnections` over the locked connections, in order. */
  method ReplayAll(cs: seq<Connection>, ts: real) returns (next: seq<Connection>, sounds: seq<SoundRequest>)
    requires ConnectionsOk(cs)
    ensures next == AllAdvanced(cs, ts) && sounds == AllReplays(cs, ts)
    ensures ConnectionsOk(next)
  {
    next := cs;
    sounds := [];
    var i := 0;
    while i < |next|
      invariant 0 <= i <= |next| == |cs|
      invariant forall k :: 0 <= k < i ==> next[k] == Advanced(cs[k], ts)
      invariant forall k :: i <= k < |next| ==> next[k] == cs[k]
      invariant forall k :: 0 <= k < |next| ==> ConnectionOk(next[k])
      invariant sounds == AllReplays(cs[..i], ts)
    {
      var c, played := ReplayDue(next[i], ts);
      next := next[i := c];
      assert cs[..i + 1][..i] == cs[..i];
      sounds := sounds + played;
      i := i + 1;
    }
    assert cs[..i] == cs;
  }

  /**
   * The inner loop of `playConnections` for one connection: each replay due
   * by `ts` sounds, toggles the anchor and moves the schedule one interval on.
   */
  method ReplayDue(c: Connection, ts: real) returns (r: Connection, played: seq<SoundRequest>)
    requires ConnectionOk(c)
    ensures r == Advanced(c, ts) && played == Replays(c, ts)
    ensures ConnectionOk(r) && r.nextPlayAt > ts
  {
    r := c;
    played := [];
    while ts >= r.nextPlayAt
      invariant r.intervalMs == c.intervalMs && r.nextAnchorIndex <= 1
      invariant Advanced(r, ts) == Advanced(c, ts)
      invariant played + Replays(r, ts) == Replays(c, ts)
      decreases Overdue(r, ts)
    {
      StepShrinksOverdue(r, ts);
      assert played + Replays(r, ts) == (played + [ReplaySound(r)]) + Replays(Step(r), ts);
      played := played + [ReplaySound(r)];
      r := Step(r);
    }
    AdvancedSchedule(c, ts);
  }
}
