/**
 * The drawing mini game of js/mini-game.js: dots are emitted along a stroke
 * drawn over dark lines of the mask, at most one per 20 ms, and a stroke
 * whose ends lie far enough apart becomes the locked connection that repeats
 * a pluck.
 *
 * The mask sample at a screen point and `Math.sqrt` are parameters; the
 * canvas drawing and the dot fading are not modelled.
 */
module MiniGame {
  import opened Options
  import opened JsNumbers
  import opened MathUtils
  import opened Collections
  import opened WordShuffle
  import opened AudioPluck

  // `miniConfig`
  const DotMinSize: real := 2.8
  const DotMaxSize: real := 9.2
  const DotLife: nat := 138
  const MaxDots: nat := 280
  const EmitSpacing: real := 20.0
  const MinConnectionDistancePx: real := 500.0
  const MinConnectionDistanceRatio: real := 0.46
  const AccentCooldownMs: real := 20.0
  const SoundRepeatMinMs: real := 200.0
  const SoundRepeatMaxMs: real := 2000.0

  const DotSizeRange: SizeRange := SizeRange(DotMinSize, DotMaxSize)

  datatype GameDot = GameDot(x: real, y: real, size: real, life: int, maxLife: nat, strokeId: nat, strength: real)

  datatype StrokePoint = StrokePoint(x: real, y: real, size: real, strength: real)

  datatype LockedConnection = LockedConnection(a: StrokePoint, b: StrokePoint, trace: seq<Position>, distance: real)

  datatype SoundPattern = SoundPattern(traceLength: real, intervalMs: real, lastPlayAt: real)

  /** What `sampleMaskAt` reports for a screen point. */
  datatype MaskHit = MaskHit(isDarkLine: bool, strength: real)

  /** `Math.max(dotMinSize, Math.min(dotMaxSize, size))`. */
  function ClampDotSize(size: real): (r: real)
    ensures DotMinSize <= r <= DotMaxSize
    ensures DotMinSize <= size <= DotMaxSize ==> r == size
    ensures size < DotMinSize ==> r == DotMinSize
    ensures size > DotMaxSize ==> r == DotMaxSize
  {
    Clamp(size, DotMinSize, DotMaxSize)
  }

  /**
   * `createSoundPattern`: the repeat interval grows linearly from 200 ms for
   * no length to 2000 ms for 1000 px or more.
   */
  function CreateSoundPattern(traceLength: real): (p: SoundPattern)
    ensures SoundRepeatMinMs <= p.intervalMs <= SoundRepeatMaxMs
    ensures traceLength <= 0.0 ==> p.intervalMs == SoundRepeatMinMs
    ensures traceLength >= 1000.0 ==> p.intervalMs == SoundRepeatMaxMs
    ensures p.traceLength == traceLength && p.lastPlayAt == 0.0
  {
    var normalized := Clamp01(traceLength / 1000.0);
    MulBetween(SoundRepeatMaxMs - SoundRepeatMinMs, normalized);
    SoundPattern(traceLength, SoundRepeatMinMs + (SoundRepeatMaxMs - SoundRepeatMinMs) * normalized, 0.0)
  }

  /** A longer trace never repeats faster. */
  lemma SoundPatternMonotone(l1: real, l2: real)
    requires l1 <= l2
    ensures CreateSoundPattern(l1).intervalMs <= CreateSoundPattern(l2).intervalMs
  {
    var t1 := Clamp01(l1 / 1000.0);
    var t2 := Clamp01(l2 / 1000.0);
    assert t1 <= t2;
    LerpMonotone(SoundRepeatMinMs, SoundRepeatMaxMs, t1, t2);
  }

  /** `getLocalPointerPosition`: the pointer inside the canvas rectangle, clamped to its edges. */
  function LocalPointerPosition(clientX: real, clientY: real, left: real, top: real, width: real, height: real): (p: Position)
    requires width >= 0.0 && height >= 0.0
    ensures 0.0 <= p.x <= width && 0.0 <= p.y <= height
    ensures 0.0 <= clientX - left <= width ==> p.x == clientX - left
    ensures 0.0 <= clientY - top <= height ==> p.y == clientY - top
  {
    Position(Max(0.0, Min(width, clientX - left)), Max(0.0, Min(height, clientY - top)))
  }

  /** Whether the cooldown since the last accepted dot has passed; `None` is `-Infinity`. */
  predicate CooledDown(lastAccentEmitAt: Option<real>, ts: real)
  {
    lastAccentEmitAt.None? || ts - lastAccentEmitAt.value >= AccentCooldownMs
  }

  /** The smallest distance between the ends of a stroke that locks it. */
  function MinConnectionDistance(width: real): (d: real)
    ensures d >= MinConnectionDistancePx && d >= width * MinConnectionDistanceRatio
  {
    Max(MinConnectionDistancePx, width * MinConnectionDistanceRatio)
  }

  /** The straight distance between the ends of a stroke, `sqrt` standing for `Math.sqrt`. */
  function EndDistance(stroke: seq<StrokePoint>, sqrt: real -> real): real
    requires |stroke| >= 1
  {
    var start := stroke[0];
    var end := stroke[|stroke| - 1];
    sqrt(DistSq(end.x, end.y, start.x, start.y))
  }

  /** The lock decision of `endDrawing`: two points or more, with ends far enough apart. */
  predicate LocksStroke(stroke: seq<StrokePoint>, width: real, sqrt: real -> real)
  {
    |stroke| >= 2 && EndDistance(stroke, sqrt) >= MinConnectionDistance(width)
  }

  function TraceOf(stroke: seq<StrokePoint>): (t: seq<Position>)
    ensures |t| == |stroke| && forall i :: 0 <= i < |stroke| ==> t[i] == Position(stroke[i].x, stroke[i].y)
  {
    seq(|stroke|, i requires 0 <= i < |stroke| => Position(stroke[i].x, stroke[i].y))
  }

  /** The connection a locking stroke becomes: its two ends and the whole path. */
  function ConnectionOf(stroke: seq<StrokePoint>, sqrt: real -> real): (c: LockedConnection)
    requires |stroke| >= 2
    ensures c.a == stroke[0] && c.b == stroke[|stroke| - 1] && c.trace == TraceOf(stroke)
    ensures c.distance == EndDistance(stroke, sqrt)
  {
    LockedConnection(stroke[0], stroke[|stroke| - 1], TraceOf(stroke), EndDistance(stroke, sqrt))
  }

  /** A locked stroke's ends lie at least 500 px apart, and at least 46 % of the canvas width. */
  lemma LockedEndsFarApart(stroke: seq<StrokePoint>, width: real, sqrt: real -> real)
    requires LocksStroke(stroke, width, sqrt)
    ensures ConnectionOf(stroke, sqrt).distance >= 500.0
    ensures ConnectionOf(stroke, sqrt).distance >= 0.46 * width
  {
  }

  /** How many interpolated samples a move of `distance` pixels is split into. */
  function Steps(distance: real): (n: nat)
    requires distance >= EmitSpacing
    ensures n >= 1 && n as real <= distance / EmitSpacing
  {
    Floor(distance / EmitSpacing)
  }

  /** Every dot sized within [2.8, 9.2]. */
  predicate SizedDots(dots: seq<GameDot>)
  {
    forall i :: 0 <= i < |dots| ==> DotMinSize <= dots[i].size <= DotMaxSize
  }

  /** Every stroke point sized within [2.8, 9.2]. */
  predicate SizedStroke(stroke: seq<StrokePoint>)
  {
    forall i :: 0 <= i < |stroke| ==> DotMinSize <= stroke[i].size <= DotMaxSize
  }

  /** A sized point keeps the stroke sized. */
  lemma StrokeSnocSized(stroke: seq<StrokePoint>, p: StrokePoint)
    requires SizedStroke(stroke) && DotMinSize <= p.size <= DotMaxSize
    ensures SizedStroke(stroke + [p])
  {
    assert forall i :: 0 <= i < |stroke| ==> (stroke + [p])[i] == stroke[i];
  }

  /** A dot of clamped size joining the buffer, the oldest dropped beyond 280. */
  function PushDot(dots: seq<GameDot>, d: GameDot): (r: seq<GameDot>)
    requires SizedDots(dots) && DotMinSize <= d.size <= DotMaxSize
    ensures SizedDots(r) && |r| <= MaxDots
    ensures r == KeepNewest(dots + [d], MaxDots)
  {
    var all := dots + [d];
    var r := KeepNewest(all, MaxDots);
    assert forall i :: 0 <= i < |r| ==> r[i] == all[|all| - |r| + i];
    r
  }

  datatype PointerState = PointerState(strokeId: nat, drawing: bool, activePointerId: Option<int>, lastEmit: Position, lastMoveAt: real)

  datatype LockState = LockState(lockedConnection: Option<LockedConnection>, soundPattern: Option<SoundPattern>, lastSoundPlayAt: real, width: real)

  class Game {
    var gameDots: seq<GameDot>
    var currentStroke: seq<StrokePoint>
    var strokeId: nat
    var drawing: bool
    var activePointerId: Option<int>
    var lastEmit: Position
    var lastMoveAt: real
    var lockedConnection: Option<LockedConnection>
    var soundPattern: Option<SoundPattern>
    var lastSoundPlayAt: real
    var lastAccentEmitAt: Option<real>
    /** `miniW`: the canvas width, at least 1. */
    var width: real

    /** The stroke-tracking state the dot emitter leaves alone. */
    function Pointer(): PointerState
      reads this
    {
      PointerState(strokeId, drawing, activePointerId, lastEmit, lastMoveAt)
    }

    /** The lock state the dot emitter and the path tracker leave alone. */
    function Lock(): LockState
      reads this
    {
      LockState(lockedConnection, soundPattern, lastSoundPlayAt, width)
    }

    /**
     * At most 280 dots, every dot and stroke point sized within [2.8, 9.2],
     * and a locked connection exactly when there is a sound pattern, whose
     * interval lies in [200, 2000].
     */
    predicate Valid()
      reads this
    {
      |gameDots| <= MaxDots
      && SizedDots(gameDots) && SizedStroke(currentStroke)
      && (lockedConnection.Some? <==> soundPattern.Some?)
      && (soundPattern.Some? ==> SoundRepeatMinMs <= soundPattern.value.intervalMs <= SoundRepeatMaxMs)
      && width >= 1.0
    }

    constructor(width: real, now: real)
      requires width >= 1.0
      ensures Valid() && gameDots == [] && currentStroke == [] && !drawing && lockedConnection.None?
      ensures lastAccentEmitAt.None? && this.width == width
    {
      gameDots := [];
      currentStroke := [];
      strokeId := 0;
      drawing := false;
      activePointerId := None;
      lastEmit := Position(0.0, 0.0);
      lastMoveAt := now;
      lockedConnection := None;
      soundPattern := None;
      lastSoundPlayAt := 0.0;
      lastAccentEmitAt := None;
      this.width := width;
    }

    /** The accepted half of `emitGameDot`: the dot joins the buffer and the stroke. */
    method AcceptDot(x: real, y: real, size: real, strength: real, ts: real)
      requires Valid()
      modifies this
      ensures Valid()
      ensures gameDots == PushDot(old(gameDots), GameDot(x, y, ClampDotSize(size), DotLife, DotLife, strokeId, strength))
      ensures currentStroke == old(currentStroke) + [StrokePoint(x, y, ClampDotSize(size), strength)]
      ensures lastAccentEmitAt == Some(ts)
      ensures Pointer() == old(Pointer()) && Lock() == old(Lock())
    {
      var s := ClampDotSize(size);
      var point := StrokePoint(x, y, s, strength);
      StrokeSnocSized(currentStroke, point);
      var dots := PushDot(gameDots, GameDot(x, y, s, DotLife, DotLife, strokeId, strength));
      ghost var pointer, lock := Pointer(), Lock();
      gameDots, currentStroke, lastAccentEmitAt := dots, currentStroke + [point], Some(ts);
      assert Pointer() == pointer && Lock() == lock;
    }

    /**
     * `emitGameDot`: refused within 20 ms of the last accepted dot; otherwise
     * a dot of clamped size joins the bounded dot buffer and the stroke, and
     * is plucked.
     */
    method EmitGameDot(x: real, y: real, size: real, strength: real, ts: real) returns (emitted: bool, sound: Option<SoundRequest>)
      requires Valid()
      modifies this
      ensures Valid()
      ensures emitted <==> CooledDown(old(lastAccentEmitAt), ts)
      ensures !emitted ==>
        sound.None? && gameDots == old(gameDots) && currentStroke == old(currentStroke)
        && lastAccentEmitAt == old(lastAccentEmitAt)
      ensures emitted ==>
        gameDots == KeepNewest(old(gameDots) + [GameDot(x, y, ClampDotSize(size), DotLife, DotLife, strokeId, strength)], MaxDots)
        && currentStroke == old(currentStroke) + [StrokePoint(x, y, ClampDotSize(size), strength)]
        && lastAccentEmitAt == Some(ts)
        && sound == Some(PluckRequest(ClampDotSize(size), DotSizeRange))
      ensures Pointer() == old(Pointer()) && Lock() == old(Lock())
    {
      if !CooledDown(lastAccentEmitAt, ts) {
        return false, None;
      }
      AcceptDot(x, y, size, strength, ts);
      return true, Some(PluckRequest(ClampDotSize(size), DotSizeRange));
    }

    /**
     * `beginDrawing`: a left-button (or non-mouse) press while the mini game
     * is active starts a new stroke at the pointer, with a dot of middle
     * size when it lands on a dark line. `active` is `miniGameActive`, which
     * the pointer handlers keep.
     */
    method BeginDrawing(isMouse: bool, button: int, active: bool, pointerId: int, pos: Position, now: real, hit: MaskHit)
      returns (sound: Option<SoundRequest>)
      requires Valid()
      modifies this
      ensures Valid()
      ensures !((!isMouse || button == 0) && active) ==>
        sound.None? && Pointer() == old(Pointer()) && currentStroke == old(currentStroke)
        && gameDots == old(gameDots) && lastAccentEmitAt == old(lastAccentEmitAt)
      ensures (!isMouse || button == 0) && active ==>
        drawing && activePointerId == Some(pointerId) && strokeId == old(strokeId) + 1
        && lastEmit == pos && lastMoveAt == now
      ensures (!isMouse || button == 0) && active ==>
        var emits := hit.isDarkLine && CooledDown(old(lastAccentEmitAt), now);
        (currentStroke == if emits then [StrokePoint(pos.x, pos.y, 6.0, hit.strength)] else [])
        && (gameDots == if emits
              then KeepNewest(old(gameDots) + [GameDot(pos.x, pos.y, 6.0, DotLife, DotLife, old(strokeId) + 1, hit.strength)], MaxDots)
              else old(gameDots))
        && (lastAccentEmitAt == if emits then Some(now) else old(lastAccentEmitAt))
        && (sound == if emits then Some(PluckRequest(6.0, DotSizeRange)) else None)
      ensures Lock() == old(Lock())
    {
      sound := None;
      if !(!isMouse || button == 0) || !active {
        return;
      }
      drawing := true;
      activePointerId := Some(pointerId);
      strokeId := strokeId + 1;
      currentStroke := [];
      lastEmit := pos;
      lastMoveAt := now;
      if hit.isDarkLine {
        var _, s := EmitGameDot(pos.x, pos.y, (DotMinSize + DotMaxSize) * 0.5, hit.strength, lastMoveAt);
        sound := s;
      }
    }

    /**
     * `drawPointerPath`: ignored unless drawing with the same pointer and
     * moved 20 px or more (and then nothing changes); otherwise the move is
     * split into `Steps(distance)` samples, a dot is tried at each one that
     * lies on a dark line, and the move is remembered. All samples share one
     * timestamp, so the cooldown lets at most one of them through.
     * `local` and `client` are the pointer on the canvas and on the screen,
     * `sample` stands for `sampleMaskAt`, `sqrt` for `Math.sqrt`.
     */
    method DrawPointerPath(pointerId: int, local: Position, client: Position, now: real,
                           sample: (real, real) -> MaskHit, sqrt: real -> real)
      returns (sounds: seq<SoundRequest>)
      requires Valid()
      modifies this
      ensures Valid()
      ensures var distance := sqrt(DistSq(local.x, local.y, old(lastEmit).x, old(lastEmit).y));
        !old(drawing) || old(activePointerId) != Some(pointerId) || distance < EmitSpacing ==>
        sounds == [] && lastEmit == old(lastEmit) && lastMoveAt == old(lastMoveAt)
        && currentStroke == old(currentStroke) && gameDots == old(gameDots) && lastAccentEmitAt == old(lastAccentEmitAt)
      ensures var distance := sqrt(DistSq(local.x, local.y, old(lastEmit).x, old(lastEmit).y));
        old(drawing) && old(activePointerId) == Some(pointerId) && distance >= EmitSpacing ==>
        lastEmit == local && lastMoveAt == now
      ensures old(currentStroke) <= currentStroke && |currentStroke| <= |old(currentStroke)| + 1
      ensures |sounds| <= 1 && (|sounds| == 1 <==> |currentStroke| == |old(currentStroke)| + 1)
      ensures |currentStroke| == |old(currentStroke)| + 1 ==> lastAccentEmitAt == Some(now)
      ensures drawing == old(drawing) && activePointerId == old(activePointerId) && strokeId == old(strokeId)
      ensures Lock() == old(Lock())
    {
      sounds := [];
      if !drawing || activePointerId != Some(pointerId) {
        return;
      }
      var dt := Max(1.0, now - lastMoveAt);
      var dx := local.x - lastEmit.x;
      var dy := local.y - lastEmit.y;
      var distance := sqrt(DistSq(local.x, local.y, lastEmit.x, lastEmit.y));
      if distance < EmitSpacing {
        return;
      }
      var steps := Steps(distance);
      var speedUnit := Clamp01(distance / dt / 0.9);
      var dotSize := Lerp(DotMinSize, DotMaxSize, speedUnit);
      var from := lastEmit;
      ghost var stroke0 := currentStroke;
      var i := 1;
      while i <= steps
        invariant 1 <= i <= steps + 1
        invariant Valid()
        invariant stroke0 <= currentStroke && |currentStroke| <= |stroke0| + 1
        invariant |sounds| <= 1 && (|sounds| == 1 <==> |currentStroke| == |stroke0| + 1)
        invariant |currentStroke| == |stroke0| + 1 ==> lastAccentEmitAt == Some(now)
        invariant lastEmit == from && lastMoveAt == old(lastMoveAt)
        invariant drawing == old(drawing) && activePointerId == old(activePointerId) && strokeId == old(strokeId)
        invariant Lock() == old(Lock())
      {
        var t := i as real / steps as real;
        var hit := sample(client.x - dx * (1.0 - t), client.y - dy * (1.0 - t));
        if hit.isDarkLine {
          var emitted, s := EmitGameDot(from.x + dx * t, from.y + dy * t, dotSize, hit.strength, now);
          if emitted {
            sounds := sounds + [s.value];
          }
        }
        i := i + 1;
      }
      lastEmit := local;
      lastMoveAt := now;
    }

    /**
     * `endDrawing`: for the drawing pointer only, the stroke ends; it is
     * locked, with a sound pattern for its end distance starting at `now`,
     * when `LocksStroke` holds, and the stroke is always cleared.
     */
    method EndDrawing(pointerId: int, now: real, sqrt: real -> real)
      requires Valid()
      modifies this
      ensures Valid()
      ensures !old(drawing) || old(activePointerId) != Some(pointerId) ==>
        drawing == old(drawing) && currentStroke == old(currentStroke) && lockedConnection == old(lockedConnection)
        && soundPattern == old(soundPattern) && activePointerId == old(activePointerId)
        && lastSoundPlayAt == old(lastSoundPlayAt)
      ensures old(drawing) && old(activePointerId) == Some(pointerId) ==>
        !drawing && activePointerId.None? && currentStroke == []
        && (LocksStroke(old(currentStroke), width, sqrt) ==>
              lockedConnection == Some(ConnectionOf(old(currentStroke), sqrt))
              && soundPattern == Some(CreateSoundPattern(EndDistance(old(currentStroke), sqrt)))
              && lastSoundPlayAt == now)
        && (!LocksStroke(old(currentStroke), width, sqrt) ==>
              lockedConnection == old(lockedConnection) && soundPattern == old(soundPattern)
              && lastSoundPlayAt == old(lastSoundPlayAt))
      ensures gameDots == old(gameDots) && width == old(width) && lastEmit == old(lastEmit)
      ensures strokeId == old(strokeId) && lastMoveAt == old(lastMoveAt) && lastAccentEmitAt == old(lastAccentEmitAt)
    {
      if !drawing || activePointerId != Some(pointerId) {
        return;
      }
      drawing := false;
      activePointerId := None;
      if LocksStroke(currentStroke, width, sqrt) {
        var c := ConnectionOf(currentStroke, sqrt);
        lockedConnection := Some(c);
        soundPattern := Some(CreateSoundPattern(c.distance));
        lastSoundPlayAt := now;
      }
      currentStroke := [];
    }
  }
}
