/**
 * The scroll-spacer and drag-shift arithmetic of the context blocks in
 * articles/article-page.js. Two spacers (above and below the article) make
 * room for aligning a marker's context block; scrolling wears them away.
 * A context block can be dragged sideways and up or down within limits that
 * depend on the window width and on the block's measured geometry.
 */
module ContextShift {
  import opened Options
  import opened JsNumbers

  /** `CONTEXT_ALIGN_MAX_SPACER_PX`. */
  const MaxSpacerPx: real := 6000.0
  /** A spacer at or below this is spent. */
  const SpentPx: real := 0.5

  /** The value a spacer takes from `setContextAnchorSpacers`: non-finite input is 0, then clamped to [0, 6000]. */
  function SpacerValue(px: JsNumber): (r: real)
    ensures 0.0 <= r <= MaxSpacerPx
    ensures !IsFinite(px) ==> r == 0.0
    ensures IsFinite(px) && 0.0 <= px.value <= MaxSpacerPx ==> r == px.value
    ensures IsFinite(px) && px.value < 0.0 ==> r == 0.0
    ensures IsFinite(px) && px.value > MaxSpacerPx ==> r == MaxSpacerPx
  {
    Clamp(if px.Finite? then px.value else 0.0, 0.0, MaxSpacerPx)
  }

  /** The two spacers, in px. */
  datatype Spacers = Spacers(top: real, bottom: real)

  predicate InRange(s: Spacers)
  {
    0.0 <= s.top <= MaxSpacerPx && 0.0 <= s.bottom <= MaxSpacerPx
  }

  /**
   * The spacers after `consumeContextAnchorSpacer(deltaY)`: a lone spacer
   * wears away by 0.55 of the scroll when the scroll moves away from it and
   * by 0.28 when it moves towards it; when both (or neither) are live both
   * wear away by 0.42 of it; every scroll counts as at least 0.3 px. Once
   * both are spent both are cleared, otherwise they are written back
   * through `setContextAnchorSpacers`.
   */
  function Consume(s: Spacers, deltaY: real): Spacers
  {
    var next := Worn(s, deltaY);
    if next.top <= SpentPx && next.bottom <= SpentPx then Spacers(0.0, 0.0)
    else Spacers(SpacerValue(Finite(next.top)), SpacerValue(Finite(next.bottom)))
  }

  /** The spacers worn by one scroll, before they are cleared or written back. */
  function Worn(s: Spacers, deltaY: real): Spacers
  {
    var magnitude := Max(0.3, Abs(deltaY));
    if s.top > SpentPx && s.bottom <= SpentPx then
      Spacers(Max(0.0, s.top - (if deltaY > 0.0 then magnitude * 0.55 else magnitude * 0.28)), s.bottom)
    else if s.bottom > SpentPx && s.top <= SpentPx then
      Spacers(s.top, Max(0.0, s.bottom - (if deltaY < 0.0 then magnitude * 0.55 else magnitude * 0.28)))
    else
      Spacers(Max(0.0, s.top - magnitude * 0.42), Max(0.0, s.bottom - magnitude * 0.42))
  }

  /** Scrolling never grows a spacer and keeps both in range. */
  lemma ConsumeNeverIncreases(s: Spacers, deltaY: real)
    requires InRange(s)
    ensures InRange(Consume(s, deltaY))
    ensures Consume(s, deltaY).top <= s.top && Consume(s, deltaY).bottom <= s.bottom
  {
  }

  /** After a scroll either both spacers are 0 or one of them is still live. */
  lemma ConsumeClearsSpent(s: Spacers, deltaY: real)
    requires InRange(s)
    ensures var r := Consume(s, deltaY); r == Spacers(0.0, 0.0) || r.top > SpentPx || r.bottom > SpentPx
  {
  }

  /** While a spacer is live every scroll takes something off the total. */
  lemma ConsumeShrinks(s: Spacers, deltaY: real)
    requires InRange(s) && (s.top > SpentPx || s.bottom > SpentPx)
    ensures Consume(s, deltaY).top + Consume(s, deltaY).bottom < s.top + s.bottom
  {
  }

  /** A lone top spacer wears away faster when the pane scrolls down than when it scrolls up. */
  lemma ConsumeTopFasterDownwards(top: real, bottom: real, d: real)
    requires SpentPx < top <= MaxSpacerPx && 0.0 <= bottom <= SpentPx && d > 0.0
    ensures Consume(Spacers(top, bottom), d).top <= Consume(Spacers(top, bottom), -d).top
  {
  }

  /** The spacer module variables `contextAnchorSpacerTopPx` / `BottomPx`. */
  class AnchorSpacers {
    var top: real
    var bottom: real

    predicate Valid()
      reads this
    {
      InRange(Spacers(top, bottom))
    }

    constructor()
      ensures Valid() && top == 0.0 && bottom == 0.0
    {
      top := 0.0;
      bottom := 0.0;
    }

    /** `setContextAnchorSpacers(topPx, bottomPx)`. */
    method SetContextAnchorSpacers(topPx: JsNumber, bottomPx: JsNumber)
      modifies this
      ensures Valid()
      ensures top == SpacerValue(topPx) && bottom == SpacerValue(bottomPx)
    {
      top := SpacerValue(topPx);
      bottom := SpacerValue(bottomPx);
    }

    /** `clearContextAnchorSpacer()`. */
    method ClearContextAnchorSpacer()
      modifies this
      ensures Valid() && top == 0.0 && bottom == 0.0
    {
      top := 0.0;
      bottom := 0.0;
    }

    /** `consumeContextAnchorSpacer(deltaY)`. */
    method ConsumeContextAnchorSpacer(deltaY: real)
      requires Valid()
      modifies this
      ensures Valid()
      ensures Spacers(top, bottom) == Consume(Spacers(old(top), old(bottom)), deltaY)
      ensures top <= old(top) && bottom <= old(bottom)
    {
      ghost var before := Spacers(top, bottom);
      ConsumeNeverIncreases(before, deltaY);
      var magnitude := Max(0.3, Abs(deltaY));
      var nextTop := top;
      var nextBottom := bottom;
      if nextTop > SpentPx && nextBottom <= SpentPx {
        var wear := if deltaY > 0.0 then magnitude * 0.55 else magnitude * 0.28;
        nextTop := Max(0.0, nextTop - wear);
      } else if nextBottom > SpentPx && nextTop <= SpentPx {
        var wear := if deltaY < 0.0 then magnitude * 0.55 else magnitude * 0.28;
        nextBottom := Max(0.0, nextBottom - wear);
      } else {
        var decay := magnitude * 0.42;
        nextTop := Max(0.0, nextTop - decay);
        nextBottom := Max(0.0, nextBottom - decay);
      }
      assert Spacers(nextTop, nextBottom) == Worn(before, deltaY);
      if nextTop <= SpentPx && nextBottom <= SpentPx {
        ClearContextAnchorSpacer();
        return;
      }
      SetContextAnchorSpacers(Finite(nextTop), Finite(nextBottom));
    }
  }

  /** A block's `contextShiftX`/`contextShiftY`, the translation its transform applies. */
  datatype Offset = Offset(x: real, y: real)

  /**
   * The context-shift state of the article: the shifted blocks by id with
   * their offsets, the active (draggable) block, whether a drag is under way
   * (`contextShiftDragState`), and the two anchor spacers.
   */
  class ContextShiftBlocks {
    var shifted: map<string, Offset>
    var activeBlock: Option<string>
    var dragging: bool
    const spacers: AnchorSpacers

    constructor()
      ensures shifted == map[] && activeBlock.None? && !dragging
      ensures fresh(spacers) && spacers.Valid() && spacers.top == 0.0 && spacers.bottom == 0.0
    {
      shifted := map[];
      activeBlock := None;
      dragging := false;
      spacers := new AnchorSpacers();
    }

    /**
     * `resetContextShiftBlocks()`: every shifted block loses its transform
     * and offsets, no block stays active, the drag ends and both spacers are
     * cleared.
     */
    method ResetContextShiftBlocks()
      modifies this, spacers
      ensures shifted == map[] && activeBlock.None? && !dragging
      ensures spacers.Valid() && spacers.top == 0.0 && spacers.bottom == 0.0
    {
      while shifted != map[]
        decreases |shifted.Keys|
      {
        var id :| id in shifted;
        shifted := shifted - {id};
      }
      activeBlock := None;
      dragging := false;
      spacers.ClearContextAnchorSpacer();
    }
  }

  /** `options.mode`: anything but `"align"` drags. */
  datatype ShiftMode = Drag | Align

  /** The block's own reach inside the pane, as `getContextShiftBoundsFromGeometry` measures it. */
  datatype Bounds = Bounds(minX: real, maxX: real)

  /** What `getContextShiftLimits` returns: the x range and the symmetric y reach. */
  datatype ShiftLimits = ShiftLimits(minX: real, maxX: real, y: real)

  /** The horizontal reach for a window `innerWidth` px wide. */
  function BaseX(innerWidth: real): (x: real)
    ensures x == 72.0 || x == 180.0 || x == 420.0
  {
    if innerWidth < 680.0 then 72.0 else if innerWidth < 960.0 then 180.0 else 420.0
  }

  /** The vertical reach for a window `innerWidth` px wide. */
  function BaseY(innerWidth: real): (y: real)
    ensures y == 24.0 || y == 64.0 || y == 120.0
  {
    if innerWidth < 680.0 then 24.0 else if innerWidth < 960.0 then 64.0 else 120.0
  }

  /** `getContextAlignXOvershoot`. */
  function AlignOvershoot(innerWidth: real): (x: real)
    ensures x == 84.0 || x == 220.0 || x == 460.0
  {
    if innerWidth < 680.0 then 84.0 else if innerWidth < 960.0 then 220.0 else 460.0
  }

  /** A wider window never gives a smaller reach. */
  lemma BaseReachMonotone(w1: real, w2: real)
    requires w1 <= w2
    ensures BaseX(w1) <= BaseX(w2) && BaseY(w1) <= BaseY(w2) && AlignOvershoot(w1) <= AlignOvershoot(w2)
  {
  }

  /**
   * `getContextShiftLimits(block, { mode })` with the window width and the
   * measured geometry (`None` when it cannot be measured) as parameters.
   */
  function GetContextShiftLimits(innerWidth: real, mode: ShiftMode, geometry: Option<Bounds>): (r: ShiftLimits)
    ensures r.minX <= r.maxX
    ensures r.y == BaseY(innerWidth)
  {
    var baseX := BaseX(innerWidth);
    var range :=
      if geometry.None? then Bounds(-baseX, baseX)
      else if mode == Align then
        Bounds(geometry.value.minX - AlignOvershoot(innerWidth), geometry.value.maxX + AlignOvershoot(innerWidth))
      else Bounds(Max(-baseX, geometry.value.minX), Min(baseX, geometry.value.maxX));
    if range.maxX < range.minX then
      var pivot := (range.minX + range.maxX) / 2.0;
      ShiftLimits(pivot, pivot, BaseY(innerWidth))
    else ShiftLimits(range.minX, range.maxX, BaseY(innerWidth))
  }

  /** Without geometry the range is the symmetric base reach. */
  lemma LimitsWithoutGeometry(innerWidth: real, mode: ShiftMode)
    ensures GetContextShiftLimits(innerWidth, mode, None) == ShiftLimits(-BaseX(innerWidth), BaseX(innerWidth), BaseY(innerWidth))
  {
  }

  /**
   * Dragging: a geometry range that overlaps the base reach is cut to it;
   * a range that misses it (or is itself empty) collapses to the midpoint
   * of the two cut ends.
   */
  lemma DragLimits(innerWidth: real, g: Bounds)
    ensures var r := GetContextShiftLimits(innerWidth, Drag, Some(g));
      var lo := Max(-BaseX(innerWidth), g.minX);
      var hi := Min(BaseX(innerWidth), g.maxX);
      (lo <= hi ==> r.minX == lo && r.maxX == hi && -BaseX(innerWidth) <= r.minX && r.maxX <= BaseX(innerWidth))
      && (hi < lo ==> r.minX == r.maxX == (lo + hi) / 2.0)
  {
  }

  /** Aligning: the geometry range widened by the overshoot on each side, collapsed to its midpoint when empty. */
  lemma AlignLimits(innerWidth: real, g: Bounds)
    ensures var r := GetContextShiftLimits(innerWidth, Align, Some(g));
      var o := AlignOvershoot(innerWidth);
      (g.minX - o <= g.maxX + o ==> r.minX == g.minX - o && r.maxX == g.maxX + o)
      && (g.maxX + o < g.minX - o ==> r.minX == r.maxX == (g.minX + g.maxX) / 2.0)
  {
  }

  /** The snap of `applyContextShift`: shifts under 0.35 px become 0. */
  function Snap(v: real): (r: real)
    ensures Abs(v) < 0.35 ==> r == 0.0
    ensures Abs(v) >= 0.35 ==> r == v
  {
    if Abs(v) < 0.35 then 0.0 else v
  }

  /** Snapping twice is snapping once, and a snapped shift is 0 or at least 0.35 px. */
  lemma SnapIdempotent(v: real)
    ensures Snap(Snap(v)) == Snap(v)
    ensures Snap(v) == 0.0 || Abs(Snap(v)) >= 0.35
  {
  }

  /**
   * A drag step (`onContextShiftPointerMove`): the shift is clamped to the
   * limits and then snapped; it stays within the limits whenever they
   * contain the resting position 0.
   */
  lemma DragShiftWithinLimits(l: ShiftLimits, x: real, y: real)
    requires l.minX <= 0.0 <= l.maxX && l.y >= 0.0
    ensures l.minX <= Snap(Clamp(x, l.minX, l.maxX)) <= l.maxX
    ensures -l.y <= Snap(Clamp(y, -l.y, l.y)) <= l.y
  {
  }
}
