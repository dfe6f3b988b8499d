/**
 * Node importance in the mind maps of articles/article-page.js and
 * listening-notes-7q4m/article-page.js (the two copies are the same): a node
 * has a level (1 is the most important, 3 the default), the map has a
 * deepest level, and a node's level against that depth sets how strongly it
 * is drawn.
 */
module Importance {
  import opened Options
  import opened JsNumbers
  import opened MathUtils

  /**
   * What a node carries for its level: whether `important` is exactly
   * `true`, and `Number(node.importance)`. A missing node reads as
   * `MapNode(false, NaN)`.
   */
  datatype MapNode = MapNode(important: bool, importance: JsNumber)

  /** `getNodeImportanceLevel`. */
  function NodeImportanceLevel(node: MapNode): (level: int)
    ensures level >= 1
    ensures node.important ==> level == 1
    ensures !node.important && node.importance.Finite? && node.importance.value >= 1.0 ==>
      level == Round(node.importance.value)
    ensures !node.important && !(node.importance.Finite? && node.importance.value >= 1.0) ==> level == 3
  {
    if node.important then 1
    else if node.importance.Finite? && node.importance.value >= 1.0 then Round(node.importance.value)
    else 3
  }

  /** An integral importance of at least 1 is taken as it is. */
  lemma IntegralImportanceKept(n: nat)
    requires n >= 1
    ensures NodeImportanceLevel(MapNode(false, Finite(n as real))) == n
  {
  }

  /** The deepest level of `nodes`, never shallower than the default 3. */
  function MaxLevel(nodes: seq<MapNode>): int
    decreases |nodes|
  {
    if nodes == [] then 3
    else
      var rest := MaxLevel(nodes[..|nodes| - 1]);
      var level := NodeImportanceLevel(nodes[|nodes| - 1]);
      if level > rest then level else rest
  }

  /**
   * The deepest level is at least 3 and at least every node's level, and
   * it is 3 or the level of some node.
   */
  lemma {:induction false} MaxLevelIsMaximum(nodes: seq<MapNode>)
    ensures MaxLevel(nodes) >= 3
    ensures forall i :: 0 <= i < |nodes| ==> NodeImportanceLevel(nodes[i]) <= MaxLevel(nodes)
    ensures MaxLevel(nodes) == 3 || exists i :: 0 <= i < |nodes| && NodeImportanceLevel(nodes[i]) == MaxLevel(nodes)
    decreases |nodes|
  {
    if nodes != [] {
      var p := nodes[..|nodes| - 1];
      MaxLevelIsMaximum(p);
      assert forall i :: 0 <= i < |p| ==> p[i] == nodes[i];
    }
  }

  /**
   * `getMaxImportanceLevel(nodes)`: 3 for a missing or empty list,
   * otherwise the running maximum over the nodes, starting from 3.
   */
  method GetMaxImportanceLevel(nodes: Option<seq<MapNode>>) returns (maxLevel: int)
    ensures maxLevel >= 3
    ensures nodes.None? ==> maxLevel == 3
    ensures nodes.Some? ==> maxLevel == MaxLevel(nodes.value)
    ensures nodes.Some? ==> forall i :: 0 <= i < |nodes.value| ==> NodeImportanceLevel(nodes.value[i]) <= maxLevel
  {
    if nodes.None? || |nodes.value| == 0 {
      return 3;
    }
    var all := nodes.value;
    maxLevel := 3;
    var i := 0;
    while i < |all|
      invariant 0 <= i <= |all|
      invariant maxLevel == MaxLevel(all[..i])
    {
      assert all[..i + 1][..i] == all[..i];
      var level := NodeImportanceLevel(all[i]);
      if level > maxLevel {
        maxLevel := level;
      }
      i := i + 1;
    }
    assert all[..i] == all;
    MaxLevelIsMaximum(all);
  }

  /** The numeric parts of what `buildImportanceStyle` returns. */
  datatype ImportanceStyle = ImportanceStyle(
    bluePriority: bool,      // drawn in the accent blue
    borderWidth: int,
    sizeDelta: int,
    alpha: real,             // background
    borderAlpha: real,
    highlightAlpha: real,    // background when highlighted
    highlightBorderAlpha: real)

  /** How far down the levels `level` lies, from 0 (level 1) to 1 (the deepest level). */
  function Depth(level: int, maxLevel: int): (t: real)
    ensures 0.0 <= t <= 1.0
  {
    var normalizedMax := Max(1.0, (maxLevel - 1) as real);
    Clamp01((level - 1) as real / normalizedMax)
  }

  /** `buildImportanceStyle(level, maxLevel)`, without the theme colours. */
  function BuildImportanceStyle(level: int, maxLevel: int): (s: ImportanceStyle)
    ensures s.bluePriority <==> level <= 2
    ensures s.borderWidth == (if level <= 2 then 2 else 1)
    ensures 0.22 <= s.alpha <= 1.0
    ensures s.alpha <= s.highlightAlpha <= 1.0 && s.alpha <= s.borderAlpha <= 1.0
    ensures s.highlightAlpha <= s.highlightBorderAlpha <= 1.0
    ensures -4 <= s.sizeDelta <= 4
  {
    var emphasis := 1.0 - Depth(level, maxLevel);
    var alpha := 0.22 + emphasis * 0.78;
    var highlightAlpha := Min(1.0, alpha + 0.15);
    ImportanceStyle(
      level <= 2,
      if level <= 2 then 2 else 1,
      Round((emphasis - 0.5) * 8.0),
      alpha,
      Min(1.0, alpha + 0.08),
      highlightAlpha,
      Min(1.0, highlightAlpha + 0.08))
  }

  /** A deeper level is never drawn stronger or larger. */
  lemma StyleAntitone(l1: int, l2: int, maxLevel: int)
    requires l1 <= l2
    ensures BuildImportanceStyle(l2, maxLevel).alpha <= BuildImportanceStyle(l1, maxLevel).alpha
    ensures BuildImportanceStyle(l2, maxLevel).sizeDelta <= BuildImportanceStyle(l1, maxLevel).sizeDelta
  {
    var normalizedMax := Max(1.0, (maxLevel - 1) as real);
    var q1 := (l1 - 1) as real / normalizedMax;
    var q2 := (l2 - 1) as real / normalizedMax;
    assert q1 <= q2;
    var e1 := 1.0 - Depth(l1, maxLevel);
    var e2 := 1.0 - Depth(l2, maxLevel);
    assert e2 <= e1;
    RoundMonotone((e2 - 0.5) * 8.0, (e1 - 0.5) * 8.0);
  }

  /** Level 1 is drawn at full strength and 4 px larger; the deepest level at 0.22 and 4 px smaller. */
  lemma StyleExtremes(maxLevel: int)
    requires maxLevel >= 2
    ensures BuildImportanceStyle(1, maxLevel).alpha == 1.0 && BuildImportanceStyle(1, maxLevel).sizeDelta == 4
    ensures BuildImportanceStyle(maxLevel, maxLevel).alpha == 0.22
    ensures BuildImportanceStyle(maxLevel, maxLevel).sizeDelta == -4
  {
    var m := (maxLevel - 1) as real;
    assert Max(1.0, m) == m && m / m == 1.0 && 0.0 / m == 0.0;
    assert Depth(1, maxLevel) == 0.0 && Depth(maxLevel, maxLevel) == 1.0;
  }
}
