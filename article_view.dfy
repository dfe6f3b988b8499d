/**
 * The section switching and the edge highlighting of the article pages:
 * articles/article-page.js and listening-notes-7q4m/article-page.js show one
 * section of the article at a time, and the listening-notes page marks the
 * edges of the map that a passage talks about.
 */
module ArticleView {
  import opened Collections
  import opened ContextShift

  /** A `section[id]` of the article with its `activeClass` and its hidden state (`is-hidden` and `hidden` agree). */
  datatype Section = Section(id: string, active: bool, hidden: bool)

  /** The sections once `sectionId` is selected: those with that id are shown, every other one is hidden. */
  function Activated(sections: seq<Section>, sectionId: string): (r: seq<Section>)
    ensures |r| == |sections|
    ensures forall i :: 0 <= i < |r| ==> r[i].id == sections[i].id
    ensures forall i :: 0 <= i < |r| ==> (r[i].active <==> sections[i].id == sectionId) && r[i].hidden == !r[i].active
  {
    seq(|sections|, i requires 0 <= i < |sections| =>
      Section(sections[i].id, sections[i].id == sectionId, sections[i].id != sectionId))
  }

  /** With distinct ids at most one section is shown, and it is the selected one. */
  lemma ActivatedShowsOne(sections: seq<Section>, sectionId: string)
    requires forall i, j :: 0 <= i < j < |sections| ==> sections[i].id != sections[j].id
    ensures forall i, j :: (0 <= i < |sections| && 0 <= j < |sections| && Activated(sections, sectionId)[i].active
      && Activated(sections, sectionId)[j].active) ==> i == j
    ensures (exists i :: 0 <= i < |sections| && sections[i].id == sectionId) ==>
      exists i :: 0 <= i < |sections| && Activated(sections, sectionId)[i].active
  {
    if exists i :: 0 <= i < |sections| && sections[i].id == sectionId {
      var i :| 0 <= i < |sections| && sections[i].id == sectionId;
      assert Activated(sections, sectionId)[i].active;
    }
  }

  /** Selecting the same section again changes nothing. */
  lemma ActivatedIdempotent(sections: seq<Section>, sectionId: string)
    ensures Activated(Activated(sections, sectionId), sectionId) == Activated(sections, sectionId)
  {
  }

  /** The `for (const section of sectionEls)` loop of `selectSection`. */
  method ToggleSections(sections: seq<Section>, sectionId: string) returns (r: seq<Section>)
    ensures r == Activated(sections, sectionId)
  {
    r := sections;
    var i := 0;
    while i < |r|
      invariant 0 <= i <= |r| == |sections|
      invariant forall k :: 0 <= k < i ==> r[k] == Activated(sections, sectionId)[k]
      invariant forall k :: i <= k < |r| ==> r[k] == sections[k]
    {
      var isActive := r[i].id == sectionId;
      r := r[i := Section(r[i].id, isActive, !isActive)];
      i := i + 1;
    }
  }

  /** The sections of articles/article-page.js, with the context-shift state a section switch resets. */
  class ArticleSections {
    var selectedSectionId: string
    var sections: seq<Section>
    const shift: ContextShiftBlocks

    constructor(sections: seq<Section>)
      ensures this.sections == sections && selectedSectionId == []
      ensures fresh(shift) && fresh(shift.spacers)
      ensures shift.shifted == map[] && shift.activeBlock.None? && !shift.dragging
      ensures shift.spacers.top == 0.0 && shift.spacers.bottom == 0.0
    {
      this.sections := sections;
      selectedSectionId := [];
      shift := new ContextShiftBlocks();
    }

    /**
     * `selectSection(sectionId, force)`: an unforced reselect of the
     * selected section does nothing; otherwise the section is selected,
     * every section shown or hidden to match, and every context shift and
     * both anchor spacers reset.
     */
    method SelectSection(sectionId: string, force: bool)
      modifies this, shift, shift.spacers
      ensures !force && old(selectedSectionId) == sectionId ==>
        selectedSectionId == old(selectedSectionId) && sections == old(sections)
        && unchanged(shift) && unchanged(shift.spacers)
      ensures force || old(selectedSectionId) != sectionId ==>
        selectedSectionId == sectionId && sections == Activated(old(sections), sectionId)
        && shift.shifted == map[] && shift.activeBlock.None? && !shift.dragging
        && shift.spacers.Valid() && shift.spacers.top == 0.0 && shift.spacers.bottom == 0.0
    {
      if !force && selectedSectionId == sectionId {
        return;
      }
      selectedSectionId := sectionId;
      sections := ToggleSections(sections, sectionId);
      shift.ResetContextShiftBlocks();
    }
  }

  /** The elements of `xs` not in `ys`, in order: `[...xs].filter((id) => !ys.has(id))`. */
  function Without(xs: seq<string>, ys: seq<string>): (r: seq<string>)
    ensures |r| <= |xs|
    ensures forall x :: x in r <==> x in xs && x !in ys
    ensures NoDups(xs) ==> NoDups(r)
    decreases |xs|
  {
    if xs == [] then []
    else
      var rest := Without(xs[..|xs| - 1], ys);
      var x := xs[|xs| - 1];
      assert forall i :: 0 <= i < |xs| - 1 ==> xs[..|xs| - 1][i] == xs[i];
      if x in ys then rest else rest + [x]
  }

  /** `edgeDataSet.update(ids.map((id) => ({ id, ...style })))`: every id takes the style. */
  function Mark(styles: map<string, bool>, ids: seq<string>, highlighted: bool): (m: map<string, bool>)
    ensures forall k :: k in m <==> k in styles || k in ids
    ensures forall k :: k in m ==> m[k] == if k in ids then highlighted else styles[k]
    decreases |ids|
  {
    if ids == [] then styles
    else
      var p := ids[..|ids| - 1];
      assert ids == p + [ids[|ids| - 1]];
      Mark(styles, p, highlighted)[ids[|ids| - 1] := highlighted]
  }

  /** The ids to reset and the ids to highlight never overlap. */
  lemma ResetAndHighlightDisjoint(current: seq<string>, next: seq<string>)
    ensures forall id :: id in Without(current, next) ==> id !in Without(Dedupe(next), current)
  {
  }

  /** Nothing is left of a list whose every element is filtered out. */
  lemma {:induction false} WithoutCovered(xs: seq<string>, ys: seq<string>)
    requires forall i :: 0 <= i < |xs| ==> xs[i] in ys
    ensures Without(xs, ys) == []
    decreases |xs|
  {
    if xs != [] {
      var p := xs[..|xs| - 1];
      assert forall i :: 0 <= i < |p| ==> p[i] == xs[i];
      WithoutCovered(p, ys);
    }
  }

  /** Asking again for what is highlighted asks for no update. */
  lemma RepeatUpdatesNothing(next: seq<string>)
    ensures Without(Dedupe(next), Dedupe(next)) == []
    ensures Without(Dedupe(next), next) == []
  {
    WithoutCovered(Dedupe(next), Dedupe(next));
    WithoutCovered(Dedupe(next), next);
  }

  /** Exactly the edges of `highlighted` (kept without repeats) are drawn highlighted. */
  predicate Consistent(highlighted: seq<string>, styles: map<string, bool>)
  {
    NoDups(highlighted)
    && (forall id :: id in highlighted ==> id in styles)
    && forall id :: id in styles ==> (styles[id] <==> id in highlighted)
  }

  /**
   * The two update batches of `setHighlightedEdges` (the ids to reset, the
   * ids to highlight), the wanted set it keeps and the styles it leaves.
   */
  function HighlightBatches(current: seq<string>, styles: map<string, bool>, nextEdgeIds: seq<string>)
    : (seq<string>, seq<string>, seq<string>, map<string, bool>)
  {
    var nextIds := Dedupe(nextEdgeIds);
    var reset := Without(current, nextIds);
    var lit := Without(nextIds, current);
    (reset, lit, nextIds, Mark(Mark(styles, reset, false), lit, true))
  }

  /**
   * `setHighlightedEdges` on a consistent drawing: the ids reset are the
   * highlighted ones no longer wanted, the ids highlighted are the wanted
   * ones not yet highlighted, the drawing is consistent again with the
   * wanted set, and every wanted id is drawn highlighted.
   */
  lemma HighlightUpdate(highlighted: seq<string>, styles: map<string, bool>, nextEdgeIds: seq<string>)
    requires Consistent(highlighted, styles)
    ensures var (reset, lit, nextIds, marked) := HighlightBatches(highlighted, styles, nextEdgeIds);
      reset == Without(highlighted, nextEdgeIds)
      && (forall id :: id in lit <==> id in nextEdgeIds && id !in highlighted)
      && nextIds == Dedupe(nextEdgeIds)
      && Consistent(nextIds, marked)
      && forall id :: id in nextEdgeIds ==> id in marked && marked[id]
  {
    var nextIds := Dedupe(nextEdgeIds);
    WithoutSameMembers(highlighted, nextIds, nextEdgeIds);
    UpdateKeepsConsistent(highlighted, styles, nextIds);
  }

  /** The two update batches of `setHighlightedEdges` take a consistent drawing to the new wanted set. */
  lemma UpdateKeepsConsistent(highlighted: seq<string>, styles: map<string, bool>, nextIds: seq<string>)
    requires Consistent(highlighted, styles) && NoDups(nextIds)
    ensures Consistent(nextIds, Mark(Mark(styles, Without(highlighted, nextIds), false), Without(nextIds, highlighted), true))
  {
    var reset := Without(highlighted, nextIds);
    var lit := Without(nextIds, highlighted);
    var m1 := Mark(styles, reset, false);
    var m2 := Mark(m1, lit, true);
    forall id | id in nextIds ensures id in m2 {
      if id !in highlighted {
        assert id in lit;
      }
    }
    forall id | id in m2 ensures m2[id] <==> id in nextIds {
      if id !in lit {
        assert m2[id] == m1[id];
        if id in reset {
          assert !m1[id];
        } else {
          assert id in styles && m1[id] == styles[id];
        }
      }
    }
  }

  /** The sections and the edge highlighting of listening-notes-7q4m/article-page.js. */
  class ListeningNotesView {
    var selectedSectionId: string
    var sections: seq<Section>
    /** `edgeDataSet` exists: the map has been drawn. */
    const hasDataSet: bool
    /** `highlightedEdgeIds`, in insertion order. */
    var highlighted: seq<string>
    /** The style of each edge in `edgeDataSet`: highlighted or base. */
    var styles: map<string, bool>

    /** Exactly the edges of `highlighted` are drawn highlighted. */
    predicate Valid()
      reads this
    {
      Consistent(highlighted, styles)
    }

    /** The page once its map is drawn (or not): no section selected, every edge in the base style. */
    constructor(sections: seq<Section>, hasDataSet: bool, edgeIds: set<string>)
      ensures Valid() && this.sections == sections && selectedSectionId == []
      ensures this.hasDataSet == hasDataSet && highlighted == []
      ensures styles == map id | id in edgeIds :: false
    {
      this.sections := sections;
      selectedSectionId := [];
      this.hasDataSet := hasDataSet;
      highlighted := [];
      styles := map id | id in edgeIds :: false;
    }

    /**
     * `setHighlightedEdges(nextEdgeIds)`: nothing without a data set;
     * otherwise the edges no longer wanted go back to the base style, the
     * newly wanted ones are highlighted, and the wanted set is kept.
     * Returns the two update batches.
     */
    method SetHighlightedEdges(nextEdgeIds: seq<string>) returns (idsToReset: seq<string>, idsToHighlight: seq<string>)
      requires Valid()
      modifies this
      ensures Valid() && selectedSectionId == old(selectedSectionId) && sections == old(sections)
      ensures !hasDataSet ==>
        idsToReset == [] && idsToHighlight == [] && highlighted == old(highlighted) && styles == old(styles)
      ensures hasDataSet ==>
        (idsToReset, idsToHighlight, highlighted, styles) == HighlightBatches(old(highlighted), old(styles), nextEdgeIds)
    {
      if !hasDataSet {
        return [], [];
      }
      HighlightUpdate(highlighted, styles, nextEdgeIds);
      var b := HighlightBatches(highlighted, styles, nextEdgeIds);
      idsToReset, idsToHighlight := b.0, b.1;
      highlighted, styles := b.2, b.3;
    }

    /**
     * `selectSection(sectionId, force)`: an unforced reselect does nothing;
     * otherwise the highlighting is dropped, the section is selected and
     * every section shown or hidden to match.
     */
    method SelectSection(sectionId: string, force: bool)
      requires Valid()
      modifies this
      ensures Valid()
      ensures !force && old(selectedSectionId) == sectionId ==>
        selectedSectionId == old(selectedSectionId) && sections == old(sections)
        && highlighted == old(highlighted) && styles == old(styles)
      ensures force || old(selectedSectionId) != sectionId ==>
        selectedSectionId == sectionId && sections == Activated(old(sections), sectionId)
        && (hasDataSet ==> highlighted == [] && forall id :: id in styles ==> !styles[id])
      ensures (force || old(selectedSectionId) != sectionId) && !hasDataSet ==>
        highlighted == old(highlighted) && styles == old(styles)
      ensures (force || old(selectedSectionId) != sectionId) && hasDataSet ==>
        styles == map id | id in old(styles) :: false
    {
      if !force && selectedSectionId == sectionId {
        return;
      }
      selectedSectionId := sectionId;
      var _, _ := SetHighlightedEdges([]);
      sections := ToggleSections(sections, sectionId);
    }
  }

  /** Filtering by two lists with the same members gives the same result. */
  lemma {:induction false} WithoutSameMembers(xs: seq<string>, ys: seq<string>, zs: seq<string>)
    requires forall x :: x in ys <==> x in zs
    ensures Without(xs, ys) == Without(xs, zs)
    decreases |xs|
  {
    if xs != [] {
      WithoutSameMembers(xs[..|xs| - 1], ys, zs);
    }
  }
}
