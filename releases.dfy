/**
 * The release list of js/releases.js and of its copy in script.js:
 * `applyReleaseTint`, `createReleaseCard`, `renderReleases` and the parts of
 * `loadReleases` that order the records and derive the year range.
 *
 * A card is modelled as the values the DOM elements it builds would show;
 * a container as the sequence of blocks it holds.
 */
module Releases {
  import opened Options
  import opened JsNumbers
  import opened JsStrings
  import opened MathUtils
  import opened ReleaseText
  import opened Collections

  /** One entry of `links`: its `label` (here `text`) and `url` are `None` when they are not strings. */
  datatype Link = Link(text: Option<string>, url: Option<string>)

  /**
   * A record of the releases document. A field that is not a string is
   * `None`; `links` is `None` when it is not an array, and an entry of it is
   * `None` when it is falsy.
   */
  datatype ReleaseItem = ReleaseItem(
    event: Option<string>,
    work: Option<string>,
    workHtml: Option<string>,
    role: Option<string>,
    place: Option<string>,
    notes: Option<string>,
    dateLabel: Option<string>,
    date: Option<string>,
    workItalic: bool,
    links: Option<seq<Option<Link>>>)

  /**
   * Which copy builds the cards: js/releases.js joins the detail line with
   * " | " and widens a card without links; script.js uses " • " and never widens.
   */
  datatype CardFlavour = ModuleCards | PageCards

  function DetailSeparator(flavour: CardFlavour): string
  {
    if flavour == ModuleCards then " | " else " \U{2022} "
  }

  // ---------------------------------------------------------------- tint

  /** The `{ min, max }` of the years of all records. */
  datatype YearRange = YearRange(min: int, max: int)

  /** The two custom properties `applyReleaseTint` writes. */
  datatype Tint = Tint(dark: real, light: real)

  /** Where `year` lies in the range, with the span at least one year. */
  function TintPosition(year: int, range: YearRange): (t: real)
    ensures 0.0 <= t <= 1.0
    ensures year <= range.min ==> t == 0.0
    ensures range.min < range.max <= year ==> t == 1.0
    ensures range.min == range.max < year ==> t == 1.0
  {
    var span := Max(1.0, (range.max - range.min) as real);
    var a := (year - range.min) as real;
    if year <= range.min then
      DivideMonotone(a, 0.0, span);
      Clamp01(a / span)
    else if range.min < range.max then
      DivideMonotone(if year >= range.max then span else 0.0, a, span);
      assert span / span == 1.0;
      Clamp01(a / span)
    else
      assert span == 1.0 && a / span == a;
      Clamp01(a / span)
  }

  /**
   * `applyReleaseTint`: nothing without a year or a range; otherwise newer
   * records get more of the light tint and less of the dark one.
   */
  function ReleaseTint(year: Option<nat>, range: Option<YearRange>): (r: Option<Tint>)
    ensures r.Some? <==> year.Some? && range.Some?
    ensures r.Some? ==> 0.0 <= r.value.dark <= 0.08 && 0.0 <= r.value.light <= 0.12
    ensures r.Some? ==> 1.5 * r.value.dark + r.value.light == 0.12
    ensures r.Some? && year.value <= range.value.min ==> r.value == Tint(0.08, 0.0)
  {
    if year.None? || range.None? then None
    else
      var t := TintPosition(year.value, range.value);
      Some(Tint(0.08 * (1.0 - t), 0.12 * t))
  }

  /** A later year is never tinted darker than an earlier one. */
  lemma TintMonotone(y1: nat, y2: nat, range: YearRange)
    requires y1 <= y2
    ensures ReleaseTint(Some(y1), Some(range)).value.dark >= ReleaseTint(Some(y2), Some(range)).value.dark
    ensures ReleaseTint(Some(y1), Some(range)).value.light <= ReleaseTint(Some(y2), Some(range)).value.light
  {
    var span := Max(1.0, (range.max - range.min) as real);
    var a := (y1 - range.min) as real;
    var b := (y2 - range.min) as real;
    DivideMonotone(a, b, span);
    assert a / span <= b / span;
  }

  lemma DivideMonotone(a: real, b: real, d: real)
    requires a <= b && d > 0.0
    ensures a / d <= b / d
  {
    assert b / d - a / d == (b - a) / d;
  }

  // ---------------------------------------------------------------- card

  /** The heading: markup when `innerHTML` is set, plain text otherwise. */
  datatype Title = HtmlTitle(html: string) | TextTitle(text: string)

  /** The heading chosen from the cleaned fields. */
  function CardTitle(workHtml: string, workText: string, event: string, italic: bool): (t: Title)
    ensures t.HtmlTitle? ==> (workHtml != [] && t.html == workHtml) || (workHtml == [] && workText != [] && italic)
    ensures workHtml == [] && workText == [] && event == [] ==> t == TextTitle("Release")
    ensures workHtml != [] ==> t == HtmlTitle(workHtml)
    ensures workHtml == [] && workText != [] && !italic ==> t == TextTitle(workText)
    ensures workHtml == [] && workText == [] && event != [] ==> t == TextTitle(event)
  {
    if workHtml != [] || workText != [] then
      if workHtml != [] then HtmlTitle(workHtml)
      else if italic then HtmlTitle("<em>" + EscapeHtml(workText) + "</em>")
      else TextTitle(workText)
    else if event != [] then TextTitle(event)
    else TextTitle("Release")
  }

  /**
   * An italic work title is the work text escaped inside `<em>`: its inner
   * markup holds no markup character and reads back to the work text.
   */
  lemma ItalicTitleSafe(workText: string, event: string)
    requires workText != []
    ensures var t := CardTitle([], workText, event, true);
      t.HtmlTitle? && |t.html| >= 9 && t.html[..4] == "<em>" && t.html[|t.html| - 5..] == "</em>"
      && (forall i :: 4 <= i < |t.html| - 5 ==> !IsMarkupChar(t.html[i]))
      && UnescapeHtml(t.html[4..|t.html| - 5]) == workText
  {
    var e := EscapeHtml(workText);
    var h := "<em>" + e + "</em>";
    assert h[4..|h| - 5] == e;
    EscapedHasNoMarkup(workText);
    forall i | 4 <= i < |h| - 5 ensures !IsMarkupChar(h[i]) {
      assert h[i] == e[i - 4];
    }
    UnescapeEscape(workText);
  }

  /** `detailParts`: the non-empty ones of date label, role and place, in that order. */
  function DetailParts(dateLabel: string, role: string, place: string): (r: seq<string>)
    ensures forall i :: 0 <= i < |r| ==> r[i] != [] && r[i] in [dateLabel, role, place]
    ensures |r| == (if dateLabel != [] then 1 else 0) + (if role != [] then 1 else 0) + (if place != [] then 1 else 0)
    ensures dateLabel != [] ==> r[0] == dateLabel
    ensures place != [] ==> r[|r| - 1] == place
    ensures role != [] ==> r[if dateLabel != [] then 1 else 0] == role
  {
    (if dateLabel != [] then [dateLabel] else [])
    + (if role != [] then [role] else [])
    + (if place != [] then [place] else [])
  }

  /** A link as a card shows it; `external` when it opens in a new tab. */
  datatype LinkView = LinkView(text: string, url: string, external: bool)

  function LowerAscii(c: char): char
  {
    if 'A' <= c <= 'Z' then (c as int + 32) as char else c
  }

  predicate StartsWithIgnoringCase(s: string, p: string)
  {
    |p| <= |s| && forall i :: 0 <= i < |p| ==> LowerAscii(s[i]) == LowerAscii(p[i])
  }

  /** `/^https?:\/\//i`. */
  predicate IsWebUrl(url: string)
  {
    StartsWithIgnoringCase(url, "http://") || StartsWithIgnoringCase(url, "https://")
  }

  /** One entry as `validLinks` reads it: kept only when label and url are strings that are not blank. */
  function LinkViewOf(l: Option<Link>): (r: Option<LinkView>)
    ensures r.Some? <==> (l.Some? && l.value.text.Some? && l.value.url.Some?
      && Trim(l.value.text.value) != [] && Trim(l.value.url.value) != [])
    ensures r.Some? ==> r.value.text == Trim(l.value.text.value) && r.value.url == Trim(l.value.url.value)
  {
    if l.Some? && l.value.text.Some? && l.value.url.Some? then
      var text := Trim(l.value.text.value);
      var url := Trim(l.value.url.value);
      if text != [] && url != [] then Some(LinkView(text, url, IsWebUrl(url))) else None
    else None
  }

  /** A link as a card shows it: label and url trimmed and not blank, external exactly for web urls. */
  predicate LinkShown(v: LinkView)
  {
    v.text != [] && v.url != [] && IsTrimmed(v.text) && IsTrimmed(v.url) && v.external == IsWebUrl(v.url)
  }

  /** A link that is kept is shown trimmed, not blank, and external exactly for web urls. */
  lemma LinkViewShown(l: Option<Link>)
    ensures LinkViewOf(l).Some? ==> LinkShown(LinkViewOf(l).value)
  {
  }

  /** The values of the present entries, in order (`.filter(Boolean)` after a `.map`). */
  function Kept<T>(xs: seq<Option<T>>): (r: seq<T>)
    ensures |r| <= |xs|
    decreases |xs|
  {
    if xs == [] then []
    else (if xs[0].Some? then [xs[0].value] else []) + Kept(xs[1..])
  }

  /** Keeping is order-preserving: the kept values of a concatenation are concatenated. */
  lemma {:induction false} KeptConcat<T>(a: seq<Option<T>>, b: seq<Option<T>>)
    ensures Kept(a + b) == Kept(a) + Kept(b)
    decreases |a|
  {
    if a == [] {
      assert a + b == b;
    } else {
      assert (a + b)[0] == a[0];
      assert (a + b)[1..] == a[1..] + b;
      KeptConcat(a[1..], b);
    }
  }

  /** Every kept value comes from a present entry. */
  lemma {:induction false} KeptFrom<T>(xs: seq<Option<T>>, i: nat)
    requires i < |Kept(xs)|
    ensures exists j :: 0 <= j < |xs| && xs[j] == Some(Kept(xs)[i])
    decreases |xs|
  {
    var head := if xs[0].Some? then [xs[0].value] else [];
    if i < |head| {
      assert xs[0] == Some(Kept(xs)[i]);
    } else {
      KeptFrom(xs[1..], i - |head|);
      var j :| 0 <= j < |xs[1..]| && xs[1..][j] == Some(Kept(xs[1..])[i - |head|]);
      assert xs[j + 1] == Some(Kept(xs)[i]);
    }
  }

  /** Each entry read as `validLinks` reads it. */
  function Views(links: seq<Option<Link>>): (r: seq<Option<LinkView>>)
    ensures |r| == |links|
    ensures forall i :: 0 <= i < |links| ==> r[i] == LinkViewOf(links[i])
  {
    seq(|links|, i requires 0 <= i < |links| => LinkViewOf(links[i]))
  }

  /**
   * `validLinks`: the entries whose label and url are strings, trimmed, and
   * kept only when both are non-empty.
   */
  function ValidLinks(links: seq<Option<Link>>): (r: seq<LinkView>)
    ensures |r| <= |links|
  {
    Kept(Views(links))
  }

  /** Every link kept is shown trimmed, not blank, and external exactly for web urls. */
  lemma ValidLinksShown(links: seq<Option<Link>>)
    ensures forall i :: 0 <= i < |ValidLinks(links)| ==> LinkShown(ValidLinks(links)[i])
  {
    forall i | 0 <= i < |ValidLinks(links)| ensures LinkShown(ValidLinks(links)[i]) {
      KeptFrom(Views(links), i);
      var j :| 0 <= j < |links| && Views(links)[j] == Some(ValidLinks(links)[i]);
      LinkViewShown(links[j]);
    }
  }

  /** Filtering keeps the order of the entries: the links of a concatenation are concatenated. */
  lemma ValidLinksConcat(a: seq<Option<Link>>, b: seq<Option<Link>>)
    ensures ValidLinks(a + b) == ValidLinks(a) + ValidLinks(b)
  {
    var va, vb, vab := Views(a), Views(b), Views(a + b);
    forall i | 0 <= i < |a + b| ensures vab[i] == (va + vb)[i] {
      if i < |a| {
        assert (a + b)[i] == a[i];
      } else {
        assert (a + b)[i] == b[i - |a|];
      }
    }
    assert vab == va + vb;
    KeptConcat(Views(a), Views(b));
  }

  /** A single entry is kept exactly when it reads as a link. */
  lemma ValidLinksSingle(l: Option<Link>)
    ensures ValidLinks([l]) == if LinkViewOf(l).Some? then [LinkViewOf(l).value] else []
  {
    assert Views([l]) == [LinkViewOf(l)];
    assert Views([l])[1..] == [];
  }

  /** The options `renderReleases` passes on to each card; absent flags read as true. */
  datatype RenderOptions = RenderOptions(
    limit: Option<JsNumber>,
    showLinks: bool,
    showNotes: bool,
    yearRange: Option<YearRange>)

  /** What one card displays. */
  datatype CardView = CardView(
    tint: Option<Tint>,
    title: Title,
    eventLine: Option<string>,
    detailLine: Option<string>,
    notesLine: Option<string>,
    primaryLink: Option<LinkView>,
    secondaryLinks: seq<LinkView>,
    fullWidth: bool)

  function ItemYear(item: ReleaseItem): Option<nat>
  {
    GetReleaseYear(item.date, item.dateLabel)
  }

  /** The cleaned date label, falling back to the formatted ISO date. */
  function ItemDateLabel(item: ReleaseItem): string
  {
    var caption := CleanText(item.dateLabel);
    if caption != [] then caption else FormatDateFromIso(item.date)
  }

  function ItemLinks(item: ReleaseItem, opts: RenderOptions): seq<LinkView>
  {
    if opts.showLinks && item.links.Some? && item.links.value != [] then ValidLinks(item.links.value) else []
  }

  /** `createReleaseCard`. */
  function CreateReleaseCard(item: ReleaseItem, opts: RenderOptions, flavour: CardFlavour): (c: CardView)
    ensures c.tint == ReleaseTint(ItemYear(item), opts.yearRange)
    ensures c.eventLine.Some? <==> CleanText(item.event) != [] && (CleanText(item.work) != [] || CleanText(item.workHtml) != [])
    ensures c.eventLine.Some? ==> c.eventLine.value == CleanText(item.event)
    ensures c.detailLine.Some? <==> DetailParts(ItemDateLabel(item), CleanText(item.role), CleanText(item.place)) != []
    ensures c.detailLine.Some? ==>
      c.detailLine.value == Join(DetailParts(ItemDateLabel(item), CleanText(item.role), CleanText(item.place)), DetailSeparator(flavour))
    ensures c.notesLine.Some? <==> CleanText(item.notes) != [] && opts.showNotes
    ensures c.notesLine.Some? ==> c.notesLine.value == CleanText(item.notes)
  {
    var event := CleanText(item.event);
    var workText := CleanText(item.work);
    var workHtml := CleanText(item.workHtml);
    var notes := CleanText(item.notes);
    var parts := DetailParts(ItemDateLabel(item), CleanText(item.role), CleanText(item.place));
    var links := ItemLinks(item, opts);
    CardView(
      ReleaseTint(ItemYear(item), opts.yearRange),
      CardTitle(workHtml, workText, event, item.workItalic),
      if event != [] && (workHtml != [] || workText != []) then Some(event) else None,
      if parts != [] then Some(Join(parts, DetailSeparator(flavour))) else None,
      if notes != [] && opts.showNotes then Some(notes) else None,
      if links != [] then Some(links[0]) else None,
      if links != [] then links[1..] else [],
      flavour == ModuleCards && links == [])
  }

  /**
   * The links of a card: the first valid link is the primary one and the
   * rest follow it, none when links are switched off; a module card spans
   * the full width exactly when it has no primary link.
   */
  lemma CardLinks(item: ReleaseItem, opts: RenderOptions, flavour: CardFlavour)
    ensures var c := CreateReleaseCard(item, opts, flavour);
      (!opts.showLinks ==> c.primaryLink.None? && c.secondaryLinks == [])
      && (c.secondaryLinks != [] ==> c.primaryLink.Some?)
      && (c.primaryLink.Some? ==> [c.primaryLink.value] + c.secondaryLinks == ItemLinks(item, opts))
      && (c.primaryLink.None? ==> ItemLinks(item, opts) == [])
      && (flavour == ModuleCards ==> (c.fullWidth <==> c.primaryLink.None?))
      && (flavour == PageCards ==> !c.fullWidth)
  {
    var links := ItemLinks(item, opts);
    assert links != [] ==> [links[0]] + links[1..] == links;
  }

  /** With every detail present the line reads date, role, place with the separator between them. */
  lemma DetailLineOrder(dateLabel: string, role: string, place: string, sep: string)
    requires dateLabel != [] && role != [] && place != []
    ensures Join(DetailParts(dateLabel, role, place), sep) == dateLabel + sep + role + sep + place
  {
    var parts := DetailParts(dateLabel, role, place);
    assert parts == [dateLabel, role, place];
    assert parts[1..][1..] == [place];
    assert Join(parts[1..], sep) == role + sep + place;
    assert dateLabel + sep + (role + sep + place) == dateLabel + sep + role + sep + place;
  }

  /** A lone detail is the whole line. */
  lemma DetailLineSingle(dateLabel: string, role: string, place: string, sep: string)
    requires |DetailParts(dateLabel, role, place)| == 1
    ensures Join(DetailParts(dateLabel, role, place), sep) in [dateLabel, role, place]
  {
  }

  // -------------------------------------------------------------- render

  /** A child of a release container. */
  datatype Block = Card(card: CardView) | EmptyNotice

  /** `count >= limit` as JavaScript compares a count with a number. */
  predicate ReachedLimit(count: nat, limit: JsNumber)
  {
    match limit
    case Finite(l) => count as real >= l
    case NaN => false
    case Infinity(positive) => !positive
  }

  /** The limit `renderReleases` compares with: the option when it is a number, else the item count. */
  function EffectiveLimit(n: nat, limit: Option<JsNumber>): JsNumber
  {
    if limit.Some? then limit.value else Finite(n as real)
  }

  /** How many cards are appended: the first count that reaches the limit, at most `n`. */
  function ShownCount(n: nat, limit: JsNumber): (k: nat)
    ensures k <= n
    ensures k < n ==> ReachedLimit(k, limit)
    ensures forall j :: 0 <= j < k ==> !ReachedLimit(j, limit)
  {
    match limit
    case Finite(l) =>
      if l <= 0.0 then 0
      else
        var c := Ceil(l);
        if c < n then c else n
    case NaN => n
    case Infinity(positive) => if positive then n else 0
  }

  /** A whole-number limit is never exceeded, and a limit at least `n` shows everything. */
  lemma ShownCountBounds(n: nat, l: int)
    ensures ShownCount(n, Finite(l as real)) <= if l < 0 then 0 else l
    ensures l >= n ==> ShownCount(n, Finite(l as real)) == n
    ensures ShownCount(n, NaN) == n
    ensures ShownCount(n, Infinity(false)) == 0
    ensures ShownCount(n, Infinity(true)) == n
  {
  }

  /** The card of every item. */
  function CardsOf(items: seq<ReleaseItem>, opts: RenderOptions, flavour: CardFlavour): (r: seq<CardView>)
    ensures |r| == |items|
    ensures forall i :: 0 <= i < |items| ==> r[i] == CreateReleaseCard(items[i], opts, flavour)
  {
    seq(|items|, i requires 0 <= i < |items| => CreateReleaseCard(items[i], opts, flavour))
  }

  function Blocks(views: seq<CardView>): (r: seq<Block>)
    ensures |r| == |views|
    ensures forall i :: 0 <= i < |views| ==> r[i] == Card(views[i])
  {
    seq(|views|, i requires 0 <= i < |views| => Card(views[i]))
  }

  lemma BlocksSnoc(views: seq<CardView>, v: CardView)
    ensures Blocks(views + [v]) == Blocks(views) + [Card(v)]
  {
  }

  /** The loop of `renderReleases` stops at the shown count: the first count that reaches the limit, or `n`. */
  lemma ShownCountIs(n: nat, limit: JsNumber, count: nat)
    requires count <= n && (count == n || ReachedLimit(count, limit))
    requires forall j :: 0 <= j < count ==> !ReachedLimit(j, limit)
    ensures count == ShownCount(n, limit)
  {
  }

  /** What a container holds after `renderReleases`: the cards, or the one notice when there are none. */
  function Rendered(items: seq<ReleaseItem>, opts: RenderOptions, flavour: CardFlavour): (r: seq<Block>)
    ensures r != []
  {
    var k := ShownCount(|items|, EffectiveLimit(|items|, opts.limit));
    if k == 0 then [EmptyNotice] else Blocks(CardsOf(items, opts, flavour)[..k])
  }

  /**
   * The notice appears exactly when no card does, and then alone; the cards
   * are those of the first items, in order.
   */
  lemma RenderedShape(items: seq<ReleaseItem>, opts: RenderOptions, flavour: CardFlavour)
    ensures var r := Rendered(items, opts, flavour);
      (EmptyNotice in r <==> forall i :: 0 <= i < |r| ==> !r[i].Card?)
      && (EmptyNotice in r ==> r == [EmptyNotice])
      && (forall i :: 0 <= i < |r| && r[i].Card? ==> i < |items| && r[i].card == CreateReleaseCard(items[i], opts, flavour))
      && (ShownCount(|items|, EffectiveLimit(|items|, opts.limit)) == 0 <==> r == [EmptyNotice])
  {
    var r := Rendered(items, opts, flavour);
    var k := ShownCount(|items|, EffectiveLimit(|items|, opts.limit));
    if k > 0 {
      assert r[0].Card?;
      assert EmptyNotice !in r by {
        forall i | 0 <= i < |r| ensures r[i] != EmptyNotice { }
      }
    }
  }

  /** A release container's children. */
  class ReleaseList {
    var blocks: seq<Block>

    constructor()
      ensures blocks == []
    {
      blocks := [];
    }

    /** `renderReleases`: replaces the children with the cards of the first items, or the notice. */
    method RenderReleases(items: seq<ReleaseItem>, opts: RenderOptions, flavour: CardFlavour)
      modifies this
      ensures blocks == Rendered(items, opts, flavour)
    {
      var limit := EffectiveLimit(|items|, opts.limit);
      var cards := AppendCards(items, opts, flavour, limit);
      blocks := cards;
      if |cards| == 0 {
        blocks := blocks + [EmptyNotice];
      }
    }
  }

  /**
   * The counting loop of `renderReleases`: a card for each item in turn
   * until the count reaches the limit.
   */
  method AppendCards(items: seq<ReleaseItem>, opts: RenderOptions, flavour: CardFlavour, limit: JsNumber)
    returns (out: seq<Block>)
    ensures out == Blocks(CardsOf(items, opts, flavour)[..ShownCount(|items|, limit)])
  {
    ghost var views := CardsOf(items, opts, flavour);
    out := [];
    var count: nat := 0;
    var i := 0;
    while i < |items|
      invariant 0 <= i <= |items| && count == i
      invariant forall j :: 0 <= j < count ==> !ReachedLimit(j, limit)
      invariant out == Blocks(views[..count])
    {
      if ReachedLimit(count, limit) {
        break;
      }
      var card := CreateReleaseCard(items[i], opts, flavour);
      assert card == views[count];
      TakeSnoc(views, count);
      BlocksSnoc(views[..count], card);
      out := out + [Card(card)];
      count := count + 1;
      i := i + 1;
    }
    ShownCountIs(|items|, limit, count);
  }

  // ---------------------------------------------------------------- sort

  /**
   * `{ ...item, _index: index }`, with the `toDateValue(date)` the comparator
   * computes for it kept alongside (it depends on the record alone).
   */
  datatype Indexed = Indexed(item: ReleaseItem, index: nat, key: int)

  function WithIndex(items: seq<ReleaseItem>): (r: seq<Indexed>)
    ensures |r| == |items|
    ensures forall i :: 0 <= i < |r| ==> r[i] == Indexed(items[i], i, ToDateValue(items[i].date))
  {
    seq(|items|, i requires 0 <= i < |items| => Indexed(items[i], i, ToDateValue(items[i].date)))
  }

  function DateKey(x: Indexed): int { x.key }

  /** The comparator of the sort: a negative result puts `a` first. */
  function Compare(a: Indexed, b: Indexed): int
  {
    var diff := DateKey(b) - DateKey(a);
    if diff != 0 then diff else a.index - b.index
  }

  predicate Before(a: Indexed, b: Indexed) { Compare(a, b) < 0 }

  /** The comparator orders by date value, newest first, then by original position. */
  lemma CompareMeaning(a: Indexed, b: Indexed)
    ensures Before(a, b) <==> DateKey(a) > DateKey(b) || (DateKey(a) == DateKey(b) && a.index < b.index)
    ensures Compare(a, b) == -Compare(b, a)
    ensures a.index != b.index ==> Before(a, b) || Before(b, a)
  {
  }

  predicate Sorted(s: seq<Indexed>)
  {
    forall i, j :: 0 <= i < j < |s| ==> Before(s[i], s[j])
  }

  predicate DistinctIndices(s: seq<Indexed>)
  {
    forall i, j :: 0 <= i < j < |s| ==> s[i].index != s[j].index
  }

  function Insert(x: Indexed, s: seq<Indexed>): (r: seq<Indexed>)
    ensures multiset(r) == multiset(s) + multiset{x}
    ensures |r| == |s| + 1
  {
    if s == [] then [x]
    else if Before(s[0], x) then
      assert s == [s[0]] + s[1..];
      [s[0]] + Insert(x, s[1..])
    else [x] + s
  }

  /** The order `indexed.sort` leaves the records in. */
  function SortReleases(s: seq<Indexed>): (r: seq<Indexed>)
    ensures multiset(r) == multiset(s)
    ensures |r| == |s|
  {
    if s == [] then []
    else
      assert s == [s[0]] + s[1..];
      Insert(s[0], SortReleases(s[1..]))
  }

  lemma {:induction false} InsertSorted(x: Indexed, s: seq<Indexed>)
    requires Sorted(s)
    requires forall i :: 0 <= i < |s| ==> s[i].index != x.index
    ensures Sorted(Insert(x, s))
    decreases |s|
  {
    if s != [] && Before(s[0], x) {
      InsertSorted(x, s[1..]);
      var r := Insert(x, s);
      var t := Insert(x, s[1..]);
      assert r == [s[0]] + t;
      forall k | 0 <= k < |t| ensures Before(s[0], t[k]) {
        assert t[k] in multiset(t);
        assert t[k] in multiset(s[1..]) + multiset{x};
        if t[k] != x {
          assert t[k] in s[1..];
        }
      }
    } else if s != [] {
      CompareMeaning(s[0], x);
      var r := Insert(x, s);
      assert r == [x] + s;
      forall k | 0 <= k < |s| ensures Before(x, s[k]) {
        if k > 0 {
          assert Before(s[0], s[k]);
        }
      }
    }
  }

  lemma {:induction false} SortedResult(s: seq<Indexed>)
    requires DistinctIndices(s)
    ensures Sorted(SortReleases(s))
    decreases |s|
  {
    if s != [] {
      assert DistinctIndices(s[1..]) by {
        forall i, j | 0 <= i < j < |s[1..]| ensures s[1..][i].index != s[1..][j].index {
          assert s[1..][i] == s[i + 1] && s[1..][j] == s[j + 1];
        }
      }
      SortedResult(s[1..]);
      var t := SortReleases(s[1..]);
      forall i | 0 <= i < |t| ensures t[i].index != s[0].index {
        assert t[i] in multiset(s[1..]);
        var j :| 0 <= j < |s[1..]| && s[1..][j] == t[i];
        assert s[j + 1] == t[i];
      }
      InsertSorted(s[0], t);
    }
  }

  /**
   * Any order of the same records that the comparator accepts is this one:
   * the result does not depend on the sorting algorithm the engine uses.
   */
  lemma {:induction false} SortedUnique(a: seq<Indexed>, b: seq<Indexed>)
    requires Sorted(a) && Sorted(b) && multiset(a) == multiset(b)
    ensures a == b
    decreases |a|
  {
    assert |b| == |a| by { assert |multiset(b)| == |multiset(a)|; }
    if a != [] {
      SortedSameHead(a, b);
      SortedTail(a);
      SortedTail(b);
      SortedUnique(a[1..], b[1..]);
      assert a == [a[0]] + a[1..] && b == [b[0]] + b[1..];
    }
  }

  /** Dropping the first record keeps the rest sorted. */
  lemma SortedTail(a: seq<Indexed>)
    requires a != [] && Sorted(a)
    ensures Sorted(a[1..])
    ensures multiset(a[1..]) == multiset(a) - multiset{a[0]}
  {
    assert a == [a[0]] + a[1..];
    forall i, j | 0 <= i < j < |a[1..]| ensures Before(a[1..][i], a[1..][j]) {
      assert a[1..][i] == a[i + 1] && a[1..][j] == a[j + 1];
    }
  }

  /** Two sorted orders of the same records start with the same record. */
  lemma SortedSameHead(a: seq<Indexed>, b: seq<Indexed>)
    requires a != [] && |b| == |a|
    requires Sorted(a) && Sorted(b) && multiset(a) == multiset(b)
    ensures a[0] == b[0]
  {
    assert a[0] in multiset(b);
    assert b[0] in multiset(a);
    var i :| 0 <= i < |a| && a[i] == b[0];
    var j :| 0 <= j < |b| && b[j] == a[0];
    CompareMeaning(a[0], b[0]);
    if i != 0 && j != 0 {
      assert false;
    }
  }

  /**
   * The records sorted: a permutation of the input, newest date value first,
   * and records with equal date values in their original order.
   */
  lemma SortByDate(items: seq<ReleaseItem>)
    ensures var r := SortReleases(WithIndex(items));
      multiset(r) == multiset(WithIndex(items))
      && (forall i, j :: 0 <= i < j < |r| ==> DateKey(r[i]) >= DateKey(r[j]))
      && (forall i, j :: 0 <= i < j < |r| && DateKey(r[i]) == DateKey(r[j]) ==> r[i].index < r[j].index)
      && (forall i :: 0 <= i < |r| ==> r[i].index < |items| && r[i].item == items[r[i].index])
  {
    var w := WithIndex(items);
    SortedResult(w);
    var r := SortReleases(w);
    forall i | 0 <= i < |r| ensures r[i].index < |items| && r[i].item == items[r[i].index] {
      assert r[i] in multiset(w);
      var j :| 0 <= j < |w| && w[j] == r[i];
    }
  }

  // ---------------------------------------------------------- year range

  /** `{ min: Math.min(...yearValues), max: Math.max(...yearValues) }`, or `null` without any year. */
  function YearRangeOf(years: seq<Option<nat>>): (r: Option<YearRange>)
    ensures r.None? <==> forall i :: 0 <= i < |years| ==> years[i].None?
    ensures r.Some? ==> r.value.min <= r.value.max
    ensures r.Some? ==> forall i :: 0 <= i < |years| && years[i].Some? ==>
      r.value.min <= years[i].value <= r.value.max
    ensures r.Some? ==> exists i :: 0 <= i < |years| && years[i].Some? && years[i].value == r.value.min
    ensures r.Some? ==> exists i :: 0 <= i < |years| && years[i].Some? && years[i].value == r.value.max
    decreases |years|
  {
    if years == [] then None
    else
      var rest := YearRangeOf(years[1..]);
      assert forall i :: 1 <= i < |years| ==> years[i] == years[1..][i - 1];
      if years[0].None? then
        assert rest.Some? ==> years[1..][0..] == years[1..];
        rest
      else
        var y := years[0].value;
        if rest.None? then Some(YearRange(y, y))
        else
          var lo := if y < rest.value.min then y else rest.value.min;
          var hi := if y > rest.value.max then y else rest.value.max;
          Some(YearRange(lo, hi))
  }

  function YearsOf(s: seq<Indexed>): (r: seq<Option<nat>>)
    ensures |r| == |s| && forall i :: 0 <= i < |s| ==> r[i] == ItemYear(s[i].item)
  {
    seq(|s|, i requires 0 <= i < |s| => ItemYear(s[i].item))
  }

  // ------------------------------------------------------------ loading

  /** What the fetched document turned out to be. */
  datatype Payload = Records(items: seq<ReleaseItem>) | NotAList | Unreadable

  /** The two calls `loadReleases` makes: the latest three without links or notes, and all of them. */
  function LatestOptions(range: Option<YearRange>): RenderOptions
  {
    RenderOptions(Some(Finite(3.0)), false, false, range)
  }

  function AllOptions(range: Option<YearRange>): RenderOptions
  {
    RenderOptions(None, true, true, range)
  }

  /** Options of the error path: `{ limit: 0 }`. */
  const FailureOptions: RenderOptions := RenderOptions(Some(Finite(0.0)), true, true, None)

  function SortedRecords(items: seq<ReleaseItem>): seq<ReleaseItem>
  {
    var sorted := SortReleases(WithIndex(items));
    seq(|sorted|, i requires 0 <= i < |sorted| => sorted[i].item)
  }

  function RangeOfRecords(items: seq<ReleaseItem>): Option<YearRange>
  {
    YearRangeOf(YearsOf(SortReleases(WithIndex(items))))
  }

  /**
   * `loadReleases` once the document is in: a list is sorted and shown in
   * both containers; anything that is not a list leaves them as they were;
   * a failed fetch or parse shows the notice in each.
   */
  method LoadReleases(payload: Payload, latest: ReleaseList?, all: ReleaseList?, flavour: CardFlavour)
    requires latest != null && all != null ==> latest != all
    modifies latest, all
    ensures payload.NotAList? ==> (latest != null ==> latest.blocks == old(latest.blocks)) && (all != null ==> all.blocks == old(all.blocks))
    ensures payload.Unreadable? ==> (latest != null ==> latest.blocks == [EmptyNotice]) && (all != null ==> all.blocks == [EmptyNotice])
    ensures payload.Records? && latest != null ==>
      latest.blocks == Rendered(SortedRecords(payload.items), LatestOptions(RangeOfRecords(payload.items)), flavour)
    ensures payload.Records? && all != null ==>
      all.blocks == Rendered(SortedRecords(payload.items), AllOptions(RangeOfRecords(payload.items)), flavour)
  {
    match payload
    case NotAList =>
    case Unreadable =>
      if latest != null {
        latest.RenderReleases([], FailureOptions, flavour);
      }
      if all != null {
        all.RenderReleases([], FailureOptions, flavour);
      }
    case Records(items) =>
      var sorted := SortedRecords(items);
      var range := RangeOfRecords(items);
      if latest != null {
        latest.RenderReleases(sorted, LatestOptions(range), flavour);
      }
      if all != null {
        all.RenderReleases(sorted, AllOptions(range), flavour);
      }
  }

  /** The latest-releases container shows at most three cards, the first ones of the full list, without links or notes. */
  lemma LatestIsPrefixOfAll(items: seq<ReleaseItem>, range: Option<YearRange>, flavour: CardFlavour)
    ensures var latest := Rendered(items, LatestOptions(range), flavour);
      var full := Rendered(items, AllOptions(range), flavour);
      (|items| == 0 ==> latest == full == [EmptyNotice])
      && (|items| > 0 ==> |latest| == if |items| < 3 then |items| else 3)
      && (|items| > 0 ==> forall i :: 0 <= i < |latest| ==>
        (latest[i].Card? && full[i].Card? && latest[i].card.title == full[i].card.title
         && latest[i].card.notesLine.None? && latest[i].card.primaryLink.None?))
  {
    var n := |items|;
    if n > 0 {
      var k := ShownCount(n, Finite(3.0));
      assert k == if n < 3 then n else 3 by {
        assert Ceil(3.0) == 3;
      }
      assert ShownCount(n, Finite(n as real)) == n;
    }
  }
}
