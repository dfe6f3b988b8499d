# pjotrgerman.github.io — a verified model of the page logic

This project models in Dafny the logic underneath the scripts of a personal
website. The site's scripts do these things:

- They render the release list.
- They run a background pointer-trail game with pair anchors, locked
  connections and a secret shape challenge.
- They run a drawing mini game.
- They drive two article pages, each with a mind map.
- They use small audio and maths helpers.

The project proves properties of that model. Canvas drawing, the DOM,
vis.js, Web Audio and `fetch` are not modelled. What they receive and what
they return is modelled as plain values.

The modules follow the scripts:

| module | script | what it holds |
|---|---|---|
| `Options`, `JsNumbers`, `JsStrings`, `Collections` | (shared) | `null`/`undefined`; numbers with their non-finite values; `trim`, `split`, `\s`, `padStart`, `String(n)`, `Number(s)`; bounded buffers and de-duplication |
| `MathUtils` | js/math-utils.js | `clamp01`, `lerp`, `rgba` |
| `AudioPluck` | js/audio-pluck.js | `sizeToUnit`, the pluck voice parameters, the envelope loop, the sine clamp |
| `ReleaseText` | js/releases.js, script.js | `cleanText`, `escapeHtml`, `getReleaseYear`, `formatDateFromIso`, `toDateValue` with the `Date.UTC` day count |
| `Releases` | js/releases.js, script.js | `applyReleaseTint`, `createReleaseCard`, `renderReleases`, the sort and year range of `loadReleases` |
| `TrailBuffer` | js/background-fx.js, script.js | the fading pointer trail: `pushPoint` and the life step of `render` |
| `WordShuffle` | js/background-fx.js, script.js | `resetWordShuffle`, `pickWord` in shuffle mode, the end of `loadWordPool` |
| `ScriptPage` | script.js | the older page's `pushPoint`, which sizes the dot and picks the word itself |
| `BackgroundFx` | js/background-fx.js | the pair-anchor game as a class `BackgroundGame` |
| `MiniGame` | js/mini-game.js | the drawing game as a class `Game` |
| `GraphIndex` | both article-page.js | `buildMapEdges`: edge ids, the pair-key index and the incident lists |
| `PathSpec` | both article-page.js | `resolveNodeIdsForPath`, `resolveEdgeIdsForMarker` |
| `GraphPaths` | articles/article-page.js | `buildNodeAdjacency`, `findNodePathBfs`, the repeat-dropping step of `buildThreadAutoMetaById`, `findNextThreadIndex` |
| `WaveImpulses` | articles/article-page.js | `triggerEdgeWave`, `triggerNodeImpulse`, `getPointerImpulseStrength`, `edgeLengthToHz` |
| `ContextShift` | articles/article-page.js | the two anchor spacers, the reset of the shifted blocks, the shift limits and the snap of `applyContextShift` |
| `Importance` | both article-page.js | importance levels and the importance style |
| `RgbTriplet` | both article-page.js | `parseRgbTriplet` |
| `PreviewText` | articles/article-page.js | `trimPreviewText` |
| `ArticleView` | both article-page.js | `selectSection`; `setHighlightedEdges` of the listening-notes page |

Some code is copied between files, and each copy is modelled once:

- script.js repeats the release helpers of js/releases.js with the same
  logic. It also repeats the trail and the word picker of
  js/background-fx.js, with other settings.
- Its release cards differ in two ways: the detail separator is `" • "`,
  and there is no full-width class. `Releases.CardFlavour` tells the two
  kinds apart.
- The two article pages share the two path resolvers, the importance
  helpers, `parseRgbTriplet` and `selectSection`.
- The listening-notes page keeps only the pair index of `buildMapEdges`.
  It has no incident lists.

How state is modelled:

- Where a script changes state in place, the model is a class whose
  methods change its fields. These are the game objects, the trail, the
  word picker, the spacer pair, the wave states, the edge maps, the
  section list and the rendered release container.
- Each method's `ensures` gives the new state in terms of the old one,
  through functions about which the lemmas prove the properties.
- The loops of the scripts are `while` loops with invariants. These are
  the BFS queue loop, the repeat-dropping loop, the adjacency loop, the
  render count loop, the polyline sum, the envelope fill and the replay
  `while` of `playConnections`.

One behaviour of the code is kept as the code has it. `getReleaseYear` reads
`Number(date.slice(0, 4))`, and `Number("")` is 0. So an empty `date` string
gives the year 0 instead of falling back to `dateLabel`.
`ReleaseText.ReleaseYearFromLabel` states this case.

## Model

| member | source | states |
|---|---|---|
| JsNumbers.Min | js/releases.js:62 | `Math.min`: a lower bound of both arguments, and one of them |
| JsNumbers.Max | js/releases.js:61 | `Math.max`: an upper bound of both arguments, and one of them |
| JsNumbers.Clamp | articles/article-page.js:1889-1891 | `clampNumber`: inside `[lo, hi]` when `lo <= hi`; the value itself when already inside; `lo` below; `hi` above |
| JsNumbers.Round | articles/article-page.js:1893-1902 | `Math.round`: the integer within half a unit, halves rounding up |
| JsNumbers.Ceil | js/background-fx.js:137-150 | `Math.ceil`: the least integer not below `x` |
| JsNumbers.DistSq | js/background-fx.js:124-128 | the squared distance under `Math.hypot`, shared by the trail game and the mini game, is non-negative |
| JsNumbers.Floor | js/background-fx.js:197-226 | `Math.floor`: the greatest integer not above `x` |
| JsNumbers.RoundMonotone | articles/article-page.js:1893-1902 | `Math.round` never decreases |
| JsNumbers.ClampMonotone | articles/article-page.js:1889-1891 | clamping never reverses order |
| JsStrings.TrimStart | js/releases.js:14 | removes exactly the leading white space: the result is a suffix, does not start with white space, and everything cut is white space |
| JsStrings.TrimEnd | js/releases.js:14 | removes exactly the trailing white space, symmetrically |
| JsStrings.Trim | js/releases.js:14 | `trim`: the result is trimmed, trimmed text is unchanged, and the result is empty exactly when the text is all white space |
| JsStrings.TrimKeeps | js/releases.js:14 | trimming keeps every non-space character and adds none |
| JsStrings.TrimIdempotent | js/releases.js:14 | trimming twice is trimming once |
| JsStrings.Split | js/releases.js:73 | `split`: at least one piece, and no piece holds a separator |
| JsStrings.Join | js/releases.js:165 | `pieces.join(sep)`; `SplitJoin` proves it inverts `Split` on one character |
| JsStrings.SplitJoin | js/releases.js:73 | joining the pieces of a split on one character gives the text back |
| JsStrings.SplitNoSeparator | js/releases.js:73 | text without a separator splits into itself |
| JsStrings.SplitAfterPrefix | js/releases.js:73 | a separator-free prefix becomes the first piece |
| JsStrings.TrimmedTokens | articles/article-page.js:1406-1430 | `.map(trim).filter(Boolean)`: every token is non-empty and trimmed |
| JsStrings.TrimmedTokensMember | articles/article-page.js:1406-1430 | a token is kept exactly when it is the non-empty trim of some piece |
| JsStrings.TrimmedTokensAvoid | articles/article-page.js:1406-1430 | a character absent from the pieces is absent from the tokens |
| JsStrings.DigitChar | js/releases.js:88 | the digit character of a value below ten reads back as that value |
| JsStrings.NatToString | js/releases.js:88 | `String(n)`: non-empty decimal digits whose value is `n`, with no leading zero unless `n == 0` |
| JsStrings.NumberFromString | js/releases.js:99-101 | `Number(s)` on text: 0 for blank text, the value of plain digits, NaN otherwise; `NumberFromOtherText` and `NumberFromNatString` state both directions |
| JsStrings.NumberFromOtherText | js/releases.js:78-80 | `Number(s)` is 0 for blank text and NaN for text holding a non-digit |
| JsStrings.NumberFromNatString | js/releases.js:78-80 | `Number(String(n)) == n` |
| JsStrings.PadStart | js/releases.js:88 | `padStart`: the text right-aligned in the width, filled on the left |
| JsStrings.CollapseSpaces | articles/article-page.js:2333 | `replace(/\s+/g, " ")`: single-spaced, no longer than the input, empty exactly when the input is, and spaces kept at both ends |
| JsStrings.CollapseSpacesKeeps | articles/article-page.js:2333 | collapsing keeps every character that is not white space, in order (`NonSpace` of the result is that of the input) |
| JsStrings.CollapseSingleSpaced | articles/article-page.js:2333 | text that is already single-spaced comes back unchanged |
| JsStrings.NonSpaceTrim | articles/article-page.js:2333 | `trim` removes white space only: the non-space text is unchanged |
| JsStrings.ConsSingleSpaced | articles/article-page.js:2332-2341 | adding a non-space, or a single space before a non-space, keeps text single-spaced |
| Collections.KeepNewest | js/background-fx.js:486-489 | `splice(0, length - max)`: at most `max` entries remain; they are the newest, in order; nothing is dropped when within the bound |
| Collections.Dedupe | articles/article-page.js:1406-1430 | removing repeats in first-seen order: no duplicates, and the same members as the input |
| Collections.DedupeSnoc | articles/article-page.js:1406-1430 | adding an entry keeps it only when it has not been seen |
| Collections.DedupeOfDistinct | articles/article-page.js:1406-1430 | a list without duplicates is unchanged |
| MathUtils.Clamp01 | js/math-utils.js:10-12 | `clamp01`: in `[0, 1]`, the identity on `[0, 1]`, 0 below and 1 above |
| MathUtils.Lerp | js/math-utils.js:21-23 | `lerp(start, end, t)`; `LerpBetween` gives its ends and bounds, `LerpMonotone` its monotonicity in `t` |
| MathUtils.LerpBetween | js/math-utils.js:21-23 | `lerp(a, b, 0) = a`, `lerp(a, b, 1) = b`, and for `t` in `[0, 1]` the value lies between `a` and `b` |
| MathUtils.LerpMonotone | js/math-utils.js:21-23 | `lerp` is monotone in `t`: increasing when `a <= b`, decreasing when `b <= a` |
| MathUtils.Rgba | js/math-utils.js:31-34 | `rgba` keeps the colour and writes an alpha in `[0, 1]`, equal to the given alpha when that is in range |
| AudioPluck.SizeToUnit | js/audio-pluck.js:50-56 | `sizeToUnit`: in `[0, 1]`, and 0 for a non-finite size |
| AudioPluck.SizeToUnitShape | js/audio-pluck.js:50-56 | monotone in the size; 0 at or below the minimum; 1 at or above the maximum when the span is at least 0.001 |
| AudioPluck.PluckVoiceFor | js/audio-pluck.js:128-134 | release samples in `[420, 4072]`, gain in `[0.006, 0.024]`, frequency in `[170, 500]` |
| AudioPluck.PluckVoiceMonotone | js/audio-pluck.js:128-134 | a larger dot gets a longer release and a louder gain, and a pitch that is not higher |
| AudioPluck.Envelope | js/audio-pluck.js:145-147 | the envelope value lies in `[0, 1]` |
| AudioPluck.EnvelopeShape | js/audio-pluck.js:145-147 | 0 at the first sample and 1 at the end of the attack; rising during the attack, falling after it, and 0 once the release is over |
| AudioPluck.FillPluckChannel | js/audio-pluck.js:140-149 | the fill loop writes `body[i] * env(i)` to every sample, so no sample is louder than its body |
| AudioPluck.SineFrequency | js/audio-pluck.js:171-174 | `playSineTone` clamp: in `[160, 880]`, the identity inside, 440 for non-finite input |
| ReleaseText.CleanText | js/releases.js:10-19 | `cleanText`: "" for a missing value, for blanks and for `"---"`; otherwise the trimmed text; the result is always trimmed |
| ReleaseText.CleanTextIdempotent | script.js:28-37 | cleaning cleaned text changes nothing |
| ReleaseText.ReplaceConcat | js/releases.js:21-28 | one `replace(/c/g, …)` pass distributes over concatenation |
| ReleaseText.ReplaceAbsent | js/releases.js:21-28 | a pass for an absent character changes nothing |
| ReleaseText.EscapeHtml | js/releases.js:21-28 | the five chained replaces, `&` first; `EscapedHasNoMarkup` proves no markup character survives and `UnescapeEscape` that decoding gives the input back |
| ReleaseText.EscapeHtmlConcat | js/releases.js:21-28 | `escapeHtml` distributes over concatenation |
| ReleaseText.EscapeHtmlOneChar | js/releases.js:21-28 | the five passes in their order, `&` first, escape one character to its entity or leave it |
| ReleaseText.EscapeHtmlPerChar | js/releases.js:21-28 | `escapeHtml` is character-by-character escaping, so replacing `&` first never double-escapes |
| ReleaseText.EscapedHasNoMarkup | script.js:39-46 | the escaped text holds no `<`, `>`, `"` or `'` |
| ReleaseText.EscapeEachNoMarkup | script.js:39-46 | per-character escaping leaves no markup character |
| ReleaseText.UnescapeAfterEntity | js/releases.js:21-28 | each entity reads back as its character |
| ReleaseText.UnescapeEscape | js/releases.js:21-28 | round trip: reading the entities back gives the original text |
| ReleaseText.UnescapeEscapeEach | js/releases.js:21-28 | the same round trip for per-character escaping |
| ReleaseText.FourDigitValue | js/releases.js:35 | the value of four digits |
| ReleaseText.FirstYearIn | js/releases.js:41-46 | `match(/(19\|20)\d{2}/)`: a year in `[1900, 2099]`, and none exactly when no position starts such a year |
| ReleaseText.GetReleaseYear | js/releases.js:30-50 | `getReleaseYear`: the `date` prefix, else the first 19xx/20xx year of `dateLabel`, else null; `ReleaseYearOfIsoDate` and `ReleaseYearFromLabel` state each case |
| ReleaseText.ReleaseYearOfIsoDate | js/releases.js:34-39 | with four leading digits in `date`, the year is their value whatever `dateLabel` says |
| ReleaseText.ReleaseYearFromLabel | js/releases.js:30-50 | a missing or non-numeric date prefix falls back to the first `19xx`/`20xx` in `dateLabel`, otherwise `null`; an empty date reads as year 0 |
| ReleaseText.SplitThree | js/releases.js:73 | `"y-m-d"` without other dashes splits into its three parts |
| ReleaseText.DigitsNumber | js/releases.js:78-79 | `Number` of a digit string is its value |
| ReleaseText.FormatDateFromIso | js/releases.js:69-89 | `formatDateFromIso`; `FormatIsoDate` gives the well-formed case and `FormatNonDate` every rejected one |
| ReleaseText.FormatIsoDate | js/releases.js:69-89 | `"Y-M-D"` with month 1..12 and a non-zero day becomes `"DD Mon Y"` with the day padded to two digits |
| ReleaseText.FormatNonDate | script.js:87-108 | a wrong part count, month 13 or day 0 returns the input unchanged; a missing value gives "" |
| ReleaseText.DaysBeforeNextYear | js/releases.js:105 | day count for `Date.UTC`: a year adds the days of that year |
| ReleaseText.LeapStep | js/releases.js:105 | the leap-day count grows by one exactly over a leap year |
| ReleaseText.IsoDateParts | js/releases.js:95-104 | a parsed date has year, month and day all at least 1 |
| ReleaseText.CivilOfParts | js/releases.js:99-104 | the same for three parts already split |
| ReleaseText.ToDateValue | js/releases.js:91-106 | `toDateValue`; `DateValueOfIso` gives the value of a digit date and `DateValueFallback` the 0 for every rejected input |
| ReleaseText.DateValueOfIso | js/releases.js:91-106 | `"y-m-d"` of positive digit parts is read as those three numbers |
| ReleaseText.DateValueFallback | script.js:110-125 | `toDateValue` is 0 for a missing value, a wrong part count, a part that reads as 0 or NaN, or any unparsed date |
| ReleaseText.DayWithinYear | js/releases.js:105 | a valid date's day number lies within its year |
| ReleaseText.YearsInOrder | js/releases.js:105 | an earlier year ends before a later year starts |
| ReleaseText.MonthsInOrder | js/releases.js:105 | an earlier month ends before a later month starts |
| ReleaseText.DateUtc | js/releases.js:105 | `Date.UTC(year, month - 1, day)` as the civil day count times a day in ms; `DateUtcOrder` proves it strictly increasing |
| ReleaseText.DateUtcOrder | js/releases.js:105 | `Date.UTC` is strictly increasing in `(year, month, day)` over valid dates from year 100 |
| ReleaseText.UtcDaysOfDate | js/releases.js:105 | for a valid date, `Date.UTC`'s day count is the civil day number |
| ReleaseText.EpochDayOrder | js/releases.js:105 | the civil day number is strictly increasing in `(year, month, day)` |
| Releases.TintPosition | js/releases.js:56-62 | `t` is in `[0, 1]`: 0 at or before `min`, 1 at or after `max` |
| Releases.ReleaseTint | js/releases.js:52-67 | a tint exactly when the year and range are present; dark alpha in `[0, 0.08]` and light in `[0, 0.12]`, trading off linearly; the earliest year is fully dark |
| Releases.TintMonotone | js/releases.js:61-64 | a later year is lighter and less dark |
| Releases.CardTitle | js/releases.js:129-142 | title precedence: `workHtml`, then `workText` (italic when flagged), then `event`, then `"Release"` |
| Releases.ItalicTitleSafe | js/releases.js:133-134 | the italic title is `<em>` around escaped text that holds no markup and reads back as the work text |
| Releases.DetailParts | js/releases.js:152-161 | only the non-empty parts, date then role then place |
| Releases.DetailLineOrder | js/releases.js:162-166 | with all three present, the line is date, role and place joined by the separator |
| Releases.DetailLineSingle | js/releases.js:162-166 | a single part is shown alone |
| Releases.IsWebUrl | js/releases.js:191 | `/^https?:\/\//i`, the test for opening a link in a new tab; `LinkViewShown` proves every shown link carries exactly this flag |
| Releases.LinkViewOf | js/releases.js:180-183 | a link is kept exactly when both fields are strings that are non-empty once trimmed; it is shown trimmed |
| Releases.LinkViewShown | js/releases.js:180-183 | a kept link has a non-empty label and URL |
| Releases.Kept | js/releases.js:180-183 | the present entries in order; `KeptConcat` and `KeptFrom` state it |
| Releases.KeptConcat | js/releases.js:180-183 | filtering distributes over concatenation |
| Releases.KeptFrom | js/releases.js:180-183 | every kept entry comes from the input |
| Releases.Views | js/releases.js:181-182 | the map step is applied to every link |
| Releases.ValidLinks | js/releases.js:180-183 | `validLinks` is no longer than `item.links` |
| Releases.ValidLinksShown | js/releases.js:180-183 | every valid link has a non-empty label and URL |
| Releases.ValidLinksConcat | js/releases.js:180-183 | valid links of two lists are the valid links of each, in order |
| Releases.ValidLinksSingle | js/releases.js:180-183 | a single link is valid exactly when its view exists |
| Releases.CreateReleaseCard | js/releases.js:108-222 | the tint; an event line exactly when there are an event and a work; a detail line exactly when a part is present; notes exactly when present and allowed |
| Releases.CardLinks | js/releases.js:178-218 | the first valid link is the side column and the rest are secondary, in order; no column means no valid links; module cards are full width exactly without a column |
| Releases.ReachedLimit | js/releases.js:233 | `count >= limit` with NaN and the infinities as JavaScript compares them; `ShownCountBounds` states the count it gives |
| Releases.EffectiveLimit | js/releases.js:229 | the option's limit when it is a number, otherwise the item count; `RenderedShape` ties the notice to a zero count under this limit |
| Releases.ShownCount | js/releases.js:229-238 | the render count: at most the number of items, and it stops at the first count that reaches the limit |
| Releases.ShownCountBounds | js/releases.js:229-238 | an integer limit caps the count (0 when negative); a limit of at least `n` shows all; `NaN` and `Infinity` show all; `-Infinity` shows none, because `count >= limit` is tested before each card |
| Releases.CardsOf | js/releases.js:236 | one card per item, made by `createReleaseCard` |
| Releases.Blocks | js/releases.js:236 | each card becomes one container block |
| Releases.BlocksSnoc | js/releases.js:236 | appending a card appends one block |
| Releases.ShownCountIs | js/releases.js:231-238 | a count that stopped at the limit or at the end is the render count |
| Releases.Rendered | js/releases.js:224-246 | the container is never left empty |
| Releases.RenderedShape | script.js:242-263 | either the single "No releases yet." notice, exactly when no card was shown, or the first cards in item order |
| Releases.ReleaseList.constructor | js/releases.js:228 | an empty container |
| Releases.ReleaseList.RenderReleases | js/releases.js:224-246 | the container holds exactly the rendered blocks |
| Releases.AppendCards | js/releases.js:231-238 | the loop appends the cards of the first `ShownCount` items |
| Releases.WithIndex | js/releases.js:311 | every record gets its input position and date value |
| Releases.Compare | js/releases.js:312-315 | the sort's comparator; `CompareMeaning` proves later dates first, ties by position, antisymmetric and total |
| Releases.CompareMeaning | js/releases.js:312-315 | the comparator puts a later date first and breaks ties by input position; it is antisymmetric and total on distinct positions |
| Releases.Insert | js/releases.js:312-315 | insertion keeps every element (a permutation plus one) |
| Releases.SortReleases | js/releases.js:312-315 | the sort is a permutation |
| Releases.InsertSorted | js/releases.js:312-315 | inserting into a sorted list keeps it sorted |
| Releases.SortedResult | js/releases.js:312-315 | the sort's result is sorted |
| Releases.SortedUnique | js/releases.js:312-315 | two sorted permutations of the same records are equal, so the order is fully determined |
| Releases.SortedTail | js/releases.js:312-315 | the tail of a sorted list is sorted and holds the rest |
| Releases.SortedSameHead | js/releases.js:312-315 | two sorted permutations start with the same record |
| Releases.SortByDate | script.js:335-342 | the result is date-descending, keeps input order among equal dates, and each entry is the input record at its position |
| Releases.YearRangeOf | js/releases.js:317-322 | no range exactly when no year is finite; otherwise `min` and `max` bound every year and are attained |
| Releases.YearsOf | js/releases.js:317-319 | the year of every sorted record, in order |
| Releases.LoadReleases | js/releases.js:296-346 | a non-list leaves both containers alone; an unreadable payload shows the notice in both; records are sorted and rendered with the latest and the all options |
| Releases.LatestIsPrefixOfAll | js/releases.js:324-338 | the latest list shows `min(3, n)` cards; they are the first cards of the full list, without notes or links |
| TrailBuffer.AgedPoint | js/background-fx.js:736-757 | a faded dot (`p.life / p.maxLife <= 0`, the `continue` test) is skipped and keeps its life; any other dot loses exactly one unit, and nothing else about it changes |
| TrailBuffer.Aged | js/background-fx.js:736-757 | every dot of the trail takes its own life step, in place |
| TrailBuffer.DropDead | js/background-fx.js:805-807 | dead dots are removed from the front only, up to the first live one |
| TrailBuffer.AgedLivesOk | js/background-fx.js:736-757 | a frame keeps every life between 0 and its positive maximum: a living dot loses one unit and a dead dot stays at 0 |
| TrailBuffer.SuffixLivesOk | js/background-fx.js:805-807 | a suffix of a well-formed trail is well-formed |
| TrailBuffer.Trail.constructor | js/background-fx.js:24-962 | an empty trail with the page's settings |
| TrailBuffer.Trail.NewPoint | js/background-fx.js:477-484 | a new dot starts at full life: the accent life for accents, the base life otherwise |
| TrailBuffer.Trail.Clear | js/background-fx.js:341-351 | the trail becomes empty |
| TrailBuffer.Trail.PushPoint | js/background-fx.js:476-490 | the new dot is appended and the oldest beyond `maxPoints` are dropped |
| TrailBuffer.Trail.Age | js/background-fx.js:736-807 | the life step of `render`: every dot that is not faded loses one unit, then the dead ones at the front are dropped; lives stay within `[0, maxLife]` |
| TrailBuffer.AgeKeepsNewest | script.js:729-756 | the dots that survive are the newest ones, led by a living dot, each after its own life step |
| WordShuffle.ShuffleCutoff | js/background-fx.js:143-144 | `max(1, ceil(0.7 n))`: between 1 and `n`, at least `0.7 n` and less than `0.7 n + 1` |
| WordShuffle.Iota | js/background-fx.js:143 | the index list `0..n-1`, without duplicates |
| WordShuffle.RandomIndex | js/background-fx.js:210-218 | `Math.floor(Math.random() * len)` is a valid index |
| WordShuffle.RemoveFirst | js/background-fx.js:220-223 | removes the first occurrence only: one shorter when present, unchanged otherwise, with nothing else lost |
| WordShuffle.RemoveFirstNoDups | js/background-fx.js:220-223 | removal from a duplicate-free list leaves it duplicate-free, with the index gone |
| WordShuffle.CutNoDups | js/background-fx.js:210-216 | `splice(pos, 1)` keeps every other index and only those |
| WordShuffle.WordPicker.constructor | js/background-fx.js:24-962 | an empty pool |
| WordShuffle.WordPicker.ResetWordShuffle | js/background-fx.js:137-150 | a non-empty pool gets all indices back and a fresh cutoff; an empty pool clears the word spot |
| WordShuffle.WordPicker.LoadPool | js/background-fx.js:158-184 | the loaded words become the pool and the shuffle restarts |
| WordShuffle.WordPicker.PickWord | js/background-fx.js:197-226 | an empty pool gives `null`; the first `cutoff` picks of a cycle take distinct indices out of the remaining list; later picks draw from the whole pool |
| WordShuffle.CycleCoversSeventyPercent | script.js:463-476 | a cycle draws at least 70 % of the pool without replacement: 7 of 10, 1 of 1 |
| ScriptPage.DotSize | script.js:661-686 | plain dots have the base size; accent dots grow with the mask strength up to the extra size |
| ScriptPage.DotSizeMonotone | script.js:661-686 | a stronger sample never gives a smaller accent dot |
| ScriptPage.TrailPage.constructor | script.js:661-686 | an empty trail with the words inactive |
| ScriptPage.TrailPage.AccentWord | script.js:661-686 | a word is picked only for an accent while words are active, from the pool; the word spot moves only when a word is shown |
| ScriptPage.TrailPage.PushPoint | script.js:661-686 | the trail gets the new dot with its size and word, and keeps at most 120 dots |
| ScriptPage.TrailPage.Age | script.js:705-758 | the life step of this page's `render` |
| BackgroundFx.MeasurePolyline | js/background-fx.js:506-512 | the loop sums the segment lengths |
| BackgroundFx.PolylineNonNegative | js/background-fx.js:506-512 | the trace length is non-negative |
| BackgroundFx.IntervalFromTraceLength | js/background-fx.js:514-519 | the replay interval lies in `[600, 60000]` ms, since the beat lies in `[1, 100]` bpm |
| BackgroundFx.BeatBounds | js/background-fx.js:517-518 | `60000 / bpm` for a beat in `[1, 100]` |
| BackgroundFx.IntervalMonotone | js/background-fx.js:514-519 | a longer trace replays more slowly |
| BackgroundFx.TraceLengthToSineHz | js/background-fx.js:334-339 | the tone is in `[220, 880]` Hz: 220 for short traces, 880 for long ones |
| BackgroundFx.SineHzMonotone | js/background-fx.js:334-339 | a longer trace gives a tone that is not lower |
| BackgroundFx.TraceBase | js/background-fx.js:529-531 | the trace is the pending samples, or the armed anchor alone when there are none |
| BackgroundFx.ClosingTrace | js/background-fx.js:529-535 | the closing anchor is appended when it is more than 2 px from the last sample |
| BackgroundFx.ClosingTraceTooShort | js/background-fx.js:532-538 | no samples and an anchor within 2 px: a one-point trace, so no connection |
| BackgroundFx.ClosingTraceLong | js/background-fx.js:529-538 | two or more samples always make a connection, and the samples are kept as its start |
| BackgroundFx.NewConnection | js/background-fx.js:539-555 | the sound is sine exactly when both anchors are in the secret zone or the length matches; sine first plays one interval later and pluck at once |
| BackgroundFx.ClosedConnection | js/background-fx.js:529-555 | a connection exactly when the trace has at least two points; it joins the two anchors over that trace |
| BackgroundFx.StepShrinksOverdue | js/background-fx.js:683-696 | each replay brings the schedule closer to `ts`, so the `while` ends |
| BackgroundFx.Advanced | js/background-fx.js:683-696 | after the replays the next play is after `ts` |
| BackgroundFx.AdvancedSchedule | js/background-fx.js:683-696 | after `n` replays the next play is `n` intervals later and the anchor index has toggled `n` times; replays happen exactly when `ts` has reached the next play |
| BackgroundFx.AdvancedKeeps | js/background-fx.js:683-696 | replaying changes only the next play time and the anchor index |
| BackgroundFx.AdvancedTime | js/background-fx.js:696 | the next play time moves by one interval per replay |
| BackgroundFx.AdvancedTurn | js/background-fx.js:695 | the anchor index toggles once per replay |
| BackgroundFx.PluckAlternates | js/background-fx.js:684-692 | pluck replays alternate between the two anchors' sizes, starting from the current index |
| BackgroundFx.AllAdvanced | js/background-fx.js:681-697 | every connection is advanced on its own |
| BackgroundFx.BackgroundGame.constructor | js/background-fx.js:24-962 | the game starts unarmed, with no connections, an empty trail and every flag off |
| BackgroundFx.BackgroundGame.PushPoint | js/background-fx.js:476-490 | the trail gets the new dot and keeps at most 180 dots |
| BackgroundFx.BackgroundGame.SetWordsActive | js/background-fx.js:186-195 | sets the flag; a change forgets the last word position; nothing else changes |
| BackgroundFx.BackgroundGame.ClearAllGameVisuals | js/background-fx.js:341-351 | trail, connections, pending trace and armed anchor are cleared, with the accent state; the other flags are kept |
| BackgroundFx.BackgroundGame.CompleteSecretChallenge | js/background-fx.js:318-332 | runs once: the first call unlocks, stops the word session, clears the visuals and resets the last emit; a later call changes nothing |
| BackgroundFx.BackgroundGame.StartWordSession | js/background-fx.js:353-359 | a new session clears the game visuals; an active one is left alone |
| BackgroundFx.BackgroundGame.SetMiniModeActive | js/background-fx.js:255-279 | no change for the same mode; leaving turns words off and, outside a word session, restarts the pending trace at the armed anchor, keeping every other flag, the trail and the connections; entering without the button only sets the mode; entering with it held turns words on and, when no session runs yet, starts one, which clears trail, connections, pending trace and anchor |
| BackgroundFx.BackgroundGame.SetSecretZone | js/background-fx.js:900 | only the secret-zone flag changes |
| BackgroundFx.BackgroundGame.AppendPendingTracePoint | js/background-fx.js:492-504 | nothing unless armed in mini mode or the secret zone; then a point is added only 6 px or more from the last sample |
| BackgroundFx.BackgroundGame.LockConnection | js/background-fx.js:556-560 | the connection is appended and at most the 10 newest are kept; the flags, the pending pair and the last word position are unchanged |
| BackgroundFx.BackgroundGame.CountSecretShape | js/background-fx.js:566-572 | the counter grows by one; below 3 nothing else changes; reaching 3 completes the challenge, with the flags of `completeSecretChallenge` (`UnlockedFlags`), the trail, connections and pending pair cleared and no last word position |
| BackgroundFx.BackgroundGame.RegisterPairAnchor | js/background-fx.js:521-577 | unarmed: arms with a one-point trace; armed: always disarms and clears the trace, locking the connection (if any), playing its sine, and counting a secret, length-matched shape while locked; the flags, trail and last word position change only through that count, and as `completeSecretChallenge` changes them when the count unlocks |
| BackgroundFx.BackgroundGame.ClosePair | js/background-fx.js:529-576 | the closing half of `registerPairAnchor`: the same new state as `RegisterPairAnchor`'s armed case |
| BackgroundFx.BackgroundGame.LockAndCount | js/background-fx.js:556-572 | lock, play the sine tone if any, and count the shape only when it is secret, length-matched and not yet unlocked; without an unlock the trail, last word position and other flags are unchanged, with one the flags are those of `completeSecretChallenge` |
| BackgroundFx.BackgroundGame.PlayConnections | js/background-fx.js:676-698 | nothing when the game is stopped; otherwise every connection is advanced past `ts` and its due sounds are played |
| BackgroundFx.ReplayAll | js/background-fx.js:681-697 | the loop over the connections advances each one, and the result stays well-formed |
| BackgroundFx.ReplayDue | js/background-fx.js:683-696 | the `while` loop of one connection: the next play ends after `ts` |
| MiniGame.ClampDotSize | js/mini-game.js:232 | the dot size is clamped to `[2.8, 9.2]` |
| MiniGame.CreateSoundPattern | js/mini-game.js:204-217 | the interval is in `[200, 2000]` ms: 200 for no length, 2000 from 1000 px on |
| MiniGame.SoundPatternMonotone | js/mini-game.js:204-217 | a longer stroke never repeats faster |
| MiniGame.LocalPointerPosition | js/mini-game.js:219-224 | the point is clamped into the canvas, and inside it is the offset itself |
| MiniGame.CooledDown | js/mini-game.js:227-230 | the 20 ms cooldown test against the last accepted dot, `-Infinity` at first; `Game.EmitGameDot` accepts exactly when it holds |
| MiniGame.EndDistance | js/mini-game.js:360-364 | the distance between a stroke's ends; `LockedEndsFarApart` states the bound a locked stroke meets |
| MiniGame.MinConnectionDistance | js/mini-game.js:343-386 | the lock distance is at least 500 px and at least 0.46 of the width |
| MiniGame.TraceOf | js/mini-game.js:343-386 | the stroke's points in order |
| MiniGame.ConnectionOf | js/mini-game.js:343-386 | the locked connection joins the stroke's ends over its points |
| MiniGame.LockedEndsFarApart | js/mini-game.js:343-386 | a locked stroke's ends are at least `max(500, 0.46 width)` apart |
| MiniGame.Steps | js/mini-game.js:297-341 | the number of dots along a move is at least one and fits the 20 px spacing |
| MiniGame.StrokeSnocSized | js/mini-game.js:242 | adding a clamped point keeps the stroke's sizes in range |
| MiniGame.PushDot | js/mini-game.js:233-251 | the dot is appended, at most 280 are kept, and every size stays in range |
| MiniGame.Game.constructor | js/mini-game.js:21-499 | no dots, no stroke, not drawing, nothing locked |
| MiniGame.Game.AcceptDot | js/mini-game.js:230-251 | an accepted dot is appended to the dots and to the stroke, and the cooldown restarts |
| MiniGame.Game.EmitGameDot | js/mini-game.js:226-253 | within 20 ms of the last emit nothing changes and `false` is returned; otherwise one dot and one stroke point with a clamped size, and one pluck |
| MiniGame.Game.BeginDrawing | js/mini-game.js:255-295 | a left button in an active game starts a stroke: a new stroke id, the pointer captured, the emit point and move time set; a press on a dark line after the cooldown emits one middle-size dot, pushed to the bounded buffer and plucked, and otherwise dots and cooldown are untouched; a refused press changes nothing |
| MiniGame.Game.DrawPointerPath | js/mini-game.js:297-341 | another pointer, not drawing, or a move under 20 px changes nothing; otherwise the emit point moves and the stroke grows by at most one point |
| MiniGame.Game.EndDrawing | js/mini-game.js:343-386 | another pointer's release changes nothing; for the drawing pointer the stroke always ends, and it is locked with its sound pattern (restarting the sound clock) only when long enough, otherwise the old lock and clock are kept; dots, stroke id, emit point, move time and cooldown never change |
| GraphIndex.EdgeIdFor | articles/article-page.js:859-863 | a given id is kept; a missing or empty one becomes `edge-<index>-<from>-<to>` |
| GraphIndex.Normalize | articles/article-page.js:859-878 | every edge keeps its ends and gets its id |
| GraphIndex.AddIncidenceAt | articles/article-page.js:869-876 | one edge adds its id to the list of each of its ends (twice for a loop) |
| GraphIndex.PairKey | articles/article-page.js:867-868 | `` `${from}->${to}` ``, the key of the pair index |
| GraphIndex.PairIndex | articles/article-page.js:859-878 | the pair index after the edges in order; `PairIndexBothOrders` and `PairIndexValues` state its lookups and keys |
| GraphIndex.Incidence | articles/article-page.js:869-876 | the incident lists after the edges in order; `IncidenceIsIncidentIds` and `IncidentIdsMembers` state their contents |
| GraphIndex.PairIndexBothOrders | listening-notes-7q4m/article-page.js:251-269 | both orders of an edge's ends are keys; without a later edge on the same pair, both map to its id |
| GraphIndex.PairIndexValues | articles/article-page.js:867-868 | every key of the pair index is an order of some edge's ends and maps to that edge's id |
| GraphIndex.IncidenceIsIncidentIds | articles/article-page.js:869-876 | a node has a list exactly when an edge touches it, and the list is the ids of those edges in edge order |
| GraphIndex.NoTouchNoIds | articles/article-page.js:869-876 | a node no edge touches has no ids |
| GraphIndex.IncidentIdsMembers | articles/article-page.js:869-876 | an id is in a node's list exactly when its edge touches the node |
| GraphIndex.MindMap.constructor | articles/article-page.js:852-854 | both maps start empty |
| GraphIndex.MindMap.BuildMapEdges | articles/article-page.js:852-879 | a non-array gives no edges and empty maps; otherwise the normalised edges with the pair index and the incident lists built from them |
| GraphPaths.AddEdgeNeighbours | articles/article-page.js:1036-1043 | one edge makes each end a neighbour of the other and nothing more |
| GraphPaths.AddEdgeKeys | articles/article-page.js:1036-1041 | one edge adds its two ends as keys |
| GraphPaths.EdgeSteps | articles/article-page.js:1036-1043 | the four map steps of the loop body are one edge added |
| GraphPaths.AdjacencyOfKeys | articles/article-page.js:1030-1046 | the keys are exactly the ends of the edges |
| GraphPaths.AdjacencyOf | articles/article-page.js:1030-1046 | the adjacency after the edges in order; `AdjacencyOfMeaning`, `AdjacencySymmetric` and `AdjacencyOfKeys` state it |
| GraphPaths.AdjacencyOfMeaning | articles/article-page.js:1030-1046 | `b` is a neighbour of `a` exactly when some edge joins them, in either direction |
| GraphPaths.AdjacencySymmetric | articles/article-page.js:1030-1046 | the adjacency is undirected |
| GraphPaths.AdjacencyOfKeysClosed | articles/article-page.js:1030-1046 | every neighbour is itself a key |
| GraphPaths.BuildNodeAdjacency | articles/article-page.js:1030-1046 | the loop builds exactly the adjacency of the edges |
| GraphPaths.PathNeedsKeys | articles/article-page.js:1057-1059 | a path of two or more nodes starts and ends at keys |
| GraphPaths.ExitLevel | articles/article-page.js:1061-1082 | a path that leaves the visited set is longer than the frontier's distance |
| GraphPaths.PathStaysInside | articles/article-page.js:1061-1082 | a path cannot leave a visited set closed under neighbours |
| GraphPaths.VisitKeepsShortest | articles/article-page.js:1069-1080 | visiting a neighbour at distance one more keeps every recorded distance shortest |
| GraphPaths.PopStartsRound | articles/article-page.js:1066-1068 | taking the queue's head starts its round of neighbours |
| GraphPaths.SkipKeepsRound | articles/article-page.js:1070-1072 | skipping a visited neighbour keeps the round's invariant |
| GraphPaths.VisitKeepsRound | articles/article-page.js:1073-1080 | visiting a new neighbour keeps the search invariant and the round's invariant |
| GraphPaths.VisitKeepsCommon | articles/article-page.js:1073-1080 | the search invariant is kept by a visit |
| GraphPaths.VisitKeepsTree | articles/article-page.js:1073-1074 | `prevById` stays a tree of shortest predecessors |
| GraphPaths.VisitKeepsSorted | articles/article-page.js:1080 | the queue stays ordered by distance |
| GraphPaths.VisitKeepsInRound | articles/article-page.js:1073-1080 | the round's invariant is kept by a visit |
| GraphPaths.RoundEnds | articles/article-page.js:1069-1081 | when a node's neighbours are done the between-rounds invariant holds |
| GraphPaths.VisitNeighbours | articles/article-page.js:1068-1081 | the inner `for` loop keeps the search invariant and makes progress |
| GraphPaths.RebuildPath | articles/article-page.js:1088-1098 | walking `prevById` back from `to` gives a path of the shortest length |
| GraphPaths.Unreachable | articles/article-page.js:1084-1086 | an exhausted search without `to` means no path exists |
| GraphPaths.SearchFrom | articles/article-page.js:1061-1082 | the `while` loop ends with an empty queue and the search invariant |
| GraphPaths.FindNodePathBfs | articles/article-page.js:1048-1099 | `[]` for an empty id, `[from]` for equal ids, `[from, to]` for an id missing from the map or without a path; otherwise a shortest path from `from` to `to` |
| GraphPaths.DedupeConsecutive | articles/article-page.js:992-997 | no two neighbours are equal, and the first and last mentions are kept |
| GraphPaths.DedupeConsecutiveMembers | articles/article-page.js:992-997 | the same nodes as the input |
| GraphPaths.DedupeConsecutiveKeeps | articles/article-page.js:992-997 | a list without adjacent repeats is unchanged |
| GraphPaths.OrderedUniqueNodeIds | articles/article-page.js:992-997 | the loop drops exactly the consecutive repeats |
| GraphPaths.ScanFrom | articles/article-page.js:1197-1203 | the scan returns a valid index |
| GraphPaths.FindNextThreadIndex | articles/article-page.js:1192-1206 | -1 for no mentions, otherwise a valid index |
| GraphPaths.SameSectionExtends | articles/article-page.js:1197-1203 | a mention in the same section extends the run of skipped mentions |
| GraphPaths.ScanFromFinds | articles/article-page.js:1197-1205 | the scan finds the first later mention in another section, or falls back to the next index |
| GraphPaths.NextThreadIndexFirstOther | articles/article-page.js:1192-1206 | the result is the first cyclic successor in another section, or `(current + 1) % n` when there is none |
| GraphPaths.StepMoves | articles/article-page.js:1205 | a step of 1 to `n - 1` modulo `n` moves |
| GraphPaths.NextThreadIndexMoves | articles/article-page.js:1192-1206 | with two or more mentions the next index is never the current one |
| PathSpec.ReplaceArrow | articles/article-page.js:1406-1430 | `replace(/->/g, ">")` never lengthens the text |
| PathSpec.ReplaceArrowNoDash | articles/article-page.js:1406-1430 | text without a dash is unchanged |
| PathSpec.ReplaceArrowAfterDashFree | articles/article-page.js:1406-1430 | a dash-free prefix is kept as it is |
| PathSpec.Fragments | articles/article-page.js:1406-1430 | the fragments between runs of `;` and `,` are non-empty, trimmed and separator-free |
| PathSpec.Chain | articles/article-page.js:1382-1388 | a fragment's ids, split on `->` or `>`, are non-empty, trimmed and arrow-free |
| PathSpec.FlatMapMember | articles/article-page.js:1406-1430 | an id is collected exactly when some fragment names it |
| PathSpec.ResolveNodeIdsForPath | listening-notes-7q4m/article-page.js:333-357 | `[]` for an empty spec; no duplicates; every id non-empty, trimmed and arrow-free |
| PathSpec.FragmentsOfEmpty | articles/article-page.js:1406-1430 | an empty spec has no fragments |
| PathSpec.NodeIdsOfFragments | articles/article-page.js:1406-1430 | an id is returned exactly when it occurs in the chain of some fragment |
| PathSpec.NodeIdsMember | articles/article-page.js:1406-1430 | the same, for any spec |
| PathSpec.HopIdsMember | articles/article-page.js:1389-1400 | an id comes from a chain exactly when it is the index entry of one of its consecutive pairs |
| PathSpec.Chains | articles/article-page.js:1382-1388 | the chain of every fragment |
| PathSpec.ChainsHopIdsMember | articles/article-page.js:1380-1402 | an id comes from the chains exactly when it is the entry of a consecutive pair of one of them |
| PathSpec.FragmentHopIdsMember | articles/article-page.js:1380-1402 | the same, stated on the fragments |
| PathSpec.ResolveEdgeIdsForMarker | listening-notes-7q4m/article-page.js:299-331 | `[]` for an empty spec, and no duplicates |
| PathSpec.EdgeIdsOfFragments | articles/article-page.js:1372-1404 | an id is returned exactly when it is the pair-index entry of consecutive ids in some fragment, so fragments of fewer than two ids add nothing |
| PathSpec.EdgeIdsMember | articles/article-page.js:1372-1404 | the same, for any spec |
| PathSpec.ReplaceArrowJoin | articles/article-page.js:1406-1430 | ids joined by `->` become ids joined by `>` |
| PathSpec.SplitJoined | articles/article-page.js:1406-1430 | splitting joined ids gives them back |
| PathSpec.TrimmedTokensOfTokens | articles/article-page.js:1406-1430 | already-trimmed ids pass the filter unchanged |
| PathSpec.ChainOfJoinedIds | articles/article-page.js:1406-1430 | round trip: the chain of `a->b->c` is `[a, b, c]` |
| WaveImpulses.Amplitude | articles/article-page.js:1477-1480 | an id without a wave state has amplitude 0; `WaveField.TriggerEdgeWave` and `WaveField.TriggerNodeImpulse` state the new amplitudes through it |
| WaveImpulses.EdgeAmplitude | articles/article-page.js:1467-1475 | `max(old, clamp(s, 0.18, 3.2))`: never lower than before, at least 0.18, at most 3.2 when it was |
| WaveImpulses.NodeImpulse | articles/article-page.js:1487-1491 | the node impulse is clamped to `[0.2, 3.4]` |
| WaveImpulses.NodeImpulseReachesEdges | articles/article-page.js:1492-1500 | the 0.95 share that reaches an edge is at least 0.19 |
| WaveImpulses.EdgeAmplitudeIdempotent | articles/article-page.js:1467-1475 | a repeated hit with the same strength changes nothing |
| WaveImpulses.PointerImpulseStrength | articles/article-page.js:1880-1883 | in `[0.25, 3.4]`, and `0.28 + 5.4 speed` in the linear range |
| WaveImpulses.PointerImpulseMonotone | articles/article-page.js:1880-1883 | faster pointers give stronger impulses |
| WaveImpulses.EdgeLengthToHz | articles/article-page.js:1818-1823 | the pitch stays in `[171, 980.4]` Hz |
| WaveImpulses.EdgeLengthToHzPlain | articles/article-page.js:1818-1823 | at impulse 1: 860 Hz up to 60 px, 190 Hz from 580 px, linear in between |
| WaveImpulses.EdgeLengthToHzAntitone | articles/article-page.js:1818-1823 | a longer edge is never higher in pitch |
| WaveImpulses.WaveField.constructor | articles/article-page.js:176-349 | no wave states yet |
| WaveImpulses.WaveField.TriggerEdgeWave | articles/article-page.js:1467-1475 | an empty id changes nothing; otherwise that edge's state is created if needed and raised to `EdgeAmplitude`, and no other edge changes |
| WaveImpulses.WaveField.TriggerNodeImpulse | articles/article-page.js:1487-1502 | the node's amplitude becomes the max of old and the clamped impulse; each incident edge gets a 0.95 share via `EdgeAmplitude`; every other edge is unchanged |
| WaveImpulses.WaveField.HitEdges | articles/article-page.js:1496-1501 | the loop hits exactly the listed edges |
| ContextShift.SpacerValue | articles/article-page.js:755-773 | a spacer is clamped to `[0, 6000]`, 0 for non-finite input |
| ContextShift.Worn | articles/article-page.js:420-434 | one scroll's wear on the spacers; `ConsumeShrinks` and `ConsumeTopFasterDownwards` state its rates |
| ContextShift.Consume | articles/article-page.js:420-442 | `consumeContextAnchorSpacer` on values; `ConsumeNeverIncreases`, `ConsumeClearsSpent` and `ConsumeShrinks` state its meaning |
| ContextShift.ConsumeNeverIncreases | articles/article-page.js:420-442 | scrolling keeps both spacers in range and never enlarges them |
| ContextShift.ConsumeClearsSpent | articles/article-page.js:436-441 | once both spacers are at most 0.5 px both become 0 |
| ContextShift.ConsumeShrinks | articles/article-page.js:420-442 | while a spacer is live, scrolling wears the total down |
| ContextShift.ConsumeTopFasterDownwards | articles/article-page.js:420-442 | scrolling down wears the top spacer at least as fast as scrolling up |
| ContextShift.AnchorSpacers.constructor | articles/article-page.js:390-402 | both spacers start at 0 |
| ContextShift.AnchorSpacers.SetContextAnchorSpacers | articles/article-page.js:755-773 | both spacers are set through the clamp |
| ContextShift.AnchorSpacers.ClearContextAnchorSpacer | articles/article-page.js:795-803 | both spacers become 0 |
| ContextShift.AnchorSpacers.ConsumeContextAnchorSpacer | articles/article-page.js:420-442 | the spacers are worn by the scroll and never grow |
| ContextShift.ContextShiftBlocks.constructor | articles/article-page.js:80-81 | no shifted block, no active block, no drag, and both spacers at 0 |
| ContextShift.ContextShiftBlocks.ResetContextShiftBlocks | articles/article-page.js:604-618 | no block stays shifted or active, the drag ends, and both spacers become 0 |
| ContextShift.BaseX | articles/article-page.js:509-541 | the horizontal reach is 72, 180 or 420 px by window width |
| ContextShift.BaseY | articles/article-page.js:509-541 | the vertical reach is 24, 64 or 120 px by window width |
| ContextShift.AlignOvershoot | articles/article-page.js:543-551 | the overshoot is 84, 220 or 460 px by window width |
| ContextShift.BaseReachMonotone | articles/article-page.js:509-551 | wider windows never get smaller reaches |
| ContextShift.GetContextShiftLimits | articles/article-page.js:509-541 | always `minX <= maxX`, and `y` is the width's vertical reach |
| ContextShift.LimitsWithoutGeometry | articles/article-page.js:509-541 | without geometry the limits are `±baseX` |
| ContextShift.DragLimits | articles/article-page.js:509-541 | dragging cuts the geometry to the reach, or collapses to the midpoint when the two miss |
| ContextShift.AlignLimits | articles/article-page.js:509-541 | aligning widens the geometry by the overshoot, or collapses to its midpoint |
| ContextShift.Snap | articles/article-page.js:573-583 | shifts under 0.35 px snap to 0 and others are kept |
| ContextShift.SnapIdempotent | articles/article-page.js:573-583 | snapping twice is snapping once, and the result is 0 or at least 0.35 |
| ContextShift.DragShiftWithinLimits | articles/article-page.js:482-494 | a clamped and snapped drag stays within the limits |
| Importance.NodeImportanceLevel | listening-notes-7q4m/article-page.js:412-421 | 1 for `important === true`; the rounded value for a finite value of at least 1; otherwise 3 |
| Importance.IntegralImportanceKept | articles/article-page.js:1893-1902 | a whole level is kept as is |
| Importance.MaxLevel | articles/article-page.js:1904-1914 | the level `getMaxImportanceLevel` returns; `MaxLevelIsMaximum` proves it at least 3, an upper bound, and attained above 3 |
| Importance.MaxLevelIsMaximum | articles/article-page.js:1904-1913 | the deepest level is at least 3, bounds every node's level, and is attained unless it is 3 |
| Importance.GetMaxImportanceLevel | listening-notes-7q4m/article-page.js:423-432 | the loop returns the deepest level, at least 3, and 3 without nodes |
| Importance.Depth | articles/article-page.js:1915-1937 | a level's depth lies in `[0, 1]` |
| Importance.BuildImportanceStyle | listening-notes-7q4m/article-page.js:434-456 | blue priority and border width 2 exactly for levels up to 2; alpha in `[0.22, 1]`, with the highlight and border alphas above it; size delta in `[-4, 4]` |
| Importance.StyleAntitone | articles/article-page.js:1915-1937 | a deeper level is never drawn stronger or larger |
| Importance.StyleExtremes | articles/article-page.js:1915-1937 | level 1 is full alpha and +4; the deepest level is alpha 0.22 and -4 |
| RgbTriplet.HexDigit | articles/article-page.js:2001-2036 | a hex digit's value is below 16 |
| RgbTriplet.HexMatch | articles/article-page.js:2006-2008 | `/^#([0-9a-f]{3}\|[0-9a-f]{6})$/i` exactly |
| RgbTriplet.Expand | articles/article-page.js:2009-2014 | three digits double to six |
| RgbTriplet.Channels | articles/article-page.js:2015-2021 | three components in `[0, 255]` |
| RgbTriplet.RgbMatch | articles/article-page.js:2023-2026 | the text inside `rgb(...)` or `rgba(...)` |
| RgbTriplet.Parsed | articles/article-page.js:2027-2030 | every part is trimmed and parsed |
| RgbTriplet.Finites | articles/article-page.js:2027-2030 | the finite values only |
| RgbTriplet.FiniteParts | articles/article-page.js:2027-2030 | no more values than parts |
| RgbTriplet.ParseRgbTriplet | listening-notes-7q4m/article-page.js:520-555 | `null` for a missing value |
| RgbTriplet.ChannelsOfBytes | articles/article-page.js:2015-2021 | the shifts and masks give back the three bytes |
| RgbTriplet.HexValue | articles/article-page.js:2013 | `Number.parseInt(hex, 16)` on hex digits; `HexValueOfSix` and `ChannelsOfBytes` give its bytes |
| RgbTriplet.HexValueOfSix | articles/article-page.js:2015 | the value of six hex digits |
| RgbTriplet.Byte | articles/article-page.js:2015-2021 | two hex digits make a byte |
| RgbTriplet.SixDigitForm | articles/article-page.js:2006-2021 | `#rrggbb` gives the three byte values it spells |
| RgbTriplet.ThreeDigitForm | listening-notes-7q4m/article-page.js:520-540 | `#rgb` gives 17 times each digit |
| RgbTriplet.HexInRange | listening-notes-7q4m/article-page.js:520-540 | every hex colour gives three whole numbers in `[0, 255]` |
| RgbTriplet.RgbForm | listening-notes-7q4m/article-page.js:542-553 | `rgb()`/`rgba()` is `null` exactly when fewer than three parts are finite, otherwise the first three |
| RgbTriplet.OtherTextIsNull | articles/article-page.js:2001-2036 | any other text is `null` |
| RgbTriplet.FinitesFrom | articles/article-page.js:2027-2030 | every kept value comes from a finite part |
| RgbTriplet.FinitesHas | articles/article-page.js:2027-2030 | every finite part is kept |
| RgbTriplet.FinitePartsMember | articles/article-page.js:2027-2030 | a value is kept exactly when some trimmed part parses to it |
| PreviewText.SingleSpacedSlice | articles/article-page.js:2332-2341 | a slice of single-spaced text is single-spaced |
| PreviewText.TrimParts | articles/article-page.js:2332-2341 | `trim` cuts a prefix then a suffix |
| PreviewText.TrimSingleSpaced | articles/article-page.js:2332-2341 | trimming keeps text single-spaced |
| PreviewText.TrimStartSingleSpaced | articles/article-page.js:2332-2341 | so does trimming the start |
| PreviewText.TrimEndSingleSpaced | articles/article-page.js:2332-2341 | so does trimming the end |
| PreviewText.SingleSpacedShift | articles/article-page.js:2332-2341 | a run of single-spaced text is single-spaced |
| PreviewText.EllipsisSingleSpaced | articles/article-page.js:2339-2340 | the `"..."` keeps it single-spaced |
| PreviewText.Normalized | articles/article-page.js:2333 | the normalised text is single-spaced and trimmed, and holds the input's non-space characters, all of them and in order |
| PreviewText.TrimPreviewText | articles/article-page.js:2332-2341 | `trimPreviewText`; `PreviewEmpty`, `PreviewFits`, `PreviewCut` and `PreviewSingleSpaced` state its cases, and `Normalized` that the visible text is the input's |
| PreviewText.PreviewFits | articles/article-page.js:2334-2337 | text that fits is shown whole, once normalised |
| PreviewText.PreviewCut | articles/article-page.js:2338-2340 | longer text is a trimmed run of the text, of at most `maxLength - 1` characters, followed by `"..."` |
| PreviewText.CutIsShape | articles/article-page.js:2338-2340 | the cut has that shape |
| PreviewText.TrimOfPrefixInfix | articles/article-page.js:2339 | the trimmed prefix occurs in the text |
| PreviewText.PreviewSingleSpaced | articles/article-page.js:2332-2341 | a preview shows only single spaces |
| PreviewText.PreviewEmpty | articles/article-page.js:2332-2341 | the preview is empty exactly when the text is blank |
| ArticleView.Activated | listening-notes-7q4m/article-page.js:197-205 | every section is kept in order; exactly those with the id are active, and a section is hidden exactly when it is not active |
| ArticleView.ActivatedShowsOne | articles/article-page.js:374-388 | with distinct ids at most one section is shown, and one is shown when the id exists |
| ArticleView.ActivatedIdempotent | articles/article-page.js:374-388 | selecting the same section again changes nothing |
| ArticleView.ToggleSections | articles/article-page.js:380-387 | the loop over the sections sets exactly that state |
| ArticleView.ArticleSections.constructor | articles/article-page.js:95-119 | no section selected yet |
| ArticleView.ArticleSections.SelectSection | articles/article-page.js:374-388 | an unforced reselect changes nothing, spacers included; otherwise the id is selected, the sections toggled, every context shift dropped and both anchor spacers set to 0 |
| ArticleView.Without | listening-notes-7q4m/article-page.js:386-392 | the set difference, in order, without adding duplicates |
| ArticleView.Mark | listening-notes-7q4m/article-page.js:394-407 | the listed edges get the new style, all others keep theirs |
| ArticleView.ResetAndHighlightDisjoint | listening-notes-7q4m/article-page.js:386-392 | no edge is both reset and highlighted |
| ArticleView.WithoutCovered | listening-notes-7q4m/article-page.js:386-392 | a list whose members are all excluded leaves nothing |
| ArticleView.RepeatUpdatesNothing | listening-notes-7q4m/article-page.js:378-410 | repeating the same set resets and highlights nothing |
| ArticleView.HighlightUpdate | listening-notes-7q4m/article-page.js:378-410 | exactly `new \ old` is highlighted; afterwards the highlighted list is `new` without repeats and the styles agree with it |
| ArticleView.UpdateKeepsConsistent | listening-notes-7q4m/article-page.js:394-409 | resetting `old \ new` and lighting `new \ old` leaves exactly `new` lit |
| ArticleView.WithoutSameMembers | listening-notes-7q4m/article-page.js:386-392 | the difference depends only on the members excluded |
| ArticleView.ListeningNotesView.constructor | listening-notes-7q4m/article-page.js:35-52 | nothing selected or lit, and every edge style plain |
| ArticleView.ListeningNotesView.SetHighlightedEdges | listening-notes-7q4m/article-page.js:378-410 | without a dataset nothing changes; otherwise it resets `old \ new`, lights `new \ old` and records `new` |
| ArticleView.ListeningNotesView.SelectSection | listening-notes-7q4m/article-page.js:192-206 | an unforced reselect changes nothing; otherwise the section is shown alone and, with a dataset, every highlight is cleared and every known edge style reset; without a dataset the highlights and styles are untouched |

## Left out

- No I/O is modelled: `fetch`, JSON parsing, DOM building, canvas drawing,
  Web Audio nodes and `requestAnimationFrame`/timers. A release payload
  arrives already parsed (a list of records, not a list, or unreadable), and
  a card is the values its elements would show.
- `Math.random`, `parseFloat`, `Math.sqrt`/`Math.hypot`, the mask sample
  and the pointer's measured geometry are parameters. Properties that
  depend on them are stated in their terms.
- Numbers are unbounded reals. Floating-point rounding is not modelled.
  `toFixed(3)` on the tint alphas is not modelled.
- `Number(s)` is modelled for blank text (0), plain decimal digits and
  anything else (`NaN`). Signs, decimal points, exponents, hex and
  `"Infinity"` all read as `NaN`. The split on `/[;,]+/` is a split on
  single separators followed by dropping the then-empty pieces, which
  gives the same result.
- `Date.UTC` is the proleptic Gregorian day count with the year 0..99 shift.
  The ±8.64e15 ms range limit (TimeClip) is not modelled.
- ReleaseText.DateUtcOrder: strictly increasing only from year 100, because
  years 0..99 are shifted into 1900..1999.
- Releases.SortReleases: `Array.prototype.sort` is the engine's own
  algorithm. It is modelled as an insertion sort on a sequence.
  `SortedUnique` shows that any sorted permutation is this one, so the
  result does not depend on the algorithm.
- `syncReleaseColumnWidth` and `initReleases` are not modelled: they
  measure rendered text and wire events.
- GraphIndex.PairIndexBothOrders: a pair key is `from + "->" + to`, so ids
  that contain `->` can collide. The lookup is stated for an edge with no
  later edge on the same pair and no colliding keys.
- GraphPaths.FindNodePathBfs: the shortest-path guarantee needs every
  neighbour to be a key, and no node id to be empty. An empty id makes the
  code's `!cursor` test give up early. `AdjacencyOfKeysClosed` proves the
  first condition for the adjacency `buildNodeAdjacency` builds.
- GraphPaths.FindNodePathBfs: the neighbours are a `set`, visited in any
  order, whereas the page's `Set`s iterate in insertion order, which is edge
  order (articles/article-page.js:1030-1046, 1069). When several shortest
  paths exist, the page returns the one that this order reaches first. The
  model promises only some shortest path, so which of the equally short
  paths gets highlighted is not captured. `BuildNodeAdjacency` and
  `AdjacencyOf` have the same gap: they model each node's neighbours as a set.
- The rest of `buildThreadAutoMetaById` is not modelled. Only its
  repeat-dropping step is.
- PreviewText.TrimPreviewText: lengths and cuts count code points
  (Dafny's `|s|`), whereas `length` and `slice` count UTF-16 code units.
  Text with characters outside the Basic Multilingual Plane, such as
  emoji, is therefore cut later than on the page, which can also split a
  surrogate pair. `PreviewFits`, `PreviewCut` and `Cut` share this gap.
- PreviewText.PreviewCut: the length bound is `maxLength + 2`, not
  `maxLength`, because the code adds `"..."` after `maxLength - 1`
  characters.
- The exponential decay of the wave states, the phase jitter and the
  oscillator loop are not modelled. A hit's fresh phase and speed are
  parameters.
- `alignMarkerContextBlock`, `applyPaneScrollDelta` and
  `ensureVirtualScrollRange` are not modelled: they re-measure the DOM.
  Of `applyContextShift`, only the snap rule is modelled.
- BackgroundFx.BackgroundGame.SetMiniModeActive: leaving the mode also
  sets `cursorSpeed` to 0. The pointer speed is not part of the model.
- The game's word picker is the `WordShuffle` class. `BackgroundGame`
  receives the picked word as a parameter of `PushPoint`.
- `tryEmitWord`, `registerBlueDot`, `endWordSession`, `updateSecretStatus`,
  `revealSecretVideo` and the pointer event handlers are not modelled.
  They are DOM and event wiring around the modelled operations.
- BackgroundFx.BackgroundGame.CompleteSecretChallenge: the video reveal is
  not modelled. The state changes are applied in one step, and the final
  state is the one stated.
- MiniGame: the dot fading in `renderMiniGame` and the sound repeat timer
  are not modelled.
- MiniGame.Game.DrawPointerPath: the stroke grows by at most one point per
  event. Dots between the last emit and the pointer are attempted at the
  20 px spacing, but the 20 ms cooldown admits at most one of them at a
  single time stamp.
- AudioPluck: the carrier and noise waveforms, the reverb and the audio
  context are not modelled. The body sample is a parameter of the fill
  loop.
- main.js is not part of this model: it only starts the modules.
