# Automotion responsive-UI validator, modelled in Dafny

This project models the geometric assertion engine of Automotion's
responsive-UI validator. A validation session holds a root element, the
page size, a unit mode (pixels or percent) and four draw-hint flags. Every
rule call appends zero or more error records to an ordered log that is
never cleared. The terminal `validate()` call turns that log into a
pass/fail verdict.

Elements are `(id, rectangle)` pairs with integer coordinates. The id stands
for `WebElement.equals`, which every root-relative rule uses to skip the root
itself. With elements in this form every rule is integer arithmetic over
rectangles, and its outcome can be stated exactly: which records are
appended, in what order, and on which element.

Files and modules:

- `rectangles.dfy` (`Rectangles`): integer rectangles and the two
  `Rectangle2D` tests the rules use. `intersects` is strict and false for
  empty rectangles. `contains` is boundary-inclusive and also false for
  empty rectangles.
- `units.dfy` (`Units`): `getConvertedInt`, with Java's truncating `/ 100`
  written out.
- `screen_mapping.dfy` (`ScreenMapping`): the integer branches of
  `retinaValue` and `mobileY`.
- `layout.dfy` (`Layout`): elements, edges, measures, bounds, padding and the
  error record. An error is a kind plus an optional rectangle. Most kinds
  carry the numbers their message prints (limits and measured values, row
  and column counts, margins, offsets, padding, chunk indices, the CSS candidate value).
  The kinds of the same-measure and not-same-size rules carry none: their
  messages print the root's and the element's width and height, which the
  model leaves to the root and the attached rectangle.
- `rules.dfy` (`Rules`): each rule as a pure function giving the exact
  records one call appends. Lemmas state what each rule means.
- `grid.dfy` (`Grid`): the grid-row clusterer of `validateGridAlignment`.
  The `ConcurrentSkipListMap` from top coordinate to counter is modelled as
  a strictly ascending association sequence.
- `responsive.dfy` (`Responsive`): the session class
  `ResponsiveUIValidator`. Its fields are updated in place, and each rule
  method is proved to append exactly what its `Rules` or `Grid` function
  says.
- `fluent.dfy` (`Fluent`): the builder class `UIValidator`. It converts the
  arguments on the right axis, applies the `-10000` sentinel guard, sets
  draw hints and returns itself.

Some behaviours of the code that a reader might not expect, all of which
the model keeps:

- Percent conversion truncates toward zero. It does not floor.
- An empty rectangle does not contain itself.
- The offset chunk rule on left edges 0, 0, 5, 0 reports both pairs (1,2)
  and (2,3). See `Rules.ChunkOffsetExample`.
- A grid with tops 0, 0, 100, 100, 200 and `columns = 2` appends no error at
  all. Its only wrong row is the first wrong row, and that one is
  tolerated. See `Grid.ShortLastRowTolerated`.

## Model

All paths are under `src/main/java/util/validator/`; the table writes them in full.

| member | source | states |
|---|---|---|
| Rectangles.IntersectsIffSharedArea | src/main/java/util/validator/ResponsiveUIValidator.java:915-917 | two rectangles overlap exactly when the area of their intersection, computed independently from the interval overlaps, is positive |
| Rectangles.Intersects | src/main/java/util/validator/ResponsiveUIValidator.java:915-917 | two rectangles overlap iff both have area and their x ranges and their y ranges each overlap over a positive length |
| Rectangles.TouchingRectanglesDoNotOverlap | src/main/java/util/validator/ResponsiveUIValidator.java:915-917 | rectangles that only share an edge or a corner are not overlapped, in either order, and share no area |
| Rectangles.IntersectsIsSymmetric | src/main/java/util/validator/ResponsiveUIValidator.java:915-917 | overlap does not depend on which element is the root |
| Rectangles.ContainsReflexive | src/main/java/util/validator/ResponsiveUIValidator.java:860-874 | a rectangle contains itself exactly when it is not empty |
| Rectangles.ContainsAntisymmetric | src/main/java/util/validator/ResponsiveUIValidator.java:860-874 | two rectangles that contain each other are equal |
| Rectangles.ContainsTransitive | src/main/java/util/validator/ResponsiveUIValidator.java:860-874 | containment is transitive |
| Rectangles.ContainsImpliesIntersects | src/main/java/util/validator/ResponsiveUIValidator.java:860-874 | a container overlaps whatever it contains |
| Rectangles.Contains | src/main/java/util/validator/ResponsiveUIValidator.java:864-893 | a contained rectangle overlaps its container, and the area they share is the whole inner rectangle |
| Units.JavaDiv100 | src/main/java/util/validator/ResponsiveUIValidator.java:734-736 | the quotient by 100 truncated toward zero, characterised by its bounds on either sign |
| Units.ToPixels | src/main/java/util/validator/ResponsiveUIValidator.java:729-739 | PX returns the value unchanged; PERCENT returns the share of page width (horizontal) or page height (vertical), truncated toward zero |
| Units.JavaDiv100Monotone | src/main/java/util/validator/ResponsiveUIValidator.java:734-736 | truncating division by 100 preserves order |
| Units.ToPixelsMonotone | src/main/java/util/validator/ResponsiveUIValidator.java:729-739 | on a page of non-negative size, conversion preserves order in both unit modes |
| Units.PercentTruncatesTowardZero | src/main/java/util/validator/ResponsiveUIValidator.java:734 | -1% of a 50px page converts to 0, not -1 |
| ScreenMapping.RetinaValue | src/main/java/util/validator/ResponsiveUIValidator.java:753-786 | at 100% zoom, a value is doubled only on retina Chrome on the desktop or on a listed iOS device, and is unchanged otherwise |
| ScreenMapping.MobileY | src/main/java/util/validator/ResponsiveUIValidator.java:788-808 | 20 is added exactly on a mobile platform, in a web context, with the top-bar flag set |
| ScreenMapping.StatusBarBeforeDensity | src/main/java/util/validator/ResponsiveUIValidator.java:280 | on a listed iPhone with the top bar in a web context, y maps to 2y + 40 |
| Rules.OffsetErrors | src/main/java/util/validator/ResponsiveUIValidator.java:377-407 | no record iff the element is the root or shares the root's edge; otherwise one record on the element |
| Rules.OffsetRuleComparesPageOffsets | src/main/java/util/validator/ResponsiveUIValidator.java:377-407 | the per-edge offset rule passes iff the element is the root or has the same distance as the root from that edge of the page |
| Rules.OverlapErrors | src/main/java/util/validator/ResponsiveUIValidator.java:409-423 | no record iff the element is the root or its overlap with the root is as expected; otherwise one record on the element |
| Rules.TouchingNeighbourIsNotOverlapping | src/main/java/util/validator/ResponsiveUIValidator.java:409-423 | an element that touches the root on any of the four sides passes notOverlapWith and fails overlapWith |
| Rules.SameMeasureErrors | src/main/java/util/validator/ResponsiveUIValidator.java:471-509 | no record iff the element is the root or matches the root in the measure; otherwise one record on the element |
| Rules.NotSameSizeErrors | src/main/java/util/validator/ResponsiveUIValidator.java:539-547 | a record on the element iff it is not the root and has the root's width and height |
| Rules.EqualOffsetsErrors | src/main/java/util/validator/ResponsiveUIValidator.java:651-661 | the rule passes iff 2x + width = page width (horizontal) or 2y + height = page height (vertical); a failure is one record on the element carrying the left and right (or top and bottom) offsets the message prints |
| Rules.NotInsideErrors | src/main/java/util/validator/ResponsiveUIValidator.java:868-872 | a record on the container iff it does not contain the element |
| Rules.OverlapsAnotherErrors | src/main/java/util/validator/ResponsiveUIValidator.java:297-306 | one record on the element iff some other element of the list overlaps it |
| Rules.RuleErrors | src/main/java/util/validator/UIValidator.java:171-176 | the list forms' one-element step: at most one record, none for the root under a root-relative rule, attached to the element (to the container for insideOf) |
| Rules.ListErrorsPerElement | src/main/java/util/validator/UIValidator.java:313-319 | a list form appends at most one record per element, and none iff every element passes on its own |
| Rules.Others | src/main/java/util/validator/UIValidator.java:429-435 | the list keeps every member that is not the root, contains nothing that was not a member, and contains no root |
| Rules.RootMembersContributeNothing | src/main/java/util/validator/UIValidator.java:429-435 | a root-relative list form appends the same records with or without the root's own entries |
| Rules.InsideErrors | src/main/java/util/validator/ResponsiveUIValidator.java:860-874 | every record is the not-inside record on the container; without a member list: at most one, none iff the container contains the root; with members: exactly one per member the container does not contain, none iff it contains each member |
| Rules.InsideListErrorsExact | src/main/java/util/validator/ResponsiveUIValidator.java:867-873 | the member loop appends the container's not-inside record once for each member outside it and nothing else |
| Rules.PaddingErrors | src/main/java/util/validator/ResponsiveUIValidator.java:876-897 | one record on the container iff it does not contain the root expanded by the padding; the record carries requested and observed padding |
| Rules.PaddedRect | src/main/java/util/validator/ResponsiveUIValidator.java:882-886 | each edge of the root moves outward by the padding requested for that side |
| Rules.ObservedPadding | src/main/java/util/validator/ResponsiveUIValidator.java:888-891 | expanding the root by the observed padding gives back exactly the container |
| Rules.PaddingHoldsIffObservedCoversRequested | src/main/java/util/validator/ResponsiveUIValidator.java:882-893 | for non-empty rectangles the padding check passes iff the observed padding is at least the requested one on all four sides |
| Rules.PaddingExample | src/main/java/util/validator/ResponsiveUIValidator.java:876-897 | a worked case: the exact padded rectangle, a passing container, and a container 5px short on the left reporting an observed left padding of 15 |
| Rules.SizeLimitErrors | src/main/java/util/validator/ResponsiveUIValidator.java:459-490 | one record iff the width or height is strictly below a minimum or strictly above a maximum |
| Rules.BetweenErrors | src/main/java/util/validator/UIValidator.java:352-357 | at most two records, minimum before maximum; none iff the measure is in the inclusive range; a measure below the minimum gives the Min record first and one above the maximum gives the Max record last, each with its limit and the measure; at most one when min is at most max |
| Rules.OffsetLimitErrors | src/main/java/util/validator/ResponsiveUIValidator.java:425-457 | at most four records, each on a side that breaks a limit strictly, in the order left, top, right, bottom, with right and bottom measured from the page edge; none iff every side is within its limit |
| Rules.OffsetLimitReportsEverySide | src/main/java/util/validator/ResponsiveUIValidator.java:425-457 | each side breaks its own limit iff its record, with that limit and its offset, is in the log, and the number of records is the number of breaking sides |
| Rules.MarginErrors | src/main/java/util/validator/ResponsiveUIValidator.java:577-639 | one record on the neighbour iff the gap between the facing edges lies outside the inclusive margin band |
| Rules.Gap | src/main/java/util/validator/ResponsiveUIValidator.java:577-639 | a neighbour at a non-negative gap from the facing edge never overlaps the root |
| Rules.AlignmentErrors | src/main/java/util/validator/ResponsiveUIValidator.java:585-649 | one record without an element iff the page checker reports the pair as not aligned |
| Rules.ChunkOffsetErrorsExact | src/main/java/util/validator/ResponsiveUIValidator.java:345-375 | the offset list rules append exactly as many records as there are consecutive pairs that differ, in ascending pair order, and a record is appended iff it names such a pair on its second element |
| Rules.ChunkOffsetErrors | src/main/java/util/validator/ResponsiveUIValidator.java:345-375 | only offset-differs records for the requested edge, at most one per consecutive pair |
| Rules.ChunkOffsetErrorsOrdered | src/main/java/util/validator/ResponsiveUIValidator.java:345-375 | one record per differing consecutive pair, with strictly increasing pair indices |
| Rules.ChunkOffsetExample | src/main/java/util/validator/ResponsiveUIValidator.java:353-359 | left edges 0, 0, 5, 0 report pairs (1,2) and (2,3); first and last are never compared |
| Rules.ChunkSizeErrorsCount | src/main/java/util/validator/ResponsiveUIValidator.java:511-575 | exactly two records per failing consecutive pair, and none for a type outside 0, 1, 2 |
| Rules.ChunkSizeErrors | src/main/java/util/validator/ResponsiveUIValidator.java:511-575 | records come in twos, at most one two per consecutive pair |
| Rules.ChunkSizeReportsBothOfPair | src/main/java/util/validator/ResponsiveUIValidator.java:511-575 | the two records of a failing pair, on elements i and i+1, head the records of the pairs from i on, and those records form the tail of the records from any earlier pair |
| Rules.ChunkSizeSuffix | src/main/java/util/validator/ResponsiveUIValidator.java:511-575 | the records of the pairs from i on are the tail of the records of the pairs from any earlier start |
| Rules.CssArgsErrorsBound | src/main/java/util/validator/UIValidator.java:524-529 | at most one record per argument, with no element attached, and none iff every argument's candidate value is found (withCssValue) or absent (withoutCssValue) |
| Rules.CssArgErrors | src/main/java/util/validator/UIValidator.java:524-529 | one argument adds a record iff the lookup of its candidate value (converted from hex when it starts with '#') disagrees with the expectation, naming that value |
| Rules.CssArgsErrorsStep | src/main/java/util/validator/UIValidator.java:524-529 | the arguments are checked in order: one more argument appends its own records at the end |
| Rules.CssErrors | src/main/java/util/validator/UIValidator.java:520-558 | an empty property value gives exactly one record whatever the arguments; otherwise at most one record per argument, and none iff every argument meets the expectation |
| Grid.BumpSpec | src/main/java/util/validator/ResponsiveUIValidator.java:315-316 | put-if-absent-and-increment keeps the map sorted, adds the key, raises that counter by one and leaves the others unchanged |
| Grid.Bump | src/main/java/util/validator/ResponsiveUIValidator.java:315-316 | put-if-absent-and-increment adds at most one entry and never leaves the map empty |
| Grid.BumpKeys | src/main/java/util/validator/ResponsiveUIValidator.java:315 | the keys after the update are the old keys plus y |
| Grid.BumpWellFormed | src/main/java/util/validator/ResponsiveUIValidator.java:315-316 | the update keeps the keys strictly ascending and the counters positive |
| Grid.BumpCounts | src/main/java/util/validator/ResponsiveUIValidator.java:316 | only y's counter changes, by one |
| Grid.NotAKeyCountsZero | src/main/java/util/validator/ResponsiveUIValidator.java:316 | an absent key has counter 0 |
| Grid.CountRows | src/main/java/util/validator/ResponsiveUIValidator.java:311-317 | the counting loop builds a sorted map with one entry per distinct top coordinate, holding how many elements start there |
| Grid.RowTableSpec | src/main/java/util/validator/ResponsiveUIValidator.java:311-317 | the map is sorted, its keys are the distinct tops, and each counter is the number of elements at that top |
| Grid.EntriesAreKeys | src/main/java/util/validator/ResponsiveUIValidator.java:319 | a sorted map has as many entries as keys |
| Grid.RowCountIsDistinctTops | src/main/java/util/validator/ResponsiveUIValidator.java:319-324 | the row count compared with `rows` is the number of distinct top coordinates |
| Grid.ColumnScanAfterFirst | src/main/java/util/validator/ResponsiveUIValidator.java:329-340 | once one wrong row has been seen, every later wrong row is reported exactly once with its row number and size |
| Grid.ColumnScanLength | src/main/java/util/validator/ResponsiveUIValidator.java:329-340 | after the first wrong row, the loop reports as many records as there are wrong rows left |
| Grid.ColumnScanOnlyWrongRows | src/main/java/util/validator/ResponsiveUIValidator.java:329-340 | every record of the column loop names a wrong row with its number and its size |
| Grid.ColumnScanEveryWrongRow | src/main/java/util/validator/ResponsiveUIValidator.java:329-340 | after the first wrong row, every later wrong row is reported with its number and size |
| Grid.FirstMismatchTolerated | src/main/java/util/validator/ResponsiveUIValidator.java:332-336 | the first wrong row and the right rows before it add nothing |
| Grid.ColumnScanCount | src/main/java/util/validator/ResponsiveUIValidator.java:326-341 | the column loop reports one row fewer than there are wrong rows, and none when there are none |
| Grid.GridErrorsShape | src/main/java/util/validator/ResponsiveUIValidator.java:309-343 | a row-count record first, exactly when rows > 0 and the distinct tops differ from rows; then, when columns > 0, one column record per wrong row but the first |
| Grid.ColumnScan | src/main/java/util/validator/ResponsiveUIValidator.java:326-341 | at most one record per row, each a wrong-column record on no element |
| Grid.GridErrors | src/main/java/util/validator/ResponsiveUIValidator.java:309-343 | nothing is appended without a member list; every record is a row-count or column-count record on no element |
| Grid.RegularGridPasses | src/main/java/util/validator/ResponsiveUIValidator.java:309-343 | two rows of three pass with rows = 2 and columns = 3 |
| Grid.ShortLastRowTolerated | src/main/java/util/validator/ResponsiveUIValidator.java:326-341 | tops 0, 0, 100, 100, 200 with columns = 2 append nothing |
| Grid.SecondWrongRowReported | src/main/java/util/validator/ResponsiveUIValidator.java:326-341 | tops 0, 100, 100, 200 with columns = 2 report only row 3 |
| Responsive.ResponsiveUIValidator.constructor | src/main/java/util/validator/ResponsiveUIValidator.java:61-64 | a new session has an empty log, pixel units, no flags, no root and no members |
| Responsive.ResponsiveUIValidator.PutDetailsWithoutElement | src/main/java/util/validator/ResponsiveUIValidator.java:702-708 | appends one record without an element |
| Responsive.ResponsiveUIValidator.PutDetailsWithElement | src/main/java/util/validator/ResponsiveUIValidator.java:710-727 | appends one record carrying the element's rectangle |
| Responsive.ResponsiveUIValidator.ChangeMetricsUnitsTo | src/main/java/util/validator/ResponsiveUIValidator.java:149-152 | changes only the unit mode and returns the same session |
| Responsive.ResponsiveUIValidator.Validate | src/main/java/util/validator/ResponsiveUIValidator.java:169-231 | false without a root; otherwise true iff the log is empty |
| Responsive.ResponsiveUIValidator.ValidateOffsetForElement | src/main/java/util/validator/ResponsiveUIValidator.java:377-407 | appends exactly the records of Rules.OffsetErrors |
| Responsive.ResponsiveUIValidator.ValidateOverlapWithElement | src/main/java/util/validator/ResponsiveUIValidator.java:409-423 | appends exactly the records of Rules.OverlapErrors |
| Responsive.ResponsiveUIValidator.ValidateSameMeasure | src/main/java/util/validator/ResponsiveUIValidator.java:471-509 | appends exactly the records of Rules.SameMeasureErrors |
| Responsive.ResponsiveUIValidator.ValidateNotSameSize | src/main/java/util/validator/ResponsiveUIValidator.java:539-547 | appends exactly the records of Rules.NotSameSizeErrors |
| Responsive.ResponsiveUIValidator.ValidateEqualOffsets | src/main/java/util/validator/ResponsiveUIValidator.java:651-661 | appends exactly the records of Rules.EqualOffsetsErrors |
| Responsive.ResponsiveUIValidator.ValidateEqualOffsetsForAll | src/main/java/util/validator/ResponsiveUIValidator.java:663-677 | the loop appends the one-element records for each element in list order |
| Responsive.ResponsiveUIValidator.ValidateElementsAreNotOverlapped | src/main/java/util/validator/ResponsiveUIValidator.java:296-307 | the nested loop with its break appends, per element in order, one record iff another element overlaps it |
| Responsive.ResponsiveUIValidator.ReportIfOverlapsAnother | src/main/java/util/validator/ResponsiveUIValidator.java:298-305 | the inner loop appends one record on el1 iff some other element overlaps it, and stops at the first |
| Responsive.ResponsiveUIValidator.ValidateGridAlignment | src/main/java/util/validator/ResponsiveUIValidator.java:309-343 | appends exactly the records of Grid.GridErrors |
| Responsive.ResponsiveUIValidator.ValidateRowSizes | src/main/java/util/validator/ResponsiveUIValidator.java:326-341 | the column loop, with its counter and its always-true row guard, appends exactly the column scan |
| Responsive.ResponsiveUIValidator.ValidateOffsetForChunk | src/main/java/util/validator/ResponsiveUIValidator.java:345-375 | the pair loop appends exactly the records of Rules.ChunkOffsetErrors |
| Responsive.ResponsiveUIValidator.ValidateSizeForChunk | src/main/java/util/validator/ResponsiveUIValidator.java:511-575 | the pair loop with its switch on the type appends exactly the records of Rules.ChunkSizeErrors |
| Responsive.ResponsiveUIValidator.ValidatePairSize | src/main/java/util/validator/ResponsiveUIValidator.java:511-575 | one iteration appends exactly the two records of the pair when the selected measure fails, and nothing for an unknown type |
| Responsive.ResponsiveUIValidator.ValidateOffsetLimits | src/main/java/util/validator/ResponsiveUIValidator.java:425-457 | appends exactly the records of Rules.OffsetLimitErrors |
| Responsive.ResponsiveUIValidator.ValidateSideLimit | src/main/java/util/validator/ResponsiveUIValidator.java:425-457 | one side of validateMaxOffset (:425-440) or validateMinOffset (:442-457): appends exactly that side's records of Rules.SideLimitErrors |
| Responsive.ResponsiveUIValidator.ValidateSizeLimit | src/main/java/util/validator/ResponsiveUIValidator.java:459-490 | appends exactly the records of Rules.SizeLimitErrors |
| Responsive.ResponsiveUIValidator.ValidateNeighbour | src/main/java/util/validator/ResponsiveUIValidator.java:577-639 | appends exactly the records of Rules.MarginErrors |
| Responsive.ResponsiveUIValidator.ValidateNeighbourAligned | src/main/java/util/validator/ResponsiveUIValidator.java:585-649 | appends exactly the records of Rules.AlignmentErrors |
| Responsive.ResponsiveUIValidator.ValidateInsideOfContainer | src/main/java/util/validator/ResponsiveUIValidator.java:860-874 | appends exactly the records of Rules.InsideErrors |
| Responsive.ResponsiveUIValidator.ReportMembersOutside | src/main/java/util/validator/ResponsiveUIValidator.java:868-872 | the member loop appends one record on the container per member it does not contain, in list order |
| Responsive.ResponsiveUIValidator.ValidateInsideOfPadded | src/main/java/util/validator/ResponsiveUIValidator.java:876-897 | converts each padding side on its own axis and appends exactly the records of Rules.PaddingErrors |
| Responsive.ResponsiveUIValidator.SetDrawFlag | src/main/java/util/validator/UIValidator.java:186-292 | raises the draw hint of one edge and leaves the other three unchanged |
| Fluent.OffsetGuard | src/main/java/util/validator/UIValidator.java:489-506 | the guard of minOffset (:489) and maxOffset (:506); in pixels it holds iff each given limit is above -10000 |
| Fluent.SentinelSwitchesOffAllSides | src/main/java/util/validator/UIValidator.java:488-510 | a limit at or below -10000 on any side fails the guard: always in pixels, and in percent when the page is at least 100px on that side's own axis |
| Fluent.SentinelInPercentOnNarrowPage | src/main/java/util/validator/UIValidator.java:488-493 | on a 50px-wide page in percent mode, -10000 converts to -5000 and the offset check still runs |
| Fluent.UIValidator.constructor | src/main/java/util/validator/UIValidator.java:13-20 | a fresh session with an empty log, the element as root and the given page size |
| Fluent.UIValidator.ChangeMetricsUnitsTo | src/main/java/util/validator/UIValidator.java:28-32 | changes only the unit mode and returns the same builder |
| Fluent.UIValidator.WithNeighbourAligned | src/main/java/util/validator/UIValidator.java:40-122 | appends the alignment records and returns the same builder |
| Fluent.UIValidator.WithNeighbour | src/main/java/util/validator/UIValidator.java:54-136 | margins are converted horizontally for left and right neighbours and vertically for top and bottom ones, then the margin rule runs |
| Fluent.UIValidator.OverlapWith | src/main/java/util/validator/UIValidator.java:145-162 | appends exactly the overlap records against the root |
| Fluent.UIValidator.NotOverlapWithAll | src/main/java/util/validator/UIValidator.java:170-176 | applies notOverlapWith to each element in list order |
| Responsive.ResponsiveUIValidator.ApplyRuleToEach | src/main/java/util/validator/UIValidator.java:170-176 | a list form appends, element by element in list order, exactly the records of the one-element rule |
| Fluent.UIValidator.SameOffsetAs | src/main/java/util/validator/UIValidator.java:185-190 | appends the offset records and sets exactly that edge's draw flag, whether or not a record was added |
| Fluent.UIValidator.SameOffsetAsAll | src/main/java/util/validator/UIValidator.java:198-292 | applies the offset rule to each element in order, then sets exactly that edge's draw flag |
| Fluent.UIValidator.SameMeasureAs | src/main/java/util/validator/UIValidator.java:301-435 | appends exactly the same-width, same-height or same-size records |
| Fluent.UIValidator.SameMeasureAsAll | src/main/java/util/validator/UIValidator.java:313-435 | the list forms of sameWidthAs (:313-319), sameHeightAs (:379-384) and sameSizeAs (:430-435): the measure rule applied to each element in list order |
| Fluent.UIValidator.NotSameSizeAs | src/main/java/util/validator/UIValidator.java:444-448 | appends exactly the not-same-size records |
| Fluent.UIValidator.NotSameSizeAsAll | src/main/java/util/validator/UIValidator.java:456-462 | applies the not-same-size rule to each element in list order |
| Fluent.UIValidator.SizeLimit | src/main/java/util/validator/UIValidator.java:327-408 | converts the limit on the measure's own axis (width horizontal, height vertical) and runs the min or max check |
| Fluent.UIValidator.SizeBetween | src/main/java/util/validator/UIValidator.java:352-476 | widthBetween (:352-357) and heightBetween (:471-476): the minimum check, then the maximum check, on converted limits |
| Fluent.UIValidator.OffsetLimit | src/main/java/util/validator/UIValidator.java:487-510 | nothing unless all four converted limits exceed -10000; then exactly the four-sided offset records |
| Fluent.UIValidator.CssValues | src/main/java/util/validator/UIValidator.java:519-558 | the argument loop appends exactly the records of Rules.CssErrors |
| Fluent.UIValidator.CheckCssArguments | src/main/java/util/validator/UIValidator.java:524-529 | the argument loop appends exactly Rules.CssArgsErrors, argument by argument in order |
| Fluent.UIValidator.CheckCssArgument | src/main/java/util/validator/UIValidator.java:525-528 | one argument, converted from hex when it starts with '#', appends exactly its Rules.CssArgErrors record |
| Fluent.UIValidator.EqualOffsets | src/main/java/util/validator/UIValidator.java:565-580 | appends exactly the equal-offsets records for the root |
| Fluent.UIValidator.InsideOf | src/main/java/util/validator/UIValidator.java:589-593 | appends exactly the records of Rules.InsideErrors |
| Fluent.UIValidator.InsideOfPadded | src/main/java/util/validator/UIValidator.java:595-599 | appends exactly the padding records on converted padding |
| Fluent.TopAlignedAndApart | src/main/java/util/validator/ResponsiveUIValidator.java:169-231 | for a whole session (new builder, two rules, validate), the verdict is true iff neither rule appended a record |

## Left out

- Screenshots, drawing, JSON files and the HTML report are I/O and rendering, so they are not modelled. This covers `drawScreenshot`, `drawRoot`, the `withReport` branch of `validate`, `drawMap`, `generateReport` and the colour setters.
- The page size is a parameter of the builder's constructor. It is not read through the JavaScript executor (`getPageWidth`, `getPageHeight`, `isNativeMobileContext`).
- ScreenMapping.RetinaValue: only the 100% zoom case is modelled. The floating-point zoom scaling is left out.
- `PageValidator.elementsAreAligned*`, `TextFinder.textIsFound`, `SystemHelper.hexStringToARGB` and `getCssValue` are foreign calls, so they are parameters: an `aligned` verdict, a `found` predicate, a `toArgb` function and the property's value string.
- Message text, readable names and `getFormattedMessage` are not modelled. Most kinds keep the numbers their message prints; `MeasureDiffers` and `SameSize` keep none, so the root's width and height printed by `validateSameWidth`, `validateSameHeight`, `validateSameSize` and `validateNotSameSize` are not part of the record. The CSS kinds keep the candidate value but not the property's actual value that the message also prints. The chunk size kinds keep only the measure and the index; the element's width and height their messages print are those of the attached rectangle. Chunk records use 0-based element indices where the messages print 1-based ones.
- Timing, scenario names and random file-name suffixes are not modelled.
- `rootElement` and `errorMessage` are process-wide `static` fields in the source. The model gives each session its own root and log, so sharing between sessions and concurrency are not modelled.
- Java `int` overflow is not modelled. Integers are unbounded, so a wrap-around in `i * pageWidth` or in `x + width` is not captured.
- `init`, `findElement`, `findElements`, `setTopBarMobileOffset` and the chunk validator that sets `rootElements` are outside this model. `rootElements` is a plain field of the session.
- Where the source has one method per edge or per measure, the model has one method that takes the edge or measure as an argument: the four offset rules, the four neighbour rules, and the width/height/size rules. The same applies to the same/not-same pairs of chunk size rules.
