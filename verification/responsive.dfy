/**
  The validation session (ResponsiveUIValidator): the root element, the page
  size, the unit mode, four draw-hint flags and the error log. Every rule
  method appends to the log exactly the records the matching function of
  module Rules (or Grid) describes, and nothing else changes.
 */
module Responsive {
  import opened Wrappers
  import opened Rectangles
  import opened Units
  import opened Layout
  import opened Rules
  import opened Grid

  /** The sentinel of minOffset / maxOffset: a converted limit at or below it switches the check off. */
  const MinOffset: int := -10000

  class ResponsiveUIValidator {
    /** The element under validation (rootElement); None until a builder sets it. */
    var root: Option<Element>
    /** The member list of a chunk validation (rootElements); None for a single element. */
    var rootElements: Option<seq<Element>>
    var units: Units
    var pageWidth: int
    var pageHeight: int
    var drawLeftOffsetLine: bool
    var drawRightOffsetLine: bool
    var drawTopOffsetLine: bool
    var drawBottomOffsetLine: bool
    /** The error log (errorMessage): only ever appended to. */
    var errors: seq<Error>

    /** A new session: an empty log, pixel units, no flags, no members. */
    constructor ()
      ensures errors == [] && root == None && rootElements == None && units == PX
      ensures pageWidth == 0 && pageHeight == 0
      ensures !drawLeftOffsetLine && !drawRightOffsetLine && !drawTopOffsetLine && !drawBottomOffsetLine
    {
      root := None;
      rootElements := None;
      units := PX;
      pageWidth := 0;
      pageHeight := 0;
      drawLeftOffsetLine := false;
      drawRightOffsetLine := false;
      drawTopOffsetLine := false;
      drawBottomOffsetLine := false;
      errors := [];
    }

    /** putJsonDetailsWithoutElement: one record without an element. */
    method PutDetailsWithoutElement(kind: Kind)
      modifies this`errors
      ensures errors == old(errors) + [Error(kind, None)]
    {
      errors := errors + [Error(kind, None)];
    }

    /** putJsonDetailsWithElement: one record carrying the element's rectangle. */
    method PutDetailsWithElement(kind: Kind, e: Element)
      modifies this`errors
      ensures errors == old(errors) + [Error(kind, Some(e.rect))]
    {
      errors := errors + [Error(kind, Some(e.rect))];
    }

    /** getConvertedInt with the session's units and page size. */
    function ConvertedInt(i: int, horizontal: bool): int
      reads this`units, this`pageWidth, this`pageHeight
    {
      ToPixels(i, horizontal, units, pageWidth, pageHeight)
    }

    /** changeMetricsUnitsTo: only the unit mode changes, and the same session is returned. */
    method ChangeMetricsUnitsTo(u: Units) returns (self: ResponsiveUIValidator)
      modifies this`units
      ensures units == u && self == this
    {
      units := u;
      self := this;
    }

    /** validate: false without a root, otherwise true exactly when the log is empty. */
    method Validate() returns (ok: bool)
      ensures ok <==> root.Some? && errors == []
      ensures root.None? ==> !ok
    {
      if root.Some? {
        ok := errors == [];
      } else {
        ok := false;
      }
    }

    /** Raises the draw hint of one edge and leaves the other three alone. */
    method SetDrawFlag(edge: Edge)
      modifies this`drawLeftOffsetLine, this`drawRightOffsetLine, this`drawTopOffsetLine, this`drawBottomOffsetLine
      ensures drawLeftOffsetLine == (old(drawLeftOffsetLine) || edge == Left)
      ensures drawRightOffsetLine == (old(drawRightOffsetLine) || edge == Right)
      ensures drawTopOffsetLine == (old(drawTopOffsetLine) || edge == Top)
      ensures drawBottomOffsetLine == (old(drawBottomOffsetLine) || edge == Bottom)
    {
      match edge
      case Left => drawLeftOffsetLine := true;
      case Right => drawRightOffsetLine := true;
      case Top => drawTopOffsetLine := true;
      case Bottom => drawBottomOffsetLine := true;
    }

    // ----- root-relative rules -----

    /** validate{Left,Right,Top,Bottom}OffsetForElements. */
    method ValidateOffsetForElement(e: Element, edge: Edge)
      requires root.Some?
      modifies this`errors
      ensures errors == old(errors) + OffsetErrors(root.value, e, edge)
    {
      if !SameElement(e, root.value) {
        if EdgeOf(root.value.rect, edge) != EdgeOf(e.rect, edge) {
          PutDetailsWithElement(OffsetDiffers(edge), e);
        }
      }
    }

    /** validateNotOverlappingWithElements / validateOverlappingWithElements. */
    method ValidateOverlapWithElement(e: Element, expectOverlap: bool)
      requires root.Some?
      modifies this`errors
      ensures errors == old(errors) + OverlapErrors(root.value, e, expectOverlap)
    {
      if !SameElement(e, root.value) {
        var overlapped := Intersects(root.value.rect, e.rect);
        if expectOverlap && !overlapped {
          PutDetailsWithElement(NotOverlappedButShouldBe, e);
        } else if !expectOverlap && overlapped {
          PutDetailsWithElement(OverlappedButShouldNot, e);
        }
      }
    }

    /** validateSameWidth / validateSameHeight / validateSameSize(element). */
    method ValidateSameMeasure(e: Element, m: Measure)
      requires root.Some?
      modifies this`errors
      ensures errors == old(errors) + SameMeasureErrors(root.value, e, m)
    {
      if !SameElement(e, root.value) {
        if Differs(e.rect, root.value.rect, m) {
          PutDetailsWithElement(MeasureDiffers(m), e);
        }
      }
    }

    /** validateNotSameSize(element). */
    method ValidateNotSameSize(e: Element)
      requires root.Some?
      modifies this`errors
      ensures errors == old(errors) + NotSameSizeErrors(root.value, e)
    {
      if !SameElement(e, root.value) {
        var h, w := e.rect.height, e.rect.width;
        if h == root.value.rect.height && w == root.value.rect.width {
          PutDetailsWithElement(SameSize, e);
        }
      }
    }

    /** validateEqualLeftRightOffset(element) (horizontal) / validateEqualTopBottomOffset(element). */
    method ValidateEqualOffsets(e: Element, horizontal: bool)
      modifies this`errors
      ensures errors == old(errors) + EqualOffsetsErrors(e, horizontal, pageWidth, pageHeight)
    {
      if horizontal {
        if e.rect.x != RightOffset(e.rect, pageWidth) {
          PutDetailsWithElement(UnequalOffsets(true, e.rect.x, RightOffset(e.rect, pageWidth)), e);
        }
      } else {
        if e.rect.y != BottomOffset(e.rect, pageHeight) {
          PutDetailsWithElement(UnequalOffsets(false, e.rect.y, BottomOffset(e.rect, pageHeight)), e);
        }
      }
    }

    /** validateEqualLeftRightOffset(list) / validateEqualTopBottomOffset(list): each element in order. */
    method ValidateEqualOffsetsForAll(elems: seq<Element>, horizontal: bool)
      modifies this`errors
      ensures errors == old(errors) + ListErrors(EqualOffsets(horizontal), root, pageWidth, pageHeight, elems)
    {
      for i := 0 to |elems|
        invariant errors == old(errors) + ListErrors(EqualOffsets(horizontal), root, pageWidth, pageHeight, elems[..i])
      {
        ListErrorsStep(EqualOffsets(horizontal), root, pageWidth, pageHeight, elems, i);
        ValidateEqualOffsets(elems[i], horizontal);
      }
      assert elems[..|elems|] == elems;
    }

    /** The root-relative rule of a list form, applied to one element. */
    method ApplyRule(rule: ElementRule, e: Element)
      requires SkipsRoot(rule) && root.Some?
      modifies this`errors
      ensures errors == old(errors) + RuleErrors(rule, root, pageWidth, pageHeight, e)
    {
      match rule
      case NotOverlapping => ValidateOverlapWithElement(e, false);
      case Overlapping => ValidateOverlapWithElement(e, true);
      case SameOffset(edge) => ValidateOffsetForElement(e, edge);
      case SameMeasure(m) => ValidateSameMeasure(e, m);
      case NotSameSize => ValidateNotSameSize(e);
    }

    /** The list forms of the builder: one root-relative rule for each element, in list order. */
    method ApplyRuleToEach(rule: ElementRule, elems: seq<Element>)
      requires SkipsRoot(rule) && root.Some?
      modifies this`errors
      ensures errors == old(errors) + ListErrors(rule, root, pageWidth, pageHeight, elems)
    {
      for i := 0 to |elems|
        invariant errors == old(errors) + ListErrors(rule, root, pageWidth, pageHeight, elems[..i])
      {
        ListErrorsStep(rule, root, pageWidth, pageHeight, elems, i);
        ApplyRule(rule, elems[i]);
      }
      assert elems[..|elems|] == elems;
    }

    // ----- rules on the member list -----

    /**
      validateElementsAreNotOverlapped: for each element, the inner loop looks
      for another element that overlaps it and stops at the first, so each
      element is reported at most once.
     */
    method ValidateElementsAreNotOverlapped(elems: seq<Element>)
      modifies this`errors
      ensures errors == old(errors) + ListErrors(OverlapsNoOtherOf(elems), root, pageWidth, pageHeight, elems)
    {
      for i := 0 to |elems|
        invariant errors == old(errors) + ListErrors(OverlapsNoOtherOf(elems), root, pageWidth, pageHeight, elems[..i])
      {
        ListErrorsStep(OverlapsNoOtherOf(elems), root, pageWidth, pageHeight, elems, i);
        ReportIfOverlapsAnother(elems, elems[i]);
      }
      assert elems[..|elems|] == elems;
    }

    /** The inner loop: look for another element overlapping el1 and report el1 at the first one. */
    method ReportIfOverlapsAnother(elems: seq<Element>, el1: Element)
      modifies this`errors
      ensures errors == old(errors) + OverlapsAnotherErrors(elems, el1)
    {
      var j := 0;
      while j < |elems|
        invariant 0 <= j <= |elems| && errors == old(errors)
        invariant forall k :: 0 <= k < j ==> !(!SameElement(el1, elems[k]) && Intersects(el1.rect, elems[k].rect))
      {
        var el2 := elems[j];
        if !SameElement(el1, el2) {
          if Intersects(el1.rect, el2.rect) {
            PutDetailsWithElement(ElementsOverlapped, el1);
            return;
          }
        }
        j := j + 1;
      }
    }

    /**
      validateGridAlignment: count the elements per top coordinate in a map
      sorted by y, check the number of rows, then the size of each row in
      ascending y, tolerating the first wrong row.
     */
    method ValidateGridAlignment(columns: int, rows: int)
      modifies this`errors
      ensures errors == old(errors) + GridErrors(rootElements, columns, rows)
    {
      if rootElements.Some? {
        var table := CountRows(rootElements.value);
        ghost var before := errors;
        var mapSize := |table|;
        if rows > 0 {
          if mapSize != rows {
            PutDetailsWithoutElement(WrongRowCount(rows, mapSize));
          }
        }
        if columns > 0 {
          ValidateRowSizes(table, columns);
        }
        assert errors == before + TableErrors(table, columns, rows);
      }
    }

    /**
      The column loop of validateGridAlignment over the entries of the row
      map: a counter of wrong rows, and a report only once it exceeds 1.
     */
    method ValidateRowSizes(table: seq<Row>, columns: int)
      modifies this`errors
      ensures errors == old(errors) + ColumnScan(table, columns, 0, 1)
    {
      var mapSize := |table|;
      var errorLastLine: nat := 0;
      var rowCount := 1;
      var k := 0;
      while k < |table|
        invariant 0 <= k <= |table| && rowCount == k + 1
        invariant old(errors) + ColumnScan(table, columns, 0, 1) == errors + ColumnScan(table[k..], columns, errorLastLine, rowCount)
      {
        assert table[k..][1..] == table[k + 1..];
        if rowCount <= mapSize {
          var actualInARow := table[k].count;
          if actualInARow != columns {
            errorLastLine := errorLastLine + 1;
            if errorLastLine > 1 {
              PutDetailsWithoutElement(WrongColumnCount(rowCount, columns, actualInARow));
            }
          }
          rowCount := rowCount + 1;
        }
        k := k + 1;
      }
      assert table[k..] == [];
    }

    /** validate{Right,Left,Top,Bottom}OffsetForChunk: consecutive pairs, the error on the second. */
    method ValidateOffsetForChunk(elems: seq<Element>, edge: Edge)
      modifies this`errors
      ensures errors == old(errors) + ChunkOffsetErrors(elems, edge, 0)
    {
      var i: nat := 0;
      while i < |elems| - 1
        invariant i <= |elems|
        invariant old(errors) + ChunkOffsetErrors(elems, edge, 0) == errors + ChunkOffsetErrors(elems, edge, i)
        decreases |elems| - i
      {
        if EdgeOf(elems[i].rect, edge) != EdgeOf(elems[i + 1].rect, edge) {
          PutDetailsWithElement(ChunkOffsetDiffers(edge, i), elems[i + 1]);
        }
        i := i + 1;
      }
    }

    /**
      validateSameSize(list, type) (expectSame) and validateNotSameSize(list,
      type): for each consecutive pair the type selects the measure, and a
      failing pair reports both of its elements.
     */
    method ValidateSizeForChunk(elems: seq<Element>, t: int, expectSame: bool)
      modifies this`errors
      ensures errors == old(errors) + ChunkSizeErrors(elems, t, expectSame, 0)
    {
      var i: nat := 0;
      while i < |elems| - 1
        invariant i <= |elems|
        invariant old(errors) + ChunkSizeErrors(elems, t, expectSame, 0) == errors + ChunkSizeErrors(elems, t, expectSame, i)
        decreases |elems| - i
      {
        ValidatePairSize(elems, t, expectSame, i);
        i := i + 1;
      }
    }

    /** One iteration of the size list rules: compare elements i and i+1 and report both on failure. */
    method ValidatePairSize(elems: seq<Element>, t: int, expectSame: bool, i: nat)
      requires i + 1 < |elems|
      modifies this`errors
      ensures errors == old(errors) + PairSizeStep(elems, t, expectSame, i)
    {
      match MeasureOfType(t) {
        case None =>
        case Some(m) =>
          if Differs(elems[i].rect, elems[i + 1].rect, m) == expectSame {
            if expectSame {
              PutDetailsWithElement(ChunkMeasureDiffers(m, i), elems[i]);
              PutDetailsWithElement(ChunkMeasureDiffers(m, i + 1), elems[i + 1]);
            } else {
              PutDetailsWithElement(ChunkMeasureSame(m, i), elems[i]);
              PutDetailsWithElement(ChunkMeasureSame(m, i + 1), elems[i + 1]);
            }
          }
      }
    }

    // ----- min / max rules on the root -----

    /** validateMaxOffset (Max) / validateMinOffset (Min): left, top, right, bottom in that order. */
    method ValidateOffsetLimits(bound: Bound, top: int, right: int, bottom: int, left: int)
      requires root.Some?
      modifies this`errors
      ensures errors == old(errors) + OffsetLimitErrors(bound, root.value.rect, pageWidth, pageHeight, top, right, bottom, left)
    {
      ghost var r := root.value.rect;
      ValidateSideLimit(bound, Left, left);
      ValidateSideLimit(bound, Top, top);
      ValidateSideLimit(bound, Right, right);
      ValidateSideLimit(bound, Bottom, bottom);
      assert errors == old(errors) + (SideLimitErrors(bound, r, Left, left, pageWidth, pageHeight)
        + SideLimitErrors(bound, r, Top, top, pageWidth, pageHeight)
        + SideLimitErrors(bound, r, Right, right, pageWidth, pageHeight)
        + SideLimitErrors(bound, r, Bottom, bottom, pageWidth, pageHeight));
    }

    /** One comparison of validateMin/MaxOffset: the page offset of one edge against its limit. */
    method ValidateSideLimit(bound: Bound, edge: Edge, limit: int)
      requires root.Some?
      modifies this`errors
      ensures errors == old(errors) + SideLimitErrors(bound, root.value.rect, edge, limit, pageWidth, pageHeight)
    {
      var actual := OffsetOf(root.value.rect, edge, pageWidth, pageHeight);
      if Violates(bound, actual, limit) {
        PutDetailsWithoutElement(OffsetOutOfBound(bound, edge, limit, actual));
      }
    }

    /** validateMin/MaxWidth and validateMin/MaxHeight. */
    method ValidateSizeLimit(bound: Bound, dim: Dim, limit: int)
      requires root.Some?
      modifies this`errors
      ensures errors == old(errors) + SizeLimitErrors(bound, dim, root.value.rect, limit)
    {
      var actual := DimOf(root.value.rect, dim);
      if Violates(bound, actual, limit) {
        PutDetailsWithoutElement(DimOutOfBound(bound, dim, limit, actual));
      }
    }

    // ----- neighbours -----

    /** validateBelowElement / validateAboveElement / validateRightElement / validateLeftElement with margins. */
    method ValidateNeighbour(side: Edge, e: Element, minMargin: int, maxMargin: int)
      requires root.Some?
      modifies this`errors
      ensures errors == old(errors) + MarginErrors(side, root.value, e, minMargin, maxMargin)
    {
      var margin := Gap(side, root.value.rect, e.rect);
      if margin < minMargin || margin > maxMargin {
        PutDetailsWithElement(MarginOutOfRange(side, minMargin, maxMargin, margin), e);
      }
    }

    /**
      The margin-less neighbour rules; `aligned` is the page checker's
      verdict on the root and the neighbour.
     */
    method ValidateNeighbourAligned(side: Edge, aligned: bool)
      modifies this`errors
      ensures errors == old(errors) + AlignmentErrors(side, aligned)
    {
      if !aligned {
        PutDetailsWithoutElement(NotAligned(side));
      }
    }

    // ----- containment -----

    /**
      validateInsideOfContainer: the root must lie inside the container
      when there is no member list, otherwise every member must.
     */
    method ValidateInsideOfContainer(container: Element)
      requires (rootElements.None? || rootElements.value == []) ==> root.Some?
      modifies this`errors
      ensures errors == old(errors) + InsideErrors(root, rootElements, container)
    {
      if rootElements.None? || rootElements.value == [] {
        if !Contains(container.rect, root.value.rect) {
          PutDetailsWithElement(NotInside, container);
        }
      } else {
        ReportMembersOutside(container, rootElements.value);
      }
    }

    /** The loop over the member list: every member the container does not hold is reported. */
    method ReportMembersOutside(container: Element, elems: seq<Element>)
      modifies this`errors
      ensures errors == old(errors) + ListErrors(InsideOf(container), root, 0, 0, elems)
    {
      for i := 0 to |elems|
        invariant errors == old(errors) + ListErrors(InsideOf(container), root, 0, 0, elems[..i])
      {
        ListErrorsStep(InsideOf(container), root, 0, 0, elems, i);
        if !Contains(container.rect, elems[i].rect) {
          PutDetailsWithElement(NotInside, container);
        }
      }
      assert elems[..|elems|] == elems;
    }

    /**
      validateInsideOfContainer with padding: the requested padding is
      converted side by side on its own axis, then the container must hold
      the root expanded by it.
     */
    method ValidateInsideOfPadded(container: Element, padding: Padding)
      requires root.Some?
      modifies this`errors
      ensures errors == old(errors) + PaddingErrors(root.value, container, ConvertPadding(padding, units, pageWidth, pageHeight))
    {
      var top := ConvertedInt(padding.top, false);
      var right := ConvertedInt(padding.right, true);
      var bottom := ConvertedInt(padding.bottom, false);
      var left := ConvertedInt(padding.left, true);
      var r := root.value.rect;
      var padded := Rect(r.x - left, r.y - top, r.width + left + right, r.height + top + bottom);
      var observed := Padding(r.y - container.rect.y, container.rect.Right() - r.Right(),
                              container.rect.Bottom() - r.Bottom(), r.x - container.rect.x);
      if !Contains(container.rect, padded) {
        PutDetailsWithElement(PaddingIncorrect(Padding(top, right, bottom, left), observed), container);
      }
    }
  }
}
