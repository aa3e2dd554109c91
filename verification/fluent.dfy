/**
  The fluent builder (UIValidator): each call converts its arguments with the
  session's unit mode, picking the axis the rule measures on, runs one rule
  of the session, possibly raises a draw hint, and returns the same builder.
 */
module Fluent {
  import opened Wrappers
  import opened Units
  import opened Layout
  import opened Rules
  import opened Responsive

  /** Margins to a left or right neighbour are horizontal distances; above or below, vertical. */
  predicate HorizontalSide(side: Edge)
  {
    side == Left || side == Right
  }

  /**
    The guard of minOffset / maxOffset: every converted limit lies strictly
    above the sentinel. Top and bottom convert vertically, left and right
    horizontally.
   */
  predicate OffsetGuard(units: Units, pageWidth: int, pageHeight: int, top: int, right: int, bottom: int, left: int)
    // in pixels the guard compares the given limits themselves
    ensures units == PX ==>
              (OffsetGuard(units, pageWidth, pageHeight, top, right, bottom, left) <==>
                 top > MinOffset && right > MinOffset && bottom > MinOffset && left > MinOffset)
  {
    && ToPixels(top, false, units, pageWidth, pageHeight) > MinOffset
    && ToPixels(right, true, units, pageWidth, pageHeight) > MinOffset
    && ToPixels(bottom, false, units, pageWidth, pageHeight) > MinOffset
    && ToPixels(left, true, units, pageWidth, pageHeight) > MinOffset
  }

  /**
    Passing the sentinel for any one side switches off all four checks: in
    pixels always, in percent whenever the page is at least 100px on that
    side's axis.
   */
  lemma SentinelSwitchesOffAllSides(units: Units, pageWidth: int, pageHeight: int, top: int, right: int, bottom: int, left: int)
    requires || (top <= MinOffset && (units == PERCENT ==> pageHeight >= 100))
             || (right <= MinOffset && (units == PERCENT ==> pageWidth >= 100))
             || (bottom <= MinOffset && (units == PERCENT ==> pageHeight >= 100))
             || (left <= MinOffset && (units == PERCENT ==> pageWidth >= 100))
    ensures !OffsetGuard(units, pageWidth, pageHeight, top, right, bottom, left)
  {
    if units == PERCENT {
      if top <= MinOffset && pageHeight >= 100 { PercentOfSentinel(top, pageHeight); }
      else if right <= MinOffset && pageWidth >= 100 { PercentOfSentinel(right, pageWidth); }
      else if bottom <= MinOffset && pageHeight >= 100 { PercentOfSentinel(bottom, pageHeight); }
      else { PercentOfSentinel(left, pageWidth); }
    }
  }

  /** A percentage at or below the sentinel, of an extent of at least 100px, stays at or below it. */
  lemma PercentOfSentinel(i: int, extent: int)
    requires i <= MinOffset && extent >= 100
    ensures JavaDiv100(i * extent) <= MinOffset
  {
    MultiplyMonotone(i, MinOffset, extent);
    MultiplyMonotone(100, extent, 10000);
    JavaDiv100Monotone(i * extent, MinOffset * 100);
  }

  /** On a page narrower than 100px, -10000 percent converts to more than the sentinel, so the check still runs. */
  lemma SentinelInPercentOnNarrowPage()
    ensures ToPixels(MinOffset, true, PERCENT, 50, 800) == -5000
    ensures OffsetGuard(PERCENT, 50, 800, 0, MinOffset, 0, 0)
  {
  }

  class UIValidator {
    /** The session the builder drives; the builder itself holds no other state. */
    const session: ResponsiveUIValidator

    /** A root element is set, which every root-relative rule needs. */
    predicate Valid()
      reads session
    {
      session.root.Some?
    }

    /**
      A new builder for one element: a fresh session with an empty log, the
      element as root and the page size the driver reports.
     */
    constructor (element: Element, pageWidth: int, pageHeight: int)
      ensures fresh(session) && Valid()
      ensures session.root == Some(element) && session.rootElements == None
      ensures session.pageWidth == pageWidth && session.pageHeight == pageHeight
      ensures session.errors == [] && session.units == PX
      ensures !session.drawLeftOffsetLine && !session.drawRightOffsetLine
      ensures !session.drawTopOffsetLine && !session.drawBottomOffsetLine
    {
      var s := new ResponsiveUIValidator();
      s.root := Some(element);
      s.pageWidth := pageWidth;
      s.pageHeight := pageHeight;
      session := s;
    }

    /** changeMetricsUnitsTo: only the unit mode changes; the same builder is returned. */
    method ChangeMetricsUnitsTo(u: Units) returns (self: UIValidator)
      modifies session`units
      ensures session.units == u && self == this
    {
      var _ := session.ChangeMetricsUnitsTo(u);
      self := this;
    }

    /**
      with{Left,Right,Top,Bottom}Element(element): `aligned` is the page
      checker's verdict on the root and the neighbour.
     */
    method WithNeighbourAligned(side: Edge, aligned: bool) returns (self: UIValidator)
      modifies session`errors
      ensures session.errors == old(session.errors) + AlignmentErrors(side, aligned)
      ensures self == this
    {
      session.ValidateNeighbourAligned(side, aligned);
      self := this;
    }

    /**
      with{Left,Right,Top,Bottom}Element(element, minMargin, maxMargin): both
      margins are converted on the axis the gap is measured on.
     */
    method WithNeighbour(side: Edge, e: Element, minMargin: int, maxMargin: int) returns (self: UIValidator)
      requires Valid()
      modifies session`errors
      ensures session.errors == old(session.errors) + MarginErrors(side, session.root.value, e,
                ToPixels(minMargin, HorizontalSide(side), session.units, session.pageWidth, session.pageHeight),
                ToPixels(maxMargin, HorizontalSide(side), session.units, session.pageWidth, session.pageHeight))
      ensures self == this
    {
      var horizontal := side == Left || side == Right;
      session.ValidateNeighbour(side, e, session.ConvertedInt(minMargin, horizontal), session.ConvertedInt(maxMargin, horizontal));
      self := this;
    }

    /** notOverlapWith(element) (expectOverlap false) / overlapWith(element). */
    method OverlapWith(e: Element, expectOverlap: bool) returns (self: UIValidator)
      requires Valid()
      modifies session`errors
      ensures session.errors == old(session.errors) + OverlapErrors(session.root.value, e, expectOverlap)
      ensures self == this
    {
      session.ValidateOverlapWithElement(e, expectOverlap);
      self := this;
    }

    /** notOverlapWith(list): the single-element rule for each element in order. */
    method NotOverlapWithAll(elems: seq<Element>) returns (self: UIValidator)
      requires Valid()
      modifies session`errors
      ensures session.errors == old(session.errors) + ListErrors(NotOverlapping, session.root, session.pageWidth, session.pageHeight, elems)
      ensures self == this
    {
      session.ApplyRuleToEach(NotOverlapping, elems);
      self := this;
    }

    /** sameOffset{Left,Right,Top,Bottom}As(element): the rule, then that edge's draw hint. */
    method SameOffsetAs(edge: Edge, e: Element) returns (self: UIValidator)
      requires Valid()
      modifies session`errors, session`drawLeftOffsetLine, session`drawRightOffsetLine, session`drawTopOffsetLine, session`drawBottomOffsetLine
      ensures session.errors == old(session.errors) + OffsetErrors(session.root.value, e, edge)
      ensures session.drawLeftOffsetLine == (old(session.drawLeftOffsetLine) || edge == Left)
      ensures session.drawRightOffsetLine == (old(session.drawRightOffsetLine) || edge == Right)
      ensures session.drawTopOffsetLine == (old(session.drawTopOffsetLine) || edge == Top)
      ensures session.drawBottomOffsetLine == (old(session.drawBottomOffsetLine) || edge == Bottom)
      ensures self == this
    {
      session.ValidateOffsetForElement(e, edge);
      session.SetDrawFlag(edge);
      self := this;
    }

    /** sameOffset{Left,Right,Top,Bottom}As(list): the rule for each element, then the draw hint once. */
    method SameOffsetAsAll(edge: Edge, elems: seq<Element>) returns (self: UIValidator)
      requires Valid()
      modifies session`errors, session`drawLeftOffsetLine, session`drawRightOffsetLine, session`drawTopOffsetLine, session`drawBottomOffsetLine
      ensures session.errors == old(session.errors) + ListErrors(SameOffset(edge), session.root, session.pageWidth, session.pageHeight, elems)
      ensures session.drawLeftOffsetLine == (old(session.drawLeftOffsetLine) || edge == Left)
      ensures session.drawRightOffsetLine == (old(session.drawRightOffsetLine) || edge == Right)
      ensures session.drawTopOffsetLine == (old(session.drawTopOffsetLine) || edge == Top)
      ensures session.drawBottomOffsetLine == (old(session.drawBottomOffsetLine) || edge == Bottom)
      ensures self == this
    {
      session.ApplyRuleToEach(SameOffset(edge), elems);
      session.SetDrawFlag(edge);
      self := this;
    }

    /** sameWidthAs / sameHeightAs / sameSizeAs(element). */
    method SameMeasureAs(m: Measure, e: Element) returns (self: UIValidator)
      requires Valid()
      modifies session`errors
      ensures session.errors == old(session.errors) + SameMeasureErrors(session.root.value, e, m)
      ensures self == this
    {
      session.ValidateSameMeasure(e, m);
      self := this;
    }

    /** sameWidthAs / sameHeightAs / sameSizeAs(list). */
    method SameMeasureAsAll(m: Measure, elems: seq<Element>) returns (self: UIValidator)
      requires Valid()
      modifies session`errors
      ensures session.errors == old(session.errors) + ListErrors(SameMeasure(m), session.root, session.pageWidth, session.pageHeight, elems)
      ensures self == this
    {
      session.ApplyRuleToEach(SameMeasure(m), elems);
      self := this;
    }

    /** notSameSizeAs(element). */
    method NotSameSizeAs(e: Element) returns (self: UIValidator)
      requires Valid()
      modifies session`errors
      ensures session.errors == old(session.errors) + NotSameSizeErrors(session.root.value, e)
      ensures self == this
    {
      session.ValidateNotSameSize(e);
      self := this;
    }

    /** notSameSizeAs(list). */
    method NotSameSizeAsAll(elems: seq<Element>) returns (self: UIValidator)
      requires Valid()
      modifies session`errors
      ensures session.errors == old(session.errors) + ListErrors(NotSameSize, session.root, session.pageWidth, session.pageHeight, elems)
      ensures self == this
    {
      session.ApplyRuleToEach(NotSameSize, elems);
      self := this;
    }

    /** minWidth / maxWidth / minHeight / maxHeight: the limit converted on the measure's own axis. */
    method SizeLimit(bound: Bound, dim: Dim, limit: int) returns (self: UIValidator)
      requires Valid()
      modifies session`errors
      ensures session.errors == old(session.errors) + SizeLimitErrors(bound, dim, session.root.value.rect,
                ToPixels(limit, dim == Width, session.units, session.pageWidth, session.pageHeight))
      ensures self == this
    {
      session.ValidateSizeLimit(bound, dim, session.ConvertedInt(limit, dim == Width));
      self := this;
    }

    /** widthBetween / heightBetween: the minimum check, then the maximum check. */
    method SizeBetween(dim: Dim, minLimit: int, maxLimit: int) returns (self: UIValidator)
      requires Valid()
      modifies session`errors
      ensures session.errors == old(session.errors) + BetweenErrors(dim, session.root.value.rect,
                ToPixels(minLimit, dim == Width, session.units, session.pageWidth, session.pageHeight),
                ToPixels(maxLimit, dim == Width, session.units, session.pageWidth, session.pageHeight))
      ensures self == this
    {
      session.ValidateSizeLimit(Min, dim, session.ConvertedInt(minLimit, dim == Width));
      session.ValidateSizeLimit(Max, dim, session.ConvertedInt(maxLimit, dim == Width));
      self := this;
    }

    /**
      minOffset (Min) / maxOffset (Max): nothing at all unless every
      converted limit is above the sentinel; then the four-sided check.
     */
    method OffsetLimit(bound: Bound, top: int, right: int, bottom: int, left: int) returns (self: UIValidator)
      requires Valid()
      modifies session`errors
      ensures session.errors == old(session.errors) +
                if OffsetGuard(session.units, session.pageWidth, session.pageHeight, top, right, bottom, left) then
                  OffsetLimitErrors(bound, session.root.value.rect, session.pageWidth, session.pageHeight,
                    ToPixels(top, false, session.units, session.pageWidth, session.pageHeight),
                    ToPixels(right, true, session.units, session.pageWidth, session.pageHeight),
                    ToPixels(bottom, false, session.units, session.pageWidth, session.pageHeight),
                    ToPixels(left, true, session.units, session.pageWidth, session.pageHeight))
                else []
      ensures self == this
    {
      if session.ConvertedInt(top, false) > MinOffset && session.ConvertedInt(right, true) > MinOffset
         && session.ConvertedInt(bottom, false) > MinOffset && session.ConvertedInt(left, true) > MinOffset {
        session.ValidateOffsetLimits(bound, session.ConvertedInt(top, false), session.ConvertedInt(right, true),
                                     session.ConvertedInt(bottom, false), session.ConvertedInt(left, true));
      }
      self := this;
    }

    /**
      withCssValue (expectPresent) / withoutCssValue. `cssValue` is what the
      element reports for the property, `found` the text matcher and
      `toArgb` the hex colour converter.
     */
    method CssValues(expectPresent: bool, cssValue: string, args: seq<string>,
                     found: (string, string) -> bool, toArgb: string -> string) returns (self: UIValidator)
      modifies session`errors
      ensures session.errors == old(session.errors) + CssErrors(expectPresent, cssValue, args, found, toArgb)
      ensures self == this
    {
      if cssValue != "" {
        CheckCssArguments(expectPresent, cssValue, args, found, toArgb);
      } else {
        session.PutDetailsWithoutElement(CssPropertyMissing);
      }
      self := this;
    }

    /** The argument loop of withCssValue / withoutCssValue, in argument order. */
    method CheckCssArguments(expectPresent: bool, cssValue: string, args: seq<string>,
                             found: (string, string) -> bool, toArgb: string -> string)
      modifies session`errors
      ensures session.errors == old(session.errors) + CssArgsErrors(expectPresent, cssValue, args, found, toArgb)
    {
      for i := 0 to |args|
        invariant session.errors == old(session.errors) + CssArgsErrors(expectPresent, cssValue, args[..i], found, toArgb)
      {
        CssArgsErrorsStep(expectPresent, cssValue, args, found, toArgb, i);
        CheckCssArgument(expectPresent, cssValue, args[i], found, toArgb);
      }
      assert args[..|args|] == args;
    }

    /** One argument of withCssValue / withoutCssValue: a hex colour is converted, then looked up. */
    method CheckCssArgument(expectPresent: bool, cssValue: string, arg: string,
                            found: (string, string) -> bool, toArgb: string -> string)
      modifies session`errors
      ensures session.errors == old(session.errors) + CssArgErrors(expectPresent, cssValue, arg, found, toArgb)
    {
      var val := if |arg| > 0 && arg[0] == '#' then toArgb(arg) else arg;
      if expectPresent && !found(val, cssValue) {
        session.PutDetailsWithoutElement(CssValueNotFound(val));
      } else if !expectPresent && found(val, cssValue) {
        session.PutDetailsWithoutElement(CssValueFound(val));
      }
    }

    /** equalLeftRightOffset (horizontal) / equalTopBottomOffset, on the root. */
    method EqualOffsets(horizontal: bool) returns (self: UIValidator)
      requires Valid()
      modifies session`errors
      ensures session.errors == old(session.errors) + EqualOffsetsErrors(session.root.value, horizontal, session.pageWidth, session.pageHeight)
      ensures self == this
    {
      session.ValidateEqualOffsets(session.root.value, horizontal);
      self := this;
    }

    /** insideOf(container). */
    method InsideOf(container: Element) returns (self: UIValidator)
      requires Valid()
      modifies session`errors
      ensures session.errors == old(session.errors) + InsideErrors(session.root, session.rootElements, container)
      ensures self == this
    {
      session.ValidateInsideOfContainer(container);
      self := this;
    }

    /** insideOf(container, padding). */
    method InsideOfPadded(container: Element, padding: Padding) returns (self: UIValidator)
      requires Valid()
      modifies session`errors
      ensures session.errors == old(session.errors) +
                PaddingErrors(session.root.value, container, ConvertPadding(padding, session.units, session.pageWidth, session.pageHeight))
      ensures self == this
    {
      session.ValidateInsideOfPadded(container, padding);
      self := this;
    }
  }

  /**
    A whole session: a new builder for `root`, two rules against `other`,
    then validate. The verdict is true exactly when neither rule appended
    anything, since the log starts empty and rules only append.
   */
  method TopAlignedAndApart(root: Element, other: Element, pageWidth: int, pageHeight: int) returns (ok: bool)
    ensures ok <==> OffsetErrors(root, other, Top) == [] && OverlapErrors(root, other, false) == []
  {
    var v := new UIValidator(root, pageWidth, pageHeight);
    var _ := v.SameOffsetAs(Top, other);
    var _ := v.OverlapWith(other, false);
    ok := v.session.Validate();
  }
}
