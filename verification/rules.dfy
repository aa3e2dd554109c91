/**
  The rule family of ResponsiveUIValidator as pure functions: for each rule,
  the exact sequence of error records one call appends to the log. The
  session methods in module Responsive append exactly these.
 */
module Rules {
  import opened Wrappers
  import opened Rectangles
  import opened Units
  import opened Layout

  // ----- rules that compare one element with the root -----

  /** validate{Left,Right,Top,Bottom}OffsetForElements: the element must share the root's edge. */
  function OffsetErrors(root: Element, e: Element, edge: Edge): (r: seq<Error>)
    ensures r == [] <==> SameElement(e, root) || EdgeOf(root.rect, edge) == EdgeOf(e.rect, edge)
    ensures r != [] ==> r == [Error(OffsetDiffers(edge), Some(e.rect))]
  {
    if !SameElement(e, root) && EdgeOf(root.rect, edge) != EdgeOf(e.rect, edge) then
      [Error(OffsetDiffers(edge), Some(e.rect))]
    else
      []
  }

  /**
    The offset rules are named after page offsets but compare edge
    coordinates; on any page the two readings agree: no record iff the
    element is the root or has the root's offset from that page edge.
   */
  lemma OffsetRuleComparesPageOffsets(root: Element, e: Element, edge: Edge, pageWidth: int, pageHeight: int)
    ensures OffsetErrors(root, e, edge) == [] <==>
              SameElement(e, root) || OffsetOf(root.rect, edge, pageWidth, pageHeight) == OffsetOf(e.rect, edge, pageWidth, pageHeight)
  {
  }

  /**
    validateNotOverlappingWithElements (expectOverlap false) and
    validateOverlappingWithElements (expectOverlap true).
   */
  function OverlapErrors(root: Element, e: Element, expectOverlap: bool): (r: seq<Error>)
    ensures r == [] <==> SameElement(e, root) || Intersects(root.rect, e.rect) == expectOverlap
    ensures r != [] ==> r == [Error(if expectOverlap then NotOverlappedButShouldBe else OverlappedButShouldNot, Some(e.rect))]
  {
    if SameElement(e, root) then []
    else if expectOverlap && !Intersects(root.rect, e.rect) then [Error(NotOverlappedButShouldBe, Some(e.rect))]
    else if !expectOverlap && Intersects(root.rect, e.rect) then [Error(OverlappedButShouldNot, Some(e.rect))]
    else []
  }

  /** An element that only touches the root passes notOverlapWith and fails overlapWith. */
  lemma TouchingNeighbourIsNotOverlapping(root: Element, e: Element)
    requires !SameElement(e, root)
    requires || root.rect.Right() == e.rect.x || e.rect.Right() == root.rect.x
             || root.rect.Bottom() == e.rect.y || e.rect.Bottom() == root.rect.y
    ensures OverlapErrors(root, e, false) == []
    ensures OverlapErrors(root, e, true) == [Error(NotOverlappedButShouldBe, Some(e.rect))]
  {
    TouchingRectanglesDoNotOverlap(root.rect, e.rect);
  }

  /** validateSameWidth, validateSameHeight, validateSameSize. */
  function SameMeasureErrors(root: Element, e: Element, m: Measure): (r: seq<Error>)
    ensures r == [] <==> SameElement(e, root) || !Differs(root.rect, e.rect, m)
    ensures r != [] ==> r == [Error(MeasureDiffers(m), Some(e.rect))]
  {
    if !SameElement(e, root) && Differs(e.rect, root.rect, m) then [Error(MeasureDiffers(m), Some(e.rect))] else []
  }

  /** validateNotSameSize(element): an error when width and height both equal the root's. */
  function NotSameSizeErrors(root: Element, e: Element): (r: seq<Error>)
    ensures r == [] <==> SameElement(e, root) || Differs(root.rect, e.rect, SizeBoth)
    ensures r != [] ==> r == [Error(SameSize, Some(e.rect))]
  {
    if !SameElement(e, root) && e.rect.height == root.rect.height && e.rect.width == root.rect.width then
      [Error(SameSize, Some(e.rect))]
    else
      []
  }

  /**
    validateEqualLeftRightOffset (horizontal) and validateEqualTopBottomOffset:
    the element passes exactly when it is centred on the page along the axis.
   */
  function EqualOffsetsErrors(e: Element, horizontal: bool, pageWidth: int, pageHeight: int): (r: seq<Error>)
    ensures horizontal ==> (r == [] <==> 2 * e.rect.x + e.rect.width == pageWidth)
    ensures !horizontal ==> (r == [] <==> 2 * e.rect.y + e.rect.height == pageHeight)
    ensures r != [] ==> |r| == 1 && r[0].at == Some(e.rect)
    ensures horizontal && r != [] ==> r == [Error(UnequalOffsets(true, e.rect.x, RightOffset(e.rect, pageWidth)), Some(e.rect))]
    ensures !horizontal && r != [] ==> r == [Error(UnequalOffsets(false, e.rect.y, BottomOffset(e.rect, pageHeight)), Some(e.rect))]
  {
    if horizontal then
      if e.rect.x != RightOffset(e.rect, pageWidth) then
        [Error(UnequalOffsets(true, e.rect.x, RightOffset(e.rect, pageWidth)), Some(e.rect))]
      else []
    else
      if e.rect.y != BottomOffset(e.rect, pageHeight) then
        [Error(UnequalOffsets(false, e.rect.y, BottomOffset(e.rect, pageHeight)), Some(e.rect))]
      else []
  }

  /** One member of validateInsideOfContainer: the error is attached to the container. */
  function NotInsideErrors(container: Element, e: Element): (r: seq<Error>)
    ensures r == [] <==> Contains(container.rect, e.rect)
    ensures r != [] ==> r == [Error(NotInside, Some(container.rect))]
  {
    if !Contains(container.rect, e.rect) then [Error(NotInside, Some(container.rect))] else []
  }

  /** Some other element of the list (by identity) overlaps e. */
  predicate OverlapsAnother(all: seq<Element>, e: Element)
  {
    exists k :: 0 <= k < |all| && !SameElement(e, all[k]) && Intersects(e.rect, all[k].rect)
  }

  /** One pass of the outer loop of validateElementsAreNotOverlapped: at most one error, on e. */
  function OverlapsAnotherErrors(all: seq<Element>, e: Element): (r: seq<Error>)
    ensures r == [] <==> !OverlapsAnother(all, e)
    ensures r != [] ==> r == [Error(ElementsOverlapped, Some(e.rect))]
  {
    if OverlapsAnother(all, e) then [Error(ElementsOverlapped, Some(e.rect))] else []
  }

  // ----- the same rules applied to each element of a list -----

  /** A one-element rule, as the list forms apply it to each element in turn. */
  datatype ElementRule =
    | NotOverlapping
    | Overlapping
    | SameOffset(edge: Edge)
    | SameMeasure(measure: Measure)
    | NotSameSize
    | EqualOffsets(horizontal: bool)
    | InsideOf(container: Element)
    | OverlapsNoOtherOf(all: seq<Element>)

  /** The rules measured against the root, which skip the root element itself. */
  predicate SkipsRoot(rule: ElementRule)
  {
    rule.NotOverlapping? || rule.Overlapping? || rule.SameOffset? || rule.SameMeasure? || rule.NotSameSize?
  }

  /** The errors one element rule appends for one element. */
  function RuleErrors(rule: ElementRule, root: Option<Element>, pageWidth: int, pageHeight: int, e: Element): (r: seq<Error>)
    requires SkipsRoot(rule) ==> root.Some?
    ensures |r| <= 1
    ensures SkipsRoot(rule) && SameElement(e, root.value) ==> r == []
    ensures r != [] ==> r[0].at == Some(if rule.InsideOf? then rule.container.rect else e.rect)
  {
    match rule
    case NotOverlapping => OverlapErrors(root.value, e, false)
    case Overlapping => OverlapErrors(root.value, e, true)
    case SameOffset(edge) => OffsetErrors(root.value, e, edge)
    case SameMeasure(m) => SameMeasureErrors(root.value, e, m)
    case NotSameSize => NotSameSizeErrors(root.value, e)
    case EqualOffsets(horizontal) => EqualOffsetsErrors(e, horizontal, pageWidth, pageHeight)
    case InsideOf(container) => NotInsideErrors(container, e)
    case OverlapsNoOtherOf(all) => OverlapsAnotherErrors(all, e)
  }

  /** The errors of applying a rule to each element of a list, in list order. */
  function ListErrors(rule: ElementRule, root: Option<Element>, pageWidth: int, pageHeight: int, elems: seq<Element>): seq<Error>
    requires SkipsRoot(rule) ==> root.Some?
    decreases |elems|
  {
    if elems == [] then []
    else ListErrors(rule, root, pageWidth, pageHeight, elems[..|elems| - 1]) + RuleErrors(rule, root, pageWidth, pageHeight, elems[|elems| - 1])
  }

  /** One more element of the list adds that element's errors at the end. */
  lemma ListErrorsStep(rule: ElementRule, root: Option<Element>, pageWidth: int, pageHeight: int, elems: seq<Element>, i: nat)
    requires SkipsRoot(rule) ==> root.Some?
    requires i < |elems|
    ensures ListErrors(rule, root, pageWidth, pageHeight, elems[..i + 1])
            == ListErrors(rule, root, pageWidth, pageHeight, elems[..i]) + RuleErrors(rule, root, pageWidth, pageHeight, elems[i])
  {
    assert elems[..i + 1][..i] == elems[..i];
  }

  /**
    A list form appends at most one error per element, and none at all
    exactly when every element passes the one-element rule.
   */
  lemma {:induction false} ListErrorsPerElement(rule: ElementRule, root: Option<Element>, pageWidth: int, pageHeight: int, elems: seq<Element>)
    requires SkipsRoot(rule) ==> root.Some?
    ensures |ListErrors(rule, root, pageWidth, pageHeight, elems)| <= |elems|
    ensures ListErrors(rule, root, pageWidth, pageHeight, elems) == [] <==>
              forall k :: 0 <= k < |elems| ==> RuleErrors(rule, root, pageWidth, pageHeight, elems[k]) == []
    decreases |elems|
  {
    if elems != [] {
      var init := elems[..|elems| - 1];
      var last := RuleErrors(rule, root, pageWidth, pageHeight, elems[|elems| - 1]);
      ListErrorsPerElement(rule, root, pageWidth, pageHeight, init);
      assert ListErrors(rule, root, pageWidth, pageHeight, elems) == ListErrors(rule, root, pageWidth, pageHeight, init) + last;
      assert forall k :: 0 <= k < |init| ==> init[k] == elems[k];
      if forall k :: 0 <= k < |elems| ==> RuleErrors(rule, root, pageWidth, pageHeight, elems[k]) == [] {
        assert forall k :: 0 <= k < |init| ==> RuleErrors(rule, root, pageWidth, pageHeight, init[k]) == [];
      }
    }
  }

  /** The members of a list that are not the root, in order. */
  function Others(elems: seq<Element>, root: Element): (r: seq<Element>)
    ensures forall k :: 0 <= k < |r| ==> !SameElement(r[k], root)
    ensures forall x :: x in r ==> x in elems
    ensures forall k :: 0 <= k < |elems| && !SameElement(elems[k], root) ==> elems[k] in r
    decreases |elems|
  {
    if elems == [] then []
    else
      var init := elems[..|elems| - 1];
      assert forall k :: 0 <= k < |init| ==> init[k] == elems[k];
      Others(init, root) + (if SameElement(elems[|elems| - 1], root) then [] else [elems[|elems| - 1]])
  }

  /** In a root-relative list form, members that are the root contribute nothing. */
  lemma {:induction false} RootMembersContributeNothing(rule: ElementRule, root: Element, pageWidth: int, pageHeight: int, elems: seq<Element>)
    requires SkipsRoot(rule)
    ensures ListErrors(rule, Some(root), pageWidth, pageHeight, elems) == ListErrors(rule, Some(root), pageWidth, pageHeight, Others(elems, root))
    decreases |elems|
  {
    if elems != [] {
      var init, last := elems[..|elems| - 1], elems[|elems| - 1];
      RootMembersContributeNothing(rule, root, pageWidth, pageHeight, init);
      assert ListErrors(rule, Some(root), pageWidth, pageHeight, elems)
          == ListErrors(rule, Some(root), pageWidth, pageHeight, init) + RuleErrors(rule, Some(root), pageWidth, pageHeight, last);
      if SameElement(last, root) {
        assert Others(elems, root) == Others(init, root);
      } else {
        var o := Others(init, root) + [last];
        assert Others(elems, root) == o;
        assert o[..|o| - 1] == Others(init, root);
      }
    }
  }

  // ----- validateInsideOfContainer -----

  /**
    validateInsideOfContainer: without a member list the root must lie inside
    the container; with one, every member must, one error per member outside.
   */
  function InsideErrors(root: Option<Element>, rootElements: Option<seq<Element>>, container: Element): (r: seq<Error>)
    requires (rootElements.None? || rootElements.value == []) ==> root.Some?
    ensures forall k :: 0 <= k < |r| ==> r[k] == Error(NotInside, Some(container.rect))
    ensures rootElements.None? || rootElements.value == [] ==>
              (r == [] <==> Contains(container.rect, root.value.rect)) && |r| <= 1
    ensures rootElements.Some? && rootElements.value != [] ==>
              && |r| == Outside(container.rect, rootElements.value)
              && (r == [] <==> forall k :: 0 <= k < |rootElements.value| ==> Contains(container.rect, rootElements.value[k].rect))
  {
    if rootElements.None? || rootElements.value == [] then NotInsideErrors(container, root.value)
    else
      ListErrorsPerElement(InsideOf(container), root, 0, 0, rootElements.value);
      InsideListErrorsExact(container, root, rootElements.value);
      ListErrors(InsideOf(container), root, 0, 0, rootElements.value)
  }

  /** How many of the elements the container does not contain. */
  function Outside(container: Rect, elems: seq<Element>): (n: nat)
    ensures n <= |elems|
    decreases |elems|
  {
    if elems == [] then 0
    else Outside(container, elems[..|elems| - 1]) + (if Contains(container, elems[|elems| - 1].rect) then 0 else 1)
  }

  /**
    The member form of the containment check reports the container once for
    each member outside it, and nothing else.
   */
  lemma {:induction false} InsideListErrorsExact(container: Element, root: Option<Element>, elems: seq<Element>)
    ensures var r := ListErrors(InsideOf(container), root, 0, 0, elems);
            && |r| == Outside(container.rect, elems)
            && forall k :: 0 <= k < |r| ==> r[k] == Error(NotInside, Some(container.rect))
    decreases |elems|
  {
    if elems != [] {
      var init := elems[..|elems| - 1];
      InsideListErrorsExact(container, root, init);
      assert ListErrors(InsideOf(container), root, 0, 0, elems)
          == ListErrors(InsideOf(container), root, 0, 0, init) + NotInsideErrors(container, elems[|elems| - 1]);
    }
  }

  // ----- padding -----

  /** The root expanded outward by the requested padding on each side. */
  function PaddedRect(r: Rect, p: Padding): (padded: Rect)
    ensures padded.x == r.x - p.left && padded.Right() == r.Right() + p.right
    ensures padded.y == r.y - p.top && padded.Bottom() == r.Bottom() + p.bottom
  {
    Rect(r.x - p.left, r.y - p.top, r.width + p.left + p.right, r.height + p.top + p.bottom)
  }

  /** The padding actually observed between the root and the container, side by side. */
  function ObservedPadding(root: Rect, container: Rect): (p: Padding)
    // expanding the root by the observed padding gives back the container
    ensures PaddedRect(root, p) == container
  {
    Padding(root.y - container.y, container.Right() - root.Right(), container.Bottom() - root.Bottom(), root.x - container.x)
  }

  /** The requested padding, each side converted on its own axis. */
  function ConvertPadding(p: Padding, units: Units, pageWidth: int, pageHeight: int): Padding
  {
    Padding(
      ToPixels(p.top, false, units, pageWidth, pageHeight),
      ToPixels(p.right, true, units, pageWidth, pageHeight),
      ToPixels(p.bottom, false, units, pageWidth, pageHeight),
      ToPixels(p.left, true, units, pageWidth, pageHeight))
  }

  /**
    validateInsideOfContainer with padding: one error on the container iff it
    does not contain the padded root; the record carries both paddings.
   */
  function PaddingErrors(root: Element, container: Element, requested: Padding): (r: seq<Error>)
    ensures r == [] <==> Contains(container.rect, PaddedRect(root.rect, requested))
    ensures r != [] ==> r == [Error(PaddingIncorrect(requested, ObservedPadding(root.rect, container.rect)), Some(container.rect))]
  {
    if !Contains(container.rect, PaddedRect(root.rect, requested)) then
      [Error(PaddingIncorrect(requested, ObservedPadding(root.rect, container.rect)), Some(container.rect))]
    else
      []
  }

  /**
    For a non-empty container and padded root, the check passes exactly when
    the observed padding is at least the requested one on every side.
   */
  lemma PaddingHoldsIffObservedCoversRequested(root: Rect, container: Rect, p: Padding)
    requires !container.IsEmpty() && !PaddedRect(root, p).IsEmpty()
    ensures Contains(container, PaddedRect(root, p)) <==>
              var o := ObservedPadding(root, container);
              o.top >= p.top && o.right >= p.right && o.bottom >= p.bottom && o.left >= p.left
  {
  }

  /**
    A root at (100,100) of size 200x100 with padding top 10, right 20,
    bottom 10, left 20 needs the container (80,90,240,120); a container 5px
    short on the left fails and reports an observed left padding of 15.
   */
  lemma PaddingExample()
    ensures PaddedRect(Rect(100, 100, 200, 100), Padding(10, 20, 10, 20)) == Rect(80, 90, 240, 120)
    ensures PaddingErrors(Element(1, Rect(100, 100, 200, 100)), Element(2, Rect(80, 90, 240, 120)), Padding(10, 20, 10, 20)) == []
    ensures PaddingErrors(Element(1, Rect(100, 100, 200, 100)), Element(2, Rect(85, 90, 240, 120)), Padding(10, 20, 10, 20))
              == [Error(PaddingIncorrect(Padding(10, 20, 10, 20), Padding(10, 25, 10, 15)), Some(Rect(85, 90, 240, 120)))]
  {
  }

  // ----- min / max rules on the root -----

  /** validateMin/MaxWidth and validateMin/MaxHeight: strict comparison with the limit. */
  function SizeLimitErrors(bound: Bound, dim: Dim, r: Rect, limit: int): (errs: seq<Error>)
    ensures errs == [] <==> !Violates(bound, DimOf(r, dim), limit)
    ensures errs != [] ==> errs == [Error(DimOutOfBound(bound, dim, limit, DimOf(r, dim)), None)]
  {
    if Violates(bound, DimOf(r, dim), limit) then [Error(DimOutOfBound(bound, dim, limit, DimOf(r, dim)), None)] else []
  }

  /**
    widthBetween / heightBetween after conversion: the minimum check, then the
    maximum check. It passes iff the measure is within the inclusive range,
    and a well-ordered range can fail only one of the two.
   */
  function BetweenErrors(dim: Dim, r: Rect, minLimit: int, maxLimit: int): (errs: seq<Error>)
    ensures |errs| <= 2
    ensures errs == [] <==> minLimit <= DimOf(r, dim) <= maxLimit
    ensures minLimit <= maxLimit ==> |errs| <= 1
    ensures forall i :: 0 <= i < |errs| ==> errs[i].kind.DimOutOfBound? && errs[i].at == None
    ensures |errs| == 2 ==> errs[0].kind.bound == Min && errs[1].kind.bound == Max
    ensures DimOf(r, dim) < minLimit ==> errs[0] == Error(DimOutOfBound(Min, dim, minLimit, DimOf(r, dim)), None)
    ensures DimOf(r, dim) > maxLimit ==> errs[|errs| - 1] == Error(DimOutOfBound(Max, dim, maxLimit, DimOf(r, dim)), None)
  {
    SizeLimitErrors(Min, dim, r, minLimit) + SizeLimitErrors(Max, dim, r, maxLimit)
  }

  /** One side of validateMin/MaxOffset. */
  function SideLimitErrors(bound: Bound, r: Rect, edge: Edge, limit: int, pageWidth: int, pageHeight: int): seq<Error>
  {
    var actual := OffsetOf(r, edge, pageWidth, pageHeight);
    if Violates(bound, actual, limit) then [Error(OffsetOutOfBound(bound, edge, limit, actual), None)] else []
  }

  /**
    validateMinOffset / validateMaxOffset: up to four errors, one per side
    whose page offset breaks its limit, in the order left, top, right, bottom.
   */
  function OffsetLimitErrors(bound: Bound, r: Rect, pageWidth: int, pageHeight: int, top: int, right: int, bottom: int, left: int): (errs: seq<Error>)
    ensures |errs| <= 4
    ensures forall i :: 0 <= i < |errs| ==>
              && errs[i].kind.OffsetOutOfBound? && errs[i].kind.bound == bound && errs[i].at == None
              && errs[i].kind.actual == OffsetOf(r, errs[i].kind.edge, pageWidth, pageHeight)
              && Violates(bound, errs[i].kind.actual, errs[i].kind.limit)
    ensures forall i, j :: 0 <= i < j < |errs| ==> ReportRank(errs[i].kind.edge) < ReportRank(errs[j].kind.edge)
    ensures errs == [] <==>
              && !Violates(bound, r.x, left) && !Violates(bound, r.y, top)
              && !Violates(bound, RightOffset(r, pageWidth), right) && !Violates(bound, BottomOffset(r, pageHeight), bottom)
  {
    SideLimitErrors(bound, r, Left, left, pageWidth, pageHeight)
    + SideLimitErrors(bound, r, Top, top, pageWidth, pageHeight)
    + SideLimitErrors(bound, r, Right, right, pageWidth, pageHeight)
    + SideLimitErrors(bound, r, Bottom, bottom, pageWidth, pageHeight)
  }

  /**
    Every side whose page offset breaks its own limit is reported with that
    limit and its offset, and nothing else is: one record per breaking side.
   */
  lemma OffsetLimitReportsEverySide(bound: Bound, r: Rect, pageWidth: int, pageHeight: int, top: int, right: int, bottom: int, left: int)
    ensures var errs := OffsetLimitErrors(bound, r, pageWidth, pageHeight, top, right, bottom, left);
            && (Violates(bound, r.x, left) <==> Error(OffsetOutOfBound(bound, Left, left, r.x), None) in errs)
            && (Violates(bound, r.y, top) <==> Error(OffsetOutOfBound(bound, Top, top, r.y), None) in errs)
            && (Violates(bound, RightOffset(r, pageWidth), right)
                <==> Error(OffsetOutOfBound(bound, Right, right, RightOffset(r, pageWidth)), None) in errs)
            && (Violates(bound, BottomOffset(r, pageHeight), bottom)
                <==> Error(OffsetOutOfBound(bound, Bottom, bottom, BottomOffset(r, pageHeight)), None) in errs)
            && |errs| == (if Violates(bound, r.x, left) then 1 else 0) + (if Violates(bound, r.y, top) then 1 else 0)
                         + (if Violates(bound, RightOffset(r, pageWidth), right) then 1 else 0)
                         + (if Violates(bound, BottomOffset(r, pageHeight), bottom) then 1 else 0)
  {
  }

  // ----- neighbours -----

  /** The gap between the root and a neighbour on the given side, measured between the facing edges. */
  function Gap(side: Edge, root: Rect, neighbour: Rect): (g: int)
    // a neighbour at a non-negative gap never overlaps the root
    ensures g >= 0 ==> !Intersects(root, neighbour)
  {
    match side
    case Bottom => neighbour.y - (root.y + root.height)
    case Top => root.y - (neighbour.y + neighbour.height)
    case Right => neighbour.x - (root.x + root.width)
    case Left => root.x - (neighbour.x + neighbour.width)
  }

  /**
    validateBelowElement / validateAboveElement / validateRightElement /
    validateLeftElement with margins: one error on the neighbour iff the gap
    is outside the inclusive band [minMargin, maxMargin].
   */
  function MarginErrors(side: Edge, root: Element, neighbour: Element, minMargin: int, maxMargin: int): (r: seq<Error>)
    ensures r == [] <==> minMargin <= Gap(side, root.rect, neighbour.rect) <= maxMargin
    ensures r != [] ==> r == [Error(MarginOutOfRange(side, minMargin, maxMargin, Gap(side, root.rect, neighbour.rect)), Some(neighbour.rect))]
  {
    var gap := Gap(side, root.rect, neighbour.rect);
    if gap < minMargin || gap > maxMargin then [Error(MarginOutOfRange(side, minMargin, maxMargin, gap), Some(neighbour.rect))] else []
  }

  /**
    The margin-less neighbour rules: the alignment verdict comes from the
    external page checker; a failure is one error without an element.
   */
  function AlignmentErrors(side: Edge, aligned: bool): (r: seq<Error>)
    ensures r == [] <==> aligned
    ensures r != [] ==> r == [Error(NotAligned(side), None)]
  {
    if !aligned then [Error(NotAligned(side), None)] else []
  }

  // ----- list ("chunk") rules over consecutive pairs -----

  /** Elements p and p+1 differ on the edge. */
  predicate PairOffsetDiffers(elems: seq<Element>, edge: Edge, p: nat)
    requires p + 1 < |elems|
  {
    EdgeOf(elems[p].rect, edge) != EdgeOf(elems[p + 1].rect, edge)
  }

  /** The record of a failing pair p: attached to element p+1. */
  function PairOffsetError(elems: seq<Element>, edge: Edge, p: nat): Error
    requires p + 1 < |elems|
  {
    Error(ChunkOffsetDiffers(edge, p), Some(elems[p + 1].rect))
  }

  /** validate{Right,Left,Top,Bottom}OffsetForChunk, over the pairs (p, p+1) with p >= from. */
  function ChunkOffsetErrors(elems: seq<Element>, edge: Edge, from: nat): (r: seq<Error>)
    ensures r != [] ==> |r| < |elems| - from
    ensures forall k :: 0 <= k < |r| ==> r[k].kind.ChunkOffsetDiffers? && r[k].kind.edge == edge
    decreases |elems| - from
  {
    if from + 1 >= |elems| then []
    else (if PairOffsetDiffers(elems, edge, from) then [PairOffsetError(elems, edge, from)] else [])
         + ChunkOffsetErrors(elems, edge, from + 1)
  }

  /** The number of consecutive pairs (p, p+1) with p >= from whose edges differ. */
  function DifferingPairs(elems: seq<Element>, edge: Edge, from: nat): nat
    decreases |elems| - from
  {
    if from + 1 >= |elems| then 0
    else (if PairOffsetDiffers(elems, edge, from) then 1 else 0) + DifferingPairs(elems, edge, from + 1)
  }

  /**
    The offset list rules look at consecutive pairs only: an error is
    appended for exactly the pairs (p, p+1) that differ, attached to p+1, so
    at most one per pair.
   */
  lemma {:induction false} ChunkOffsetErrorsExact(elems: seq<Element>, edge: Edge, from: nat)
    ensures from + 1 < |elems| ==> |ChunkOffsetErrors(elems, edge, from)| <= |elems| - 1 - from
    ensures |ChunkOffsetErrors(elems, edge, from)| == DifferingPairs(elems, edge, from)
    ensures forall i :: 0 <= i < |ChunkOffsetErrors(elems, edge, from)| ==>
              ChunkOffsetErrors(elems, edge, from)[i].kind.ChunkOffsetDiffers? && from <= ChunkOffsetErrors(elems, edge, from)[i].kind.pair
    ensures forall i, j :: 0 <= i < j < |ChunkOffsetErrors(elems, edge, from)| ==>
              ChunkOffsetErrors(elems, edge, from)[i].kind.pair < ChunkOffsetErrors(elems, edge, from)[j].kind.pair
    ensures from + 1 >= |elems| ==> ChunkOffsetErrors(elems, edge, from) == []
    ensures forall err :: err in ChunkOffsetErrors(elems, edge, from) <==>
              exists p: nat :: from <= p && p + 1 < |elems| && PairOffsetDiffers(elems, edge, p) && err == PairOffsetError(elems, edge, p)
    decreases |elems| - from
  {
    ChunkOffsetErrorsOrdered(elems, edge, from);
    if from + 1 < |elems| {
      ChunkOffsetErrorsExact(elems, edge, from + 1);
      var rest := ChunkOffsetErrors(elems, edge, from + 1);
      forall err | err in ChunkOffsetErrors(elems, edge, from)
        ensures exists p: nat :: from <= p && p + 1 < |elems| && PairOffsetDiffers(elems, edge, p) && err == PairOffsetError(elems, edge, p)
      {
        if err !in rest {
          assert PairOffsetDiffers(elems, edge, from) && err == PairOffsetError(elems, edge, from);
        }
      }
      forall err, p: nat | from <= p && p + 1 < |elems| && PairOffsetDiffers(elems, edge, p) && err == PairOffsetError(elems, edge, p)
        ensures err in ChunkOffsetErrors(elems, edge, from)
      {
        if p > from {
          assert err in rest;
        }
      }
    }
  }

  /** One record per differing pair, with pair indices from `from` on, strictly increasing. */
  lemma {:induction false} ChunkOffsetErrorsOrdered(elems: seq<Element>, edge: Edge, from: nat)
    ensures |ChunkOffsetErrors(elems, edge, from)| == DifferingPairs(elems, edge, from)
    ensures forall i :: 0 <= i < |ChunkOffsetErrors(elems, edge, from)| ==>
              ChunkOffsetErrors(elems, edge, from)[i].kind.ChunkOffsetDiffers? && from <= ChunkOffsetErrors(elems, edge, from)[i].kind.pair
    ensures forall i, j :: 0 <= i < j < |ChunkOffsetErrors(elems, edge, from)| ==>
              ChunkOffsetErrors(elems, edge, from)[i].kind.pair < ChunkOffsetErrors(elems, edge, from)[j].kind.pair
    decreases |elems| - from
  {
    if from + 1 < |elems| {
      ChunkOffsetErrorsOrdered(elems, edge, from + 1);
      var head := if PairOffsetDiffers(elems, edge, from) then [PairOffsetError(elems, edge, from)] else [];
      var rest := ChunkOffsetErrors(elems, edge, from + 1);
      assert ChunkOffsetErrors(elems, edge, from) == head + rest;
      assert forall i :: 0 <= i < |head| ==> head[i].kind.pair == from;
    }
  }

  /**
    The left edges 0, 0, 5, 0 differ at pairs (1,2) and (2,3): both are
    reported, on elements 2 and 3, and the equal first and last element are
    never compared.
   */
  lemma ChunkOffsetExample()
    ensures var elems := [Element(0, Rect(0, 0, 10, 10)), Element(1, Rect(0, 20, 10, 10)), Element(2, Rect(5, 40, 10, 10)), Element(3, Rect(0, 60, 10, 10))];
            ChunkOffsetErrors(elems, Left, 0) == [Error(ChunkOffsetDiffers(Left, 1), Some(Rect(5, 40, 10, 10))), Error(ChunkOffsetDiffers(Left, 2), Some(Rect(0, 60, 10, 10)))]
  {
  }

  /** Pair p fails a size list rule: validateSameSize fails on a difference, validateNotSameSize on equality. */
  predicate PairSizeFails(elems: seq<Element>, m: Measure, expectSame: bool, p: nat)
    requires p + 1 < |elems|
  {
    Differs(elems[p].rect, elems[p + 1].rect, m) == expectSame
  }

  /** The two records of a failing pair: one on element p, then one on element p+1. */
  function PairSizeErrors(elems: seq<Element>, m: Measure, expectSame: bool, p: nat): seq<Error>
    requires p + 1 < |elems|
  {
    if expectSame then
      [Error(ChunkMeasureDiffers(m, p), Some(elems[p].rect)), Error(ChunkMeasureDiffers(m, p + 1), Some(elems[p + 1].rect))]
    else
      [Error(ChunkMeasureSame(m, p), Some(elems[p].rect)), Error(ChunkMeasureSame(m, p + 1), Some(elems[p + 1].rect))]
  }

  /** What one iteration of the size list rules appends for pair p under the integer type t. */
  function PairSizeStep(elems: seq<Element>, t: int, expectSame: bool, p: nat): seq<Error>
    requires p + 1 < |elems|
  {
    match MeasureOfType(t)
    case None => []
    case Some(m) => if PairSizeFails(elems, m, expectSame, p) then PairSizeErrors(elems, m, expectSame, p) else []
  }

  /**
    validateSameSize(list, type) (expectSame) and validateNotSameSize(list, type),
    over the pairs (p, p+1) with p >= from.
   */
  function ChunkSizeErrors(elems: seq<Element>, t: int, expectSame: bool, from: nat): (r: seq<Error>)
    ensures |r| % 2 == 0
    ensures r != [] ==> |r| < 2 * (|elems| - from)
    decreases |elems| - from
  {
    if from + 1 >= |elems| then []
    else PairSizeStep(elems, t, expectSame, from) + ChunkSizeErrors(elems, t, expectSame, from + 1)
  }

  /** The number of failing pairs (p, p+1) with p >= from. */
  function FailingPairs(elems: seq<Element>, m: Measure, expectSame: bool, from: nat): nat
    decreases |elems| - from
  {
    if from + 1 >= |elems| then 0
    else (if PairSizeFails(elems, m, expectSame, from) then 1 else 0) + FailingPairs(elems, m, expectSame, from + 1)
  }

  /**
    The size list rules append exactly two errors per failing pair, and
    nothing at all for a type outside {0, 1, 2}.
   */
  lemma {:induction false} ChunkSizeErrorsCount(elems: seq<Element>, t: int, expectSame: bool, from: nat)
    ensures MeasureOfType(t).None? ==> ChunkSizeErrors(elems, t, expectSame, from) == []
    ensures MeasureOfType(t).Some? ==>
              |ChunkSizeErrors(elems, t, expectSame, from)| == 2 * FailingPairs(elems, MeasureOfType(t).value, expectSame, from)
    decreases |elems| - from
  {
    if from + 1 < |elems| {
      ChunkSizeErrorsCount(elems, t, expectSame, from + 1);
    }
  }

  /** The records of the pairs from p on are the tail of the records of the pairs from any from <= p. */
  lemma {:induction false} ChunkSizeSuffix(elems: seq<Element>, t: int, expectSame: bool, from: nat, p: nat)
    requires from <= p
    ensures |ChunkSizeErrors(elems, t, expectSame, p)| <= |ChunkSizeErrors(elems, t, expectSame, from)|
    ensures ChunkSizeErrors(elems, t, expectSame, from)[|ChunkSizeErrors(elems, t, expectSame, from)| - |ChunkSizeErrors(elems, t, expectSame, p)|..]
            == ChunkSizeErrors(elems, t, expectSame, p)
    decreases p - from
  {
    if from < p && from + 1 < |elems| {
      ChunkSizeSuffix(elems, t, expectSame, from + 1, p);
      var head := PairSizeStep(elems, t, expectSame, from);
      var rest := ChunkSizeErrors(elems, t, expectSame, from + 1);
      var tail := ChunkSizeErrors(elems, t, expectSame, p);
      assert ChunkSizeErrors(elems, t, expectSame, from) == head + rest;
      assert (head + rest)[|head + rest| - |tail|..] == rest[|rest| - |tail|..];
    } else if from < p {
      assert p + 1 >= |elems|;
    }
  }

  /**
    Both elements of every failing pair are reported, the earlier one first,
    and these records sit in the tail of the records of any earlier start.
   */
  lemma ChunkSizeReportsBothOfPair(elems: seq<Element>, t: int, expectSame: bool, from: nat, p: nat)
    requires MeasureOfType(t).Some? && from <= p && p + 1 < |elems|
    requires PairSizeFails(elems, MeasureOfType(t).value, expectSame, p)
    ensures PairSizeErrors(elems, MeasureOfType(t).value, expectSame, p) <= ChunkSizeErrors(elems, t, expectSame, p)
    ensures |ChunkSizeErrors(elems, t, expectSame, p)| <= |ChunkSizeErrors(elems, t, expectSame, from)|
    ensures ChunkSizeErrors(elems, t, expectSame, from)[|ChunkSizeErrors(elems, t, expectSame, from)| - |ChunkSizeErrors(elems, t, expectSame, p)|..]
            == ChunkSizeErrors(elems, t, expectSame, p)
  {
    ChunkSizeSuffix(elems, t, expectSame, from, p);
  }

  // ----- CSS values -----

  /** A value starting with '#' is a hex colour and is converted before the comparison. */
  function CssCandidate(val: string, toArgb: string -> string): string
  {
    if |val| > 0 && val[0] == '#' then toArgb(val) else val
  }

  /** One argument of withCssValue (expectPresent) or withoutCssValue. */
  function CssArgErrors(expectPresent: bool, cssValue: string, val: string, found: (string, string) -> bool, toArgb: string -> string): (r: seq<Error>)
    ensures r == [] <==> found(CssCandidate(val, toArgb), cssValue) == expectPresent
    ensures r != [] ==> |r| == 1 && r[0].at == None
    ensures r != [] ==> r[0].kind == (if expectPresent then CssValueNotFound(CssCandidate(val, toArgb)) else CssValueFound(CssCandidate(val, toArgb)))
  {
    var v := CssCandidate(val, toArgb);
    if found(v, cssValue) != expectPresent then
      [Error(if expectPresent then CssValueNotFound(v) else CssValueFound(v), None)]
    else
      []
  }

  /** The arguments in order. */
  function CssArgsErrors(expectPresent: bool, cssValue: string, args: seq<string>, found: (string, string) -> bool, toArgb: string -> string): seq<Error>
    decreases |args|
  {
    if args == [] then []
    else CssArgsErrors(expectPresent, cssValue, args[..|args| - 1], found, toArgb)
         + CssArgErrors(expectPresent, cssValue, args[|args| - 1], found, toArgb)
  }

  /**
    Each argument contributes at most one error, with no element attached,
    and there are none exactly when every argument's candidate is found
    (withCssValue) or not found (withoutCssValue).
   */
  lemma {:induction false} CssArgsErrorsBound(expectPresent: bool, cssValue: string, args: seq<string>, found: (string, string) -> bool, toArgb: string -> string)
    ensures |CssArgsErrors(expectPresent, cssValue, args, found, toArgb)| <= |args|
    ensures forall k :: 0 <= k < |CssArgsErrors(expectPresent, cssValue, args, found, toArgb)| ==>
              CssArgsErrors(expectPresent, cssValue, args, found, toArgb)[k].at == None
    ensures CssArgsErrors(expectPresent, cssValue, args, found, toArgb) == [] <==>
              forall k :: 0 <= k < |args| ==> found(CssCandidate(args[k], toArgb), cssValue) == expectPresent
    decreases |args|
  {
    if args != [] {
      var init := args[..|args| - 1];
      CssArgsErrorsBound(expectPresent, cssValue, init, found, toArgb);
      assert forall k :: 0 <= k < |init| ==> init[k] == args[k];
    }
  }

  /** The arguments are checked in order: one more argument appends that argument's records at the end. */
  lemma CssArgsErrorsStep(expectPresent: bool, cssValue: string, args: seq<string>, found: (string, string) -> bool, toArgb: string -> string, k: nat)
    requires k < |args|
    ensures CssArgsErrors(expectPresent, cssValue, args[..k + 1], found, toArgb)
            == CssArgsErrors(expectPresent, cssValue, args[..k], found, toArgb) + CssArgErrors(expectPresent, cssValue, args[k], found, toArgb)
  {
    assert args[..k + 1][..k] == args[..k];
  }

  /**
    withCssValue / withoutCssValue: an empty property value is exactly one
    error whatever the arguments; otherwise at most one error per argument.
   */
  function CssErrors(expectPresent: bool, cssValue: string, args: seq<string>, found: (string, string) -> bool, toArgb: string -> string): (r: seq<Error>)
    ensures cssValue == "" ==> r == [Error(CssPropertyMissing, None)]
    ensures cssValue != "" ==> |r| <= |args| && forall k :: 0 <= k < |r| ==> r[k].at == None
    ensures cssValue != "" ==> (r == [] <==> forall k :: 0 <= k < |args| ==> found(CssCandidate(args[k], toArgb), cssValue) == expectPresent)
  {
    if cssValue == "" then [Error(CssPropertyMissing, None)]
    else
      CssArgsErrorsBound(expectPresent, cssValue, args, found, toArgb);
      CssArgsErrors(expectPresent, cssValue, args, found, toArgb)
  }
}
