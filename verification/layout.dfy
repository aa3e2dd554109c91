/**
  The vocabulary the validation rules share: elements, the edges and
  measures the rules compare, and the records appended to the error log.
 */
module Layout {
  import opened Wrappers
  import opened Rectangles

  /**
    A page element as the rules see it: an identity (what WebElement.equals
    compares) and the rectangle the element accessor reports for it.
   */
  datatype Element = Element(id: int, rect: Rect)

  /** WebElement.equals. */
  predicate SameElement(a: Element, b: Element) { a.id == b.id }

  /** The four sides of a rectangle; for neighbour rules, the side the neighbour lies on. */
  datatype Edge = Left | Right | Top | Bottom

  /** The coordinate of one edge of a rectangle: x, corner x, y or corner y. */
  function EdgeOf(r: Rect, edge: Edge): int
  {
    match edge
    case Left => r.x
    case Right => r.Right()
    case Top => r.y
    case Bottom => r.Bottom()
  }

  /** getRightOffset: distance from the right edge to the right of the page. */
  function RightOffset(r: Rect, pageWidth: int): int { pageWidth - r.Right() }

  /** getBottomOffset: distance from the bottom edge to the bottom of the page. */
  function BottomOffset(r: Rect, pageHeight: int): int { pageHeight - r.Bottom() }

  /** The distance from one edge of a rectangle to the same edge of the page. */
  function OffsetOf(r: Rect, edge: Edge, pageWidth: int, pageHeight: int): int
  {
    match edge
    case Left => r.x
    case Right => RightOffset(r, pageWidth)
    case Top => r.y
    case Bottom => BottomOffset(r, pageHeight)
  }

  /** The position of an edge in the order the offset rules report them: left, top, right, bottom. */
  function ReportRank(edge: Edge): nat
  {
    match edge
    case Left => 0
    case Top => 1
    case Right => 2
    case Bottom => 3
  }

  /** The size-comparison "type" of the list rules: 0 = both sides, 1 = width, 2 = height. */
  datatype Measure = SizeBoth | WidthOnly | HeightOnly

  /** The measure a list rule's integer type selects; None for any other integer. */
  function MeasureOfType(t: int): Option<Measure>
  {
    if t == 0 then Some(SizeBoth) else if t == 1 then Some(WidthOnly) else if t == 2 then Some(HeightOnly) else None
  }

  /** The two rectangles differ in the given measure. */
  predicate Differs(a: Rect, b: Rect, m: Measure)
  {
    match m
    case SizeBoth => a.height != b.height || a.width != b.width
    case WidthOnly => a.width != b.width
    case HeightOnly => a.height != b.height
  }

  datatype Dim = Width | Height

  function DimOf(r: Rect, d: Dim): int
  {
    match d
    case Width => r.width
    case Height => r.height
  }

  /** Which side of a limit a min/max rule enforces. */
  datatype Bound = Min | Max

  /** The measured value breaks the limit: strictly below a minimum, strictly above a maximum. */
  predicate Violates(bound: Bound, actual: int, limit: int)
  {
    match bound
    case Min => actual < limit
    case Max => actual > limit
  }

  /** util.validator.properties.Padding. */
  datatype Padding = Padding(top: int, right: int, bottom: int, left: int)

  /**
    What an error record says. The message text is not modelled; most kinds
    keep the values their message prints, but MeasureDiffers and SameSize do
    not keep the root's width and height.
   */
  datatype Kind =
    | ElementsOverlapped
    | WrongRowCount(expectedRows: int, actualRows: int)
    | WrongColumnCount(row: int, expectedColumns: int, actualColumns: int)
    | ChunkOffsetDiffers(edge: Edge, pair: nat)
    | OffsetDiffers(edge: Edge)
    | OverlappedButShouldNot
    | NotOverlappedButShouldBe
    | OffsetOutOfBound(bound: Bound, edge: Edge, limit: int, actual: int)
    | DimOutOfBound(bound: Bound, dim: Dim, limit: int, actual: int)
    | MeasureDiffers(measure: Measure)
    | SameSize
    | ChunkMeasureDiffers(measure: Measure, index: nat)
    | ChunkMeasureSame(measure: Measure, index: nat)
    | MarginOutOfRange(side: Edge, minMargin: int, maxMargin: int, actual: int)
    | NotAligned(side: Edge)
    | UnequalOffsets(horizontal: bool, first: int, second: int)
    | NotInside
    | PaddingIncorrect(requested: Padding, observed: Padding)
    | CssPropertyMissing
    | CssValueNotFound(value: string)
    | CssValueFound(value: string)

  /** One entry of the error log: a kind and, for putJsonDetailsWithElement, the element's rectangle. */
  datatype Error = Error(kind: Kind, at: Option<Rect>)
}
