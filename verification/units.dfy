/**
  The unit converter (`getConvertedInt`): a threshold the caller passes is
  either pixels or a percentage of the page width or height.
 */
module Units {

  /** ResponsiveUIValidator.Units. */
  datatype Units = PX | PERCENT

  /**
    Java's `n / 100` on `int`: the quotient truncated toward zero (not
    floored), characterised by its two bounds.
   */
  function JavaDiv100(n: int): (q: int)
    ensures n >= 0 ==> 100 * q <= n < 100 * q + 100
    ensures n < 0 ==> 100 * q - 100 < n <= 100 * q
  {
    if n >= 0 then n / 100 else -((-n) / 100)
  }

  /** The page extent a percentage refers to on the given axis. */
  function PageExtent(horizontal: bool, pageWidth: int, pageHeight: int): int
  {
    if horizontal then pageWidth else pageHeight
  }

  /**
    getConvertedInt: pixels are returned as they are; a percentage becomes
    that share of the page extent on the axis, truncated toward zero.
   */
  function ToPixels(i: int, horizontal: bool, units: Units, pageWidth: int, pageHeight: int): (r: int)
    ensures units == PX ==> r == i
    ensures units == PERCENT && i * PageExtent(horizontal, pageWidth, pageHeight) >= 0 ==>
              100 * r <= i * PageExtent(horizontal, pageWidth, pageHeight) < 100 * r + 100
    ensures units == PERCENT && i * PageExtent(horizontal, pageWidth, pageHeight) < 0 ==>
              100 * r - 100 < i * PageExtent(horizontal, pageWidth, pageHeight) <= 100 * r
  {
    match units
    case PX => i
    case PERCENT => JavaDiv100(i * PageExtent(horizontal, pageWidth, pageHeight))
  }

  /** Truncating division never decreases when its dividend grows. */
  lemma JavaDiv100Monotone(m: int, n: int)
    requires m <= n
    ensures JavaDiv100(m) <= JavaDiv100(n)
  {
  }

  /**
    On a page of non-negative size, conversion keeps the order of its inputs
    in both unit modes, so a range [min, max] stays a range.
   */
  lemma ToPixelsMonotone(i: int, j: int, horizontal: bool, units: Units, pageWidth: int, pageHeight: int)
    requires i <= j && pageWidth >= 0 && pageHeight >= 0
    ensures ToPixels(i, horizontal, units, pageWidth, pageHeight) <= ToPixels(j, horizontal, units, pageWidth, pageHeight)
  {
    if units == PERCENT {
      var e := PageExtent(horizontal, pageWidth, pageHeight);
      assert i * e <= j * e by { MultiplyMonotone(i, j, e); }
      JavaDiv100Monotone(i * e, j * e);
    }
  }

  lemma MultiplyMonotone(i: int, j: int, e: int)
    requires i <= j && e >= 0
    ensures i * e <= j * e
  {
    assert j * e - i * e == (j - i) * e;
  }

  /** Negative percentages truncate toward zero: -1% of a 50px page is 0px, where flooring would give -1px. */
  lemma PercentTruncatesTowardZero()
    ensures ToPixels(-1, true, PERCENT, 50, 0) == 0
  {
  }
}
