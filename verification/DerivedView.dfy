/** The decoded view's size: the displayed size scaled into 1280 by 720 either way round, to even sides. */
module DerivedView {

  const LONG_SIDE := 1280
  const SHORT_SIDE := 720

  function Min(a: real, b: real): real {
    if a < b then a else b
  }

  function Whole(value: real): bool {
    value.Floor as real == value
  }

  /** The nearest even number not above `maximum`, the lower one on a tie, and at least 2. */
  function NearestBoundedEven(value: real, maximum: int): int {
    var lower := 2 * (value / 2.0).Floor;
    if lower + 2 <= maximum && value - lower as real > (lower + 2) as real - value then lower + 2
    else if lower < 2 then 2
    else lower
  }

  function MaximumWidth(width: real, height: real): int {
    if width >= height then LONG_SIDE else SHORT_SIDE
  }

  function MaximumHeight(width: real, height: real): int {
    if width >= height then SHORT_SIDE else LONG_SIDE
  }

  function Scale(width: real, height: real): real
    requires width > 0.0 && height > 0.0
  {
    Min(1.0, Min(MaximumWidth(width, height) as real / width, MaximumHeight(width, height) as real / height))
  }

  /** One side after scaling. */
  function Scaled(side: real, scale: real): real {
    side * scale
  }

  function Derived(width: real, height: real): (int, int)
    requires width > 0.0 && height > 0.0
  {
    var scale := Scale(width, height);
    if scale == 1.0 && Whole(width) && Whole(height) then (width.Floor, height.Floor)
    else (NearestBoundedEven(Scaled(width, scale), MaximumWidth(width, height)),
          NearestBoundedEven(Scaled(height, scale), MaximumHeight(width, height)))
  }

  /** The even number nearest to a value, the lower one of two; 2 for every value up to 1. */
  predicate IsNearestEven(value: real, r: int) {
    r % 2 == 0 && if value <= 1.0 then r == 2 else -1.0 <= r as real - value < 1.0
  }

  lemma EvenRounding(value: real, maximum: int)
    requires 0.0 < value <= maximum as real && maximum >= 2 && maximum % 2 == 0
    ensures
      var r := NearestBoundedEven(value, maximum);
      && r % 2 == 0 && 2 <= r <= maximum && IsNearestEven(value, r)
      && (value >= 1.0 ==> -1.0 <= r as real - value <= 1.0)
      && (value > 1.0 ==> r as real - value < 1.0)
  {
    var q := (value / 2.0).Floor;
    assert q as real <= value / 2.0 < q as real + 1.0;
  }

  lemma ScaleFits(width: real, maximum: real, scale: real)
    requires width > 0.0 && maximum > 0.0 && 0.0 < scale <= maximum / width
    ensures 0.0 < width * scale <= maximum
  {
    var q := maximum / width;
    assert q * width == maximum;
    assert width * scale <= width * q;
  }

  /** The bound on the displayed size, wide or high as the source is. */
  ghost predicate Fits(width: real, height: real, scale: real) {
    if width >= height then Scaled(width, scale) <= 1280.0 && Scaled(height, scale) <= 720.0
    else Scaled(width, scale) <= 720.0 && Scaled(height, scale) <= 1280.0
  }

  /** The scale is the largest one up to 1 with which the view fits. */
  lemma ScaleIsTheLargest(width: real, height: real, scale: real)
    requires width > 0.0 && height > 0.0
    ensures 0.0 < Scale(width, height) <= 1.0 && Fits(width, height, Scale(width, height))
    ensures scale <= 1.0 && Fits(width, height, scale) ==> scale <= Scale(width, height)
  {
    ScaleBounds(width, height);
    var w, h := MaximumWidth(width, height) as real, MaximumHeight(width, height) as real;
    if scale <= 1.0 && Fits(width, height, scale) {
      QuotientIsLargest(width, w, scale);
      QuotientIsLargest(height, h, scale);
    }
  }

  lemma QuotientIsLargest(side: real, maximum: real, scale: real)
    requires side > 0.0 && Scaled(side, scale) <= maximum
    ensures scale <= maximum / side
  {
    var q := maximum / side;
    assert q * side == maximum;
    if scale > q {
      LargerProduct(scale, q, side);
    }
  }

  lemma LargerProduct(a: real, b: real, side: real)
    requires a > b && side > 0.0
    ensures a * side > b * side
  {
    assert (a - b) * side > 0.0;
  }

  lemma ScaleBounds(width: real, height: real)
    requires width > 0.0 && height > 0.0
    ensures
      var scale := Scale(width, height);
      && 0.0 < scale <= 1.0
      && 0.0 < Scaled(width, scale) <= MaximumWidth(width, height) as real
      && 0.0 < Scaled(height, scale) <= MaximumHeight(width, height) as real
  {
    var w, h := MaximumWidth(width, height) as real, MaximumHeight(width, height) as real;
    ScaleFits(width, w, Scale(width, height));
    ScaleFits(height, h, Scale(width, height));
  }

  /**
    The derived view always fits the orientation-neutral bound. It is the source itself when that
    fits and is whole; otherwise both sides are even and within one pixel of the exact scaling.
  */
  lemma DerivedIsBounded(width: real, height: real)
    requires width > 0.0 && height > 0.0
    ensures
      var d, scale := Derived(width, height), Scale(width, height);
      && 1 <= d.0 <= MaximumWidth(width, height) && 1 <= d.1 <= MaximumHeight(width, height)
      && ((d == (width.Floor, height.Floor) && Whole(width) && Whole(height))
          || (d.0 % 2 == 0 && d.1 % 2 == 0
              && IsNearestEven(Scaled(width, scale), d.0) && IsNearestEven(Scaled(height, scale), d.1)))
  {
    hide NearestBoundedEven, Scale;
    ScaleBounds(width, height);
    EvenRounding(Scaled(width, Scale(width, height)), MaximumWidth(width, height));
    EvenRounding(Scaled(height, Scale(width, height)), MaximumHeight(width, height));
  }

  /** A whole size that fits is kept as it is. */
  lemma FittingSizeIsKept(width: int, height: int)
    requires 0 < width && 0 < height
    requires if width >= height then width <= LONG_SIDE && height <= SHORT_SIDE
             else width <= SHORT_SIDE && height <= LONG_SIDE
    ensures Derived(width as real, height as real) == (width, height)
  {
    var w, h :=
      MaximumWidth(width as real, height as real) as real, MaximumHeight(width as real, height as real) as real;
    QuotientIsAtLeastOne(w, width as real);
    QuotientIsAtLeastOne(h, height as real);
  }

  lemma QuotientIsAtLeastOne(a: real, b: real)
    requires a >= b > 0.0
    ensures a / b >= 1.0
  {
  }

  /** Where the maximum does not matter: the two sides of a square differ only in theirs. */
  lemma SquareRounding(value: real)
    requires 0.0 < value <= SHORT_SIDE as real
    ensures NearestBoundedEven(value, SHORT_SIDE) == NearestBoundedEven(value, LONG_SIDE)
  {
    assert (value / 2.0).Floor as real <= value / 2.0;
  }

  lemma ScaleTurns(width: real, height: real)
    requires width > 0.0 && height > 0.0
    ensures Scale(height, width) == Scale(width, height)
    ensures width != height ==>
              MaximumWidth(height, width) == MaximumHeight(width, height)
                && MaximumHeight(height, width) == MaximumWidth(width, height)
  {
  }

  /** Turning the source by a quarter turns the derived view by a quarter. */
  lemma DerivedTurnsWithTheSource(width: real, height: real)
    requires width > 0.0 && height > 0.0
    ensures Derived(height, width) == (Derived(width, height).1, Derived(width, height).0)
  {
    hide NearestBoundedEven, Scale, Scaled, Whole;
    ScaleTurns(width, height);
    if width == height {
      ScaleBounds(width, height);
      SquareRounding(Scaled(width, Scale(width, height)));
    }
  }
}
