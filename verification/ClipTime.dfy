/**
  Exact clip arithmetic of the extraction worker and of the host that checks it. A `Fraction` is a
  real number here. The worker and the host round up in three different ways; all three agree.
*/
module ClipTime {

  const MINIMUM_CLIP_US := 2_000_000
  const MAXIMUM_CLIP_US := 15_000_000
  const TARGET_RATE := 8
  const MAXIMUM_FRAMES := 120
  const MAXIMUM_SOURCE_FRAME_RATE := 60
  const MAXIMUM_CANDIDATE_FRAMES := 902

  /** A half-open interval in whole microseconds. */
  datatype Clip = Clip(startUs: int, endUs: int)
  {
    function DurationUs(): int {
      endUs - startUs
    }

    function Start(): real {
      Seconds(startUs)
    }

    function End(): real {
      Seconds(endUs)
    }

    function Duration(): real {
      Seconds(endUs - startUs)
    }

    predicate Bounded() {
      0 <= startUs && MINIMUM_CLIP_US <= DurationUs() <= MAXIMUM_CLIP_US
    }
  }

  function Seconds(us: int): real {
    us as real / 1000000.0
  }

  /** To the nearest microsecond, halves downward. */
  function ToMicroseconds(value: real): int {
    var scaled := value * 1000000.0;
    if (scaled - scaled.Floor as real) * 2.0 > 1.0 then scaled.Floor + 1 else scaled.Floor
  }

  /** The rounding is determined: it is the one integer within half a microsecond, the lower one on a tie. */
  lemma RoundsToNearest(value: real, us: int)
    ensures ToMicroseconds(value) == us <==> us as real - 0.5 < value * 1000000.0 <= us as real + 0.5
  {
    var scaled := value * 1000000.0;
    assert scaled.Floor as real <= scaled < scaled.Floor as real + 1.0;
  }

  lemma RoundingIsMonotone(a: real, b: real)
    requires a <= b
    ensures ToMicroseconds(a) <= ToMicroseconds(b)
  {
    RoundsToNearest(a, ToMicroseconds(a));
    RoundsToNearest(b, ToMicroseconds(b));
  }

  // ----- rounding up, as the worker and as the host write it -----

  function WorkerCeiling(value: real): int {
    -((-value).Floor)
  }

  function HostCeiling(value: real): int {
    value.Floor + if value.Floor as real == value then 0 else 1
  }

  lemma CeilingsAgree(value: real)
    ensures WorkerCeiling(value) == HostCeiling(value)
    ensures value <= WorkerCeiling(value) as real < value + 1.0
  {
  }

  /** The number of eighths of a second in a clip, rounded up. */
  function WorkerFrameCount(c: Clip): int {
    WorkerCeiling(c.Duration() * TARGET_RATE as real)
  }

  /** Over the integers, with floor division. */
  function HostFrameCount(durationUs: int): int {
    -((-(durationUs * TARGET_RATE)) / 1_000_000)
  }

  lemma FrameCountsAgree(c: Clip)
    ensures WorkerFrameCount(c) == HostFrameCount(c.DurationUs())
  {
    var n := -(c.DurationUs() * TARGET_RATE);
    assert -(c.Duration() * TARGET_RATE as real) == Seconds(n);
  }

  lemma FrameCountIsBounded(c: Clip)
    requires c.Bounded()
    ensures 16 <= WorkerFrameCount(c) <= MAXIMUM_FRAMES
    ensures (WorkerFrameCount(c) - 1) as real < c.Duration() * 8.0 <= WorkerFrameCount(c) as real
  {
    CeilingsAgree(c.Duration() * 8.0);
  }

  function WorkerCandidateLimit(c: Clip): int {
    var limit := WorkerCeiling(c.Duration() * MAXIMUM_SOURCE_FRAME_RATE as real) + 2;
    if limit < MAXIMUM_CANDIDATE_FRAMES then limit else MAXIMUM_CANDIDATE_FRAMES
  }

  function HostCandidateLimit(durationUs: int): int {
    var limit := HostCeiling(Seconds(durationUs) * MAXIMUM_SOURCE_FRAME_RATE as real) + 2;
    if limit < MAXIMUM_CANDIDATE_FRAMES then limit else MAXIMUM_CANDIDATE_FRAMES
  }

  lemma CandidateLimitsAgree(c: Clip)
    ensures WorkerCandidateLimit(c) == HostCandidateLimit(c.DurationUs())
    ensures c.Bounded() ==> 122 <= WorkerCandidateLimit(c) <= MAXIMUM_CANDIDATE_FRAMES
  {
    CeilingsAgree(c.Duration() * MAXIMUM_SOURCE_FRAME_RATE as real);
  }

  // ----- bin centers -----

  /** The center of bin `i` of `count` equal bins of the clip. */
  function Center(c: Clip, count: int, i: int): real
    requires count > 0
  {
    c.Start() + ((2 * i + 1) as real / (2 * count) as real) * c.Duration()
  }

  /** The left edge of bin `i`, and so the right edge of bin `i - 1`. */
  function Edge(c: Clip, count: int, i: int): real
    requires count > 0
  {
    c.startUs as real / 1000000.0 + i as real * ((c.endUs - c.startUs) as real / 1000000.0) / count as real
  }

  /** The edges cut the clip into `count` equal parts. */
  lemma EdgesCutTheClip(c: Clip, count: int, i: int)
    requires count > 0
    ensures Edge(c, count, 0) == c.startUs as real / 1000000.0 && Edge(c, count, count) == c.endUs as real / 1000000.0
    ensures (Edge(c, count, i + 1) - Edge(c, count, i)) * count as real == c.Duration()
  {
    var d, n := c.Duration(), count as real;
    var a, b := i as real * d / n, (i + 1) as real * d / n;
    assert a * n == i as real * d && b * n == (i + 1) as real * d;
    assert (b - a) * n == d;
    assert n * d / n == d;
  }

  /** The center of a bin is as far from its left edge as from its right edge. */
  lemma CenterIsMidway(c: Clip, count: int, i: int)
    requires count > 0
    ensures Center(c, count, i) - Edge(c, count, i) == Edge(c, count, i + 1) - Center(c, count, i)
  {
    var d, n := c.Duration(), count as real;
    var q := (2 * i + 1) as real / (2 * count) as real;
    var a, b := i as real * d / n, (i + 1) as real * d / n;
    assert q * (2.0 * n) == (2 * i + 1) as real;
    assert a * n == i as real * d && b * n == (i + 1) as real * d;
    assert (a + b) * n == (2 * i + 1) as real * d;
    assert (q * d * 2.0) * n == (2 * i + 1) as real * d;
    SameFactor(q * d * 2.0, a + b, n);
  }

  lemma SameFactor(x: real, y: real, n: real)
    requires n > 0.0 && x * n == y * n
    ensures x == y
  {
    assert (x - y) * n == 0.0;
  }

  /** Every center lies strictly inside the clip. */
  lemma CenterIsInside(c: Clip, count: int, i: int)
    requires 0 <= i < count && c.DurationUs() > 0
    ensures c.Start() < Center(c, count, i) < c.End()
  {
    var part := (2 * i + 1) as real / (2 * count) as real;
    ProperFraction((2 * i + 1) as real, (2 * count) as real);
    assert c.End() == c.Start() + c.Duration();
  }

  lemma ProperFraction(x: real, y: real)
    requires 0.0 < x < y
    ensures 0.0 < x / y < 1.0
  {
    var q := x / y;
    assert q * y == x;
    PositiveFactor(q, y);
    assert (1.0 - q) * y == y - x;
    PositiveFactor(1.0 - q, y);
  }

  lemma PositiveFactor(a: real, b: real)
    requires b > 0.0 && a * b > 0.0
    ensures a > 0.0
  {
    if a <= 0.0 {
    }
  }

  /** Neighbouring centers are more than a tenth of a second apart. */
  lemma CentersAreFarApart(c: Clip, i: int)
    requires c.Bounded()
    ensures
      var count := WorkerFrameCount(c);
      count > 0 && Center(c, count, i + 1) - Center(c, count, i) > 0.1
  {
    FrameCountIsBounded(c);
    var count, d := WorkerFrameCount(c), c.Duration();
    var n := count as real;
    assert d >= 2.0;
    assert n < 8.0 * d + 1.0 <= 8.5 * d;
    QuotientIsLarge(d, n);
  }

  lemma QuotientIsLarge(d: real, n: real)
    requires n > 0.0 && 0.1 * n < d
    ensures d / n > 0.1
  {
    var q := d / n;
    assert q * n == d;
    assert (q - 0.1) * n == d - 0.1 * n;
    PositiveFactor(q - 0.1, n);
  }

  /** The presentation timestamps handed to the landmarker, in whole milliseconds. */
  function Milliseconds(us: int): int {
    us / 1000
  }

  lemma MillisecondsIncrease(a: real, b: real)
    requires b - a > 0.1
    ensures Milliseconds(ToMicroseconds(a)) < Milliseconds(ToMicroseconds(b))
  {
    RoundsToNearest(a, ToMicroseconds(a));
    RoundsToNearest(b, ToMicroseconds(b));
    assert (b - a) * 1000000.0 > 100000.0;
    assert ToMicroseconds(b) > ToMicroseconds(a) + 1000;
  }
}
