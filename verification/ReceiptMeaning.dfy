/**
  What a receipt says, written out over the probed source and the clip in plain arithmetic. Whatever
  the host accepts is true in this sense, and so is every receipt the worker writes.
*/
module ReceiptMeaning {
  import opened Outcomes
  import opened ClipTime
  import opened FrameSelector
  import opened DerivedView
  import opened MediaProbe
  import opened ReceiptCheck

  // ----- plain arithmetic -----

  /** A frame's time from the start of its stream. */
  function FrameTime(s: Source, point: int): real {
    (point - s.startPts) as real * s.timeBase
  }

  function Gap(a: real, b: real): real {
    if a < b then b - a else a - b
  }

  /** The nearest whole microsecond, the lower one of two. */
  predicate InMicroseconds(value: real, us: int) {
    us as real - 0.5 < value * 1000000.0 <= us as real + 0.5
  }

  /** The smallest whole number not below a value. */
  predicate RoundedUp(value: real, n: int) {
    (n - 1) as real < value <= n as real
  }

  function Larger(a: real, b: real): real {
    if a < b then b else a
  }

  function Stretched(s: Source): real {
    s.codedWidth as real * s.aspect
  }

  lemma EffectiveSides(s: Source)
    requires s.Parsed()
    ensures
      var turned := s.rotation == 90 || s.rotation == 270;
      && s.EffectiveWidth() == (if turned then s.codedHeight as real else Stretched(s))
      && s.EffectiveHeight() == (if turned then Stretched(s) else s.codedHeight as real)
  {
  }

  lemma FrameTimeIsTheTime(s: Source, point: int)
    ensures FrameTime(s, point) == s.TimeOf(point)
  {
  }

  // ----- the source and its view -----

  /** A quarter turn exchanges the sides; the pixel aspect ratio stretches the coded width. */
  ghost predicate SourceIsTrue<Digest>(r: Receipt<Digest>) {
    var s := r.source;
    var turned := s.rotation == 90 || s.rotation == 270;
    var stretched := Stretched(s);
    && r.displayed == (if turned then (s.codedHeight, s.codedWidth) else (s.codedWidth, s.codedHeight))
    && (if turned then r.displayAspect * stretched == s.codedHeight as real
        else r.displayAspect * s.codedHeight as real == stretched)
    && InMicroseconds(s.duration, r.durationUs)
  }

  /** The clip begins inside the source and runs past its end by one frame at most. */
  ghost predicate ClipIsTrue<Digest>(r: Receipt<Digest>, startUs: int, endUs: int) {
    var s, end := r.source, endUs as real / 1000000.0;
    && r.clip == Clip(startUs, endUs) && r.clipDurationUs == endUs - startUs
    && startUs as real / 1000000.0 < s.duration
    && r.overshoot == Larger(0.0, end - s.duration)
    && r.overshoot * s.nominalRate <= 1.0 && r.largestOvershoot * s.nominalRate == 1.0
    && s.nominalRate <= 60.0 && r.largestRate == 60.0
  }

  /** The view has the size of the stretched and turned source under the largest scale that fits. */
  ghost predicate ViewIsTrue<Digest>(r: Receipt<Digest>) {
    && r.identityScale == (r.derived == r.displayed)
    && exists scale :: ViewOf(r.source, scale, r.derived)
  }

  ghost predicate ViewOf(s: Source, scale: real, view: (int, int)) {
    var turned := s.rotation == 90 || s.rotation == 270;
    ViewHas(if turned then s.codedHeight as real else Stretched(s),
      if turned then Stretched(s) else s.codedHeight as real,
      scale, view)
  }

  /** Whole sides that fit are kept; all others become the nearest even ones. */
  ghost predicate ViewHas(width: real, height: real, scale: real, view: (int, int)) {
    && 0.0 < scale <= 1.0 && Fits(width, height, scale)
    && (forall larger :: larger <= 1.0 && Fits(width, height, larger) ==> larger <= scale)
    && (if scale == 1.0 && width == width.Floor as real && height == height.Floor as real
        then view == (width.Floor, height.Floor)
        else IsNearestEven(Scaled(width, scale), view.0) && IsNearestEven(Scaled(height, scale), view.1))
  }

  lemma DerivedIsTheView(width: real, height: real)
    requires width > 0.0 && height > 0.0
    ensures ViewHas(width, height, Scale(width, height), Derived(width, height))
  {
    hide Scale, NearestBoundedEven;
    ScaleBounds(width, height);
    EvenRounding(Scaled(width, Scale(width, height)), MaximumWidth(width, height));
    EvenRounding(Scaled(height, Scale(width, height)), MaximumHeight(width, height));
    hide Fits, Scaled;
    ScaleIsTheLargest(width, height, 1.0);
    forall larger | larger <= 1.0 && Fits(width, height, larger)
      ensures larger <= Scale(width, height)
    {
      ScaleIsTheLargest(width, height, larger);
    }
  }

  // ----- candidates -----

  /** At most 60 frames a second, rounded up, and two more, but never more than 902. */
  predicate LimitFrom(startUs: int, endUs: int, n: int, limit: int) {
    RoundedUp(60.0 * ((endUs - startUs) as real / 1000000.0), n) && limit == if n + 2 < 902 then n + 2 else 902
  }

  /** One frame period before the clip, and one more than the reorder depth behind it, on the stream's clock. */
  predicate ProbeFrom(s: Source, startUs: int, endUs: int, period: real, probe: (int, int)) {
    var startTime := s.startPts as real * s.timeBase;
    && period * s.nominalRate == 1.0
    && InMicroseconds(Larger(0.0, startTime + startUs as real / 1000000.0 - period), probe.0)
    && InMicroseconds(startTime + endUs as real / 1000000.0 + Periods(s.bFrames + 1, period), probe.1)
  }

  function Periods(n: int, period: real): real {
    n as real * period
  }

  ghost predicate CandidatesAreTrue<Digest>(r: Receipt<Digest>, startUs: int, endUs: int) {
    var s, start, end := r.source, startUs as real / 1000000.0, endUs as real / 1000000.0;
    && r.startTime == s.startPts as real * s.timeBase
    && r.candidateCount == |r.candidates| && 1 <= |r.candidates| <= r.candidateLimit
    && (exists n :: LimitFrom(startUs, endUs, n, r.candidateLimit))
    && (forall i :: 0 <= i < |r.candidates| ==> start <= FrameTime(s, r.candidates[i]) < end)
    && (forall i, k :: 0 <= i < k < |r.candidates| ==> r.candidates[i] < r.candidates[k])
    && r.probe.0 < r.probe.1
    && (exists period :: ProbeFrom(s, startUs, endUs, period, r.probe))
  }

  // ----- selected frames -----

  /**
    The requested time is the middle of bin `i` of `n`, and the candidate at `k` is nearest to it, the
    earliest of several.
  */
  ghost predicate FrameIsTrue<Digest>(r: Receipt<Digest>, startUs: int, endUs: int, i: nat)
    requires i < |r.requested| && |r.requested| == |r.requestedUs| == |r.indices| == |r.points|
    requires |r.requested| == |r.sourceTimes| == |r.sourceUs|
  {
    var s, start, d := r.source, startUs as real / 1000000.0, (endUs - startUs) as real / 1000000.0;
    var n, time, k := |r.requested| as real, r.requested[i], r.indices[i];
    && time - (start + i as real * d / n) == (start + (i + 1) as real * d / n) - time
    && k < |r.candidates| && r.points[i] == r.candidates[k]
    && (forall j :: 0 <= j < |r.candidates| ==>
          var here, there := Gap(FrameTime(s, r.candidates[k]), time), Gap(FrameTime(s, r.candidates[j]), time);
          here < there || (here == there && k <= j))
    && r.sourceTimes[i] == FrameTime(s, r.points[i]) && start <= r.sourceTimes[i] < start + d
    && InMicroseconds(time, r.requestedUs[i]) && InMicroseconds(r.sourceTimes[i], r.sourceUs[i])
  }

  ghost predicate SelectionIsTrue<Digest>(r: Receipt<Digest>, startUs: int, endUs: int) {
    && |r.requested| == |r.requestedUs| == |r.indices| == |r.points| == |r.sourceTimes| == |r.sourceUs| == |r.hashes|
    && r.frameCount == |r.requested| && 16 <= r.frameCount <= 120
    && RoundedUp(8.0 * ((endUs - startUs) as real / 1000000.0), r.frameCount)
    && forall i: nat :: i < |r.requested| ==> FrameIsTrue(r, startUs, endUs, i)
  }

  // ----- whatever is accepted is true -----

  lemma AcceptedSourceIsTrue<Digest>(r: Receipt<Digest>, startUs: int, endUs: int)
    requires r.source.Parsed() && r.source.EffectiveWidth() > 0.0 && r.source.EffectiveHeight() > 0.0
    requires SourceReproduces(r, startUs, endUs)
    ensures SourceIsTrue(r) && ClipIsTrue(r, startUs, endUs)
  {
    hide ToMicroseconds, Stretched, Source.EffectiveWidth, Source.EffectiveHeight;
    var s := r.source;
    EffectiveSides(s);
    RoundsToNearest(s.duration, r.durationUs);
    QuotientTimes(s.EffectiveWidth(), s.EffectiveHeight());
    QuotientTimes(1.0, s.nominalRate);
    ProductOrder(r.overshoot, r.largestOvershoot, s.nominalRate);
  }

  lemma QuotientTimes(a: real, b: real)
    requires b != 0.0
    ensures a / b * b == a
  {
  }

  lemma ProductOrder(a: real, b: real, c: real)
    requires a <= b && c > 0.0
    ensures a * c <= b * c
  {
    assert (b - a) * c >= 0.0;
  }

  lemma AcceptedViewIsTrue<Digest>(r: Receipt<Digest>)
    requires r.source.Parsed() && r.source.EffectiveWidth() > 0.0 && r.source.EffectiveHeight() > 0.0
    requires ViewReproduces(r)
    ensures ViewIsTrue(r)
  {
    hide Derived, ViewHas, Stretched, Source.EffectiveWidth, Source.EffectiveHeight;
    EffectiveSides(r.source);
    DerivedIsTheView(r.source.EffectiveWidth(), r.source.EffectiveHeight());
    assert ViewOf(r.source, Scale(r.source.EffectiveWidth(), r.source.EffectiveHeight()), r.derived);
  }

  lemma ManyPeriods(n: int, rate: real)
    requires rate > 0.0
    ensures n as real / rate == Periods(n, 1.0 / rate)
  {
    var a, b := n as real / rate, Periods(n, 1.0 / rate);
    assert a * rate == n as real;
    assert b * rate == n as real;
    SameFactor(a, b, rate);
  }

  /** The interval is determined by the period: no other numbers are the nearest microseconds. */
  lemma ProbeOfPeriod(s: Source, startUs: int, endUs: int, period: real, probe: (int, int))
    requires s.Parsed() && period == 1.0 / s.nominalRate
    ensures ProbeFrom(s, startUs, endUs, period, probe) <==>
            probe == ProbeInterval(s.StartTime(), s.nominalRate, s.bFrames, Clip(startUs, endUs))
  {
    hide ToMicroseconds, Periods;
    QuotientTimes(1.0, s.nominalRate);
    ManyPeriods(s.bFrames + 1, s.nominalRate);
    var c := Clip(startUs, endUs);
    var first, last :=
      Larger(0.0, s.StartTime() + c.Start() - period), s.StartTime() + c.End() + Periods(s.bFrames + 1, period);
    RoundsToNearest(first, probe.0);
    RoundsToNearest(last, probe.1);
    IntervalEnds(s, c, period);
  }

  lemma IntervalEnds(s: Source, c: Clip, period: real)
    requires s.nominalRate > 0.0 && period == 1.0 / s.nominalRate
    ensures ProbeInterval(s.StartTime(), s.nominalRate, s.bFrames, c)
            == (ToMicroseconds(Larger(0.0, s.StartTime() + c.Start() - period)),
                ToMicroseconds(s.StartTime() + c.End() + Periods(s.bFrames + 1, period)))
  {
    hide ToMicroseconds, Periods, Source.StartTime, Clip.Start, Clip.End;
    ManyPeriods(s.bFrames + 1, s.nominalRate);
  }

  lemma AcceptedCandidatesAreTrue<Digest>(r: Receipt<Digest>, startUs: int, endUs: int)
    requires r.source.Parsed() && CandidatesReproduce(r, startUs, endUs)
    ensures CandidatesAreTrue(r, startUs, endUs)
  {
    hide ToMicroseconds, Increasing, HostCeiling, ProbeFrom, ProbeInterval, FrameTime, Source.TimeOf;
    var s := r.source;
    var start, end := startUs as real / 1000000.0, endUs as real / 1000000.0;
    forall i | 0 <= i < |r.candidates|
      ensures start <= FrameTime(s, r.candidates[i]) < end
    {
      FrameTimeIsTheTime(s, r.candidates[i]);
    }
    AdjacentIncreasing(r.candidates);
    IncreasingIsIncreasing(r.candidates);
    var scaled := Seconds(endUs - startUs) * MAXIMUM_SOURCE_FRAME_RATE as real;
    CeilingsAgree(scaled);
    assert LimitFrom(startUs, endUs, HostCeiling(scaled), r.candidateLimit);
    assert r.startTime == s.StartTime();
    ProbeOfPeriod(s, startUs, endUs, 1.0 / s.nominalRate, r.probe);
    assert ProbeFrom(s, startUs, endUs, 1.0 / s.nominalRate, r.probe);
  }

  lemma IncreasingIsIncreasing(points: seq<int>)
    requires Increasing(points)
    ensures forall i, k :: 0 <= i < k < |points| ==> points[i] < points[k]
  {
  }

  lemma AcceptedFrameIsTrue<Digest>(r: Receipt<Digest>, startUs: int, endUs: int, i: nat)
    requires r.frameCount > 0 && i < |r.requested| == r.frameCount
    requires |r.requested| == |r.requestedUs| == |r.indices| == |r.points| == |r.sourceTimes| == |r.sourceUs|
    requires r.source.Parsed() && FrameReproduces(r, startUs, endUs, i)
    requires forall j, k :: 0 <= j < k < |r.candidates| ==> r.candidates[j] < r.candidates[k]
    ensures FrameIsTrue(r, startUs, endUs, i)
  {
    hide ToMicroseconds, Center, Source.TimeOf, Media.Times;
    var s := r.source;
    var time, k := r.requested[i], r.indices[i];
    CenterIsMidway(Clip(startUs, endUs), r.frameCount, i);
    RoundsToNearest(time, r.requestedUs[i]);
    RoundsToNearest(r.sourceTimes[i], r.sourceUs[i]);
    FrameTimeIsTheTime(s, r.points[i]);
    var times := MediaOf(s, r.candidates).Times();
    forall j | 0 <= j < |r.candidates|
      ensures
        var here, there := Gap(FrameTime(s, r.candidates[k]), time), Gap(FrameTime(s, r.candidates[j]), time);
        here < there || (here == there && k <= j)
    {
      TimesAreFrameTimes(s, r.candidates, k);
      TimesAreFrameTimes(s, r.candidates, j);
      assert Preferred(times, time, k, j);
      if j < k {
        LaterFrame(s, r.candidates[j], r.candidates[k]);
      }
    }
  }

  lemma TimesAreFrameTimes(s: Source, candidates: seq<int>, k: nat)
    requires k < |candidates|
    ensures MediaOf(s, candidates).Times()[k] == FrameTime(s, candidates[k])
  {
  }

  lemma LaterFrame(s: Source, a: int, b: int)
    requires s.timeBase > 0.0 && a < b
    ensures FrameTime(s, a) < FrameTime(s, b)
  {
    ScaledOrder(a - s.startPts, b - s.startPts, s.timeBase);
  }

  lemma AcceptedSelectionIsTrue<Digest>(r: Receipt<Digest>, startUs: int, endUs: int)
    requires r.source.Parsed() && SelectionReproduces(r, startUs, endUs)
    requires forall j, k :: 0 <= j < k < |r.candidates| ==> r.candidates[j] < r.candidates[k]
    ensures SelectionIsTrue(r, startUs, endUs)
  {
    hide FrameReproduces, FrameIsTrue, WorkerCeiling;
    var c := Clip(startUs, endUs);
    FrameCountsAgree(c);
    CeilingsAgree(c.Duration() * TARGET_RATE as real);
    forall i: nat | i < |r.requested|
      ensures FrameIsTrue(r, startUs, endUs, i)
    {
      AcceptedFrameIsTrue(r, startUs, endUs, i);
    }
  }

  /** Everything the host accepts is true of its source, clip and candidates. */
  lemma AcceptedReceiptIsTrue<Digest>(r: Receipt<Digest>, startUs: int, endUs: int, whole: bool)
    requires HostAccepts(r, startUs, endUs, whole)
    ensures SourceIsTrue(r) && ClipIsTrue(r, startUs, endUs) && ViewIsTrue(r)
    ensures CandidatesAreTrue(r, startUs, endUs) && SelectionIsTrue(r, startUs, endUs)
  {
    hide SourceReproduces, CandidatesReproduce, ViewReproduces, SelectionReproduces, WholeVideoReproduces, SourceIsTrue,
      ClipIsTrue, ViewIsTrue, SelectionIsTrue, FrameTime, InMicroseconds, RoundedUp;
    AcceptedSourceIsTrue(r, startUs, endUs);
    AcceptedViewIsTrue(r);
    AcceptedCandidatesAreTrue(r, startUs, endUs);
    AcceptedSelectionIsTrue(r, startUs, endUs);
  }

  // ----- what can be extracted -----

  ghost predicate InsideClip(s: Source, c: Clip, point: int) {
    c.startUs as real / 1000000.0 <= FrameTime(s, point) < c.endUs as real / 1000000.0
  }

  /** The candidates are the probed frames inside the clip: each of them, in the order of the probe. */
  ghost predicate Filtered(s: Source, c: Clip, frames: seq<int>, candidates: seq<int>, places: seq<nat>) {
    && |places| == |candidates|
    && (forall i :: 0 <= i < |places| ==> places[i] < |frames| && candidates[i] == frames[places[i]])
    && (forall i, k :: 0 <= i < k < |places| ==> places[i] < places[k])
    && forall k: nat :: k < |frames| ==> (InsideClip(s, c, frames[k]) <==> k in places)
  }

  lemma CandidatesNext(s: Source, c: Clip, frames: seq<int>, n: nat)
    requires |frames| == n + 1
    ensures
      var front := Candidates(s, c, frames[..n]);
      Candidates(s, c, frames) == if InsideClip(s, c, frames[n]) then front + [frames[n]] else front
  {
    hide FrameTime, Source.TimeOf;
    FrameTimeIsTheTime(s, frames[n]);
  }

  lemma FilteredNext(s: Source, c: Clip, frames: seq<int>, n: nat, front: seq<int>, places: seq<nat>)
    requires |frames| == n + 1 && Filtered(s, c, frames[..n], front, places)
    ensures InsideClip(s, c, frames[n]) ==> Filtered(s, c, frames, front + [frames[n]], places + [n])
    ensures !InsideClip(s, c, frames[n]) ==> Filtered(s, c, frames, front, places)
  {
    hide InsideClip;
    assert n !in places;
  }

  lemma NothingFiltered(s: Source, c: Clip)
    ensures Filtered(s, c, [], Candidates(s, c, []), [])
  {
  }

  lemma {:induction false} CandidatesAreFiltered(s: Source, c: Clip, frames: seq<int>)
    ensures exists places :: Filtered(s, c, frames, Candidates(s, c, frames), places)
  {
    hide InsideClip, Filtered, Candidates;
    if frames == [] {
      NothingFiltered(s, c);
    } else {
      var n := |frames| - 1;
      CandidatesAreFiltered(s, c, frames[..n]);
      var front := Candidates(s, c, frames[..n]);
      var places :| Filtered(s, c, frames[..n], front, places);
      CandidatesNext(s, c, frames, n);
      FilteredNext(s, c, frames, n, front, places);
    }
  }

  /** The clip of a whole video is all of it; any other clip is given by the caller. */
  ghost predicate ClipToExtract(s: Source, clip: Option<Clip>, whole: bool, c: Clip) {
    if whole then clip == None && c.startUs == 0 && InMicroseconds(s.duration, c.endUs) else clip == Some(c)
  }

  /** A bounded size whichever way round it is. */
  predicate SidesUpTo(s: Source, long: int, short: int) {
    && s.codedWidth <= long && s.codedHeight <= long
    && (s.codedWidth <= short || s.codedHeight <= short)
  }

  ghost predicate ProfileFits(s: Source, whole: bool) {
    && SidesUpTo(s, 3840, 2160) && s.nominalRate <= 60.0
    && (whole ==>
          && s.byteCount <= 16777216 && s.h264 && s.audioStreams == 0
          && SidesUpTo(s, 1280, 720) && s.nominalRate <= 30.0 && 2.0 <= s.duration <= 15.0)
  }

  lemma ProfileIsCheckedExactly(s: Source, clip: Option<Clip>, whole: bool, c: Clip)
    requires s.Parsed()
    ensures ChosenClip(s, clip, whole) == Ok(c) <==> ProfileFits(s, whole) && ClipToExtract(s, clip, whole, c)
  {
    hide ToMicroseconds;
    RoundsToNearest(s.duration, ToMicroseconds(s.duration));
    if whole {
      RoundsToNearest(s.duration, c.endUs);
    }
  }

  /** The clip meets the source, and the probe finds a bounded and strictly increasing number of frames in it. */
  ghost predicate ClipFits(s: Source, c: Clip, frames: seq<int>) {
    var candidates := Candidates(s, c, frames);
    && s.duration > 0.0 && c.startUs as real / 1000000.0 < s.duration
    && (c.endUs as real / 1000000.0 - s.duration) * s.nominalRate <= 1.0
    && (exists period, probe :: ProbeFrom(s, c.startUs, c.endUs, period, probe) && probe.0 < probe.1)
    && (exists n, limit :: LimitFrom(c.startUs, c.endUs, n, limit) && 1 <= |candidates| <= limit)
    && forall i, k :: 0 <= i < k < |candidates| ==> candidates[i] < candidates[k]
  }

  lemma ProbeIsDetermined(s: Source, c: Clip, period: real, probe: (int, int))
    requires s.Parsed()
    ensures ProbeFrom(s, c.startUs, c.endUs, period, probe) <==>
            period == 1.0 / s.nominalRate && probe == ProbeInterval(s.StartTime(), s.nominalRate, s.bFrames, c)
  {
    hide ProbeInterval, InMicroseconds, Periods, Larger;
    QuotientTimes(1.0, s.nominalRate);
    if period * s.nominalRate == 1.0 {
      SameFactor(period, 1.0 / s.nominalRate, s.nominalRate);
    }
    hide ProbeFrom;
    if period == 1.0 / s.nominalRate {
      ProbeOfPeriod(s, c.startUs, c.endUs, period, probe);
    }
  }

  lemma LimitIsDetermined(c: Clip, n: int, limit: int)
    ensures LimitFrom(c.startUs, c.endUs, n, limit) <==>
            n == WorkerCeiling(c.Duration() * MAXIMUM_SOURCE_FRAME_RATE as real) && limit == WorkerCandidateLimit(c)
  {
    CeilingsAgree(c.Duration() * MAXIMUM_SOURCE_FRAME_RATE as real);
  }

  lemma ClipIsCheckedExactly(s: Source, c: Clip, frames: seq<int>)
    requires s.Parsed()
    ensures ClipError(s, c, frames).None? <==> ClipFits(s, c, frames)
  {
    hide ToMicroseconds, ProbeInterval, WorkerCandidateLimit, ProbeFrom, LimitFrom, Candidates, WorkerCeiling;
    var period, probe := 1.0 / s.nominalRate, ProbeInterval(s.StartTime(), s.nominalRate, s.bFrames, c);
    var n, limit := WorkerCeiling(c.Duration() * MAXIMUM_SOURCE_FRAME_RATE as real), WorkerCandidateLimit(c);
    ProbeIsDetermined(s, c, period, probe);
    LimitIsDetermined(c, n, limit);
    forall p, q
      ensures ProbeFrom(s, c.startUs, c.endUs, p, q) ==> q == probe
    {
      ProbeIsDetermined(s, c, p, q);
    }
    forall m, l
      ensures LimitFrom(c.startUs, c.endUs, m, l) ==> l == limit
    {
      LimitIsDetermined(c, m, l);
    }
    OvershootIsOneFrame(s, c);
    NoFramesNoCandidates(s, c);
  }

  lemma NoFramesNoCandidates(s: Source, c: Clip)
    ensures Candidates(s, c, []) == []
  {
  }

  lemma OvershootIsOneFrame(s: Source, c: Clip)
    requires s.Parsed()
    ensures Overshoot(s, c) <= LargestOvershoot(s) <==>
            (c.endUs as real / 1000000.0 - s.duration) * s.nominalRate <= 1.0
  {
    var over, period := c.End() - s.duration, 1.0 / s.nominalRate;
    QuotientTimes(1.0, s.nominalRate);
    assert period > 0.0;
    if over <= period {
      ProductOrder(over, period, s.nominalRate);
    } else {
      LargerProduct(over, period, s.nominalRate);
    }
  }

  /** The worker's probe accepts a source, a clip and its frames exactly when they fit in this sense. */
  lemma ProbeAcceptsExactly(s: Source, clip: Option<Clip>, whole: bool, frames: seq<int>, c: Clip)
    requires s.Parsed()
    ensures ChosenClip(s, clip, whole) == Ok(c) && ClipError(s, c, frames).None? <==>
            ProfileFits(s, whole) && ClipToExtract(s, clip, whole, c) && ClipFits(s, c, frames)
  {
    hide ChosenClip, ClipError, ProfileFits, ClipToExtract, ClipFits;
    ProfileIsCheckedExactly(s, clip, whole, c);
    ClipIsCheckedExactly(s, c, frames);
  }
}
