/**
  The worker's arithmetic on the probed source: the clip of a whole video, how far a clip may run
  past the source, which interval to probe for candidates, and which frames are candidates.
*/
module MediaProbe {
  import opened Outcomes
  import opened ClipTime
  import opened FrameSelector
  import opened DerivedView

  const LONG_SOURCE_SIDE := 3840
  const SHORT_SOURCE_SIDE := 2160
  const WHOLE_VIDEO_BYTES := 16 * 1024 * 1024

  /** What the prober reports of the one video stream, already parsed. */
  datatype Source = Source(
    codedWidth: int, codedHeight: int, rotation: int, aspect: real, nominalRate: real, bFrames: int,
    timeBase: real, startPts: int, duration: real, byteCount: int, h264: bool, audioStreams: nat)
  {
    /** What the parsers have accepted. */
    predicate Parsed() {
      && codedWidth > 0 && codedHeight > 0 && rotation in {0, 90, 180, 270}
      && -0.01 <= aspect - 1.0 <= 0.01 && nominalRate > 0.0 && timeBase > 0.0 && 0 <= bFrames <= 2
    }

    function StartTime(): real {
      startPts as real * timeBase
    }

    /** A presentation timestamp in seconds from the stream's start. */
    function TimeOf(point: int): real {
      point as real * timeBase - StartTime()
    }

    function DisplayedWidth(): int {
      if rotation in {90, 270} then codedHeight else codedWidth
    }

    function DisplayedHeight(): int {
      if rotation in {90, 270} then codedWidth else codedHeight
    }

    /** With the pixel aspect ratio applied to the coded width. */
    function EffectiveWidth(): real {
      if rotation in {0, 180} then codedWidth as real * aspect else codedHeight as real
    }

    function EffectiveHeight(): real {
      if rotation in {0, 180} then codedHeight as real else codedWidth as real * aspect
    }
  }

  function DisplayAspect(s: Source): real
    requires s.EffectiveHeight() > 0.0
  {
    s.EffectiveWidth() / s.EffectiveHeight()
  }

  lemma EffectiveSidesArePositive(s: Source)
    requires s.Parsed()
    ensures s.EffectiveWidth() > 0.0 && s.EffectiveHeight() > 0.0
  {
    assert s.codedWidth as real * s.aspect > 0.0;
  }

  function Maximum(a: int, b: int): int {
    if a < b then b else a
  }

  function Minimum(a: int, b: int): int {
    if a < b then a else b
  }

  predicate SidesWithin(s: Source, long: int, short: int) {
    Maximum(s.DisplayedWidth(), s.DisplayedHeight()) <= long
      && Minimum(s.DisplayedWidth(), s.DisplayedHeight()) <= short
  }

  datatype ProbeError =
    | SourceTooLarge | FrameRateTooHigh | CallerBoundsForWholeVideo | OutsideWholeVideoProfile | NoClip
    | EscapesSource | EmptyProbe | NoFrames | CandidateCount | NotIncreasing

  /** The profile of a video that is extracted as a whole. */
  predicate FitsWholeVideo(s: Source) {
    && s.byteCount <= WHOLE_VIDEO_BYTES && s.h264 && s.audioStreams == 0
    && SidesWithin(s, LONG_SIDE, SHORT_SIDE) && s.nominalRate <= 30.0
    && MINIMUM_CLIP_US <= ToMicroseconds(s.duration) <= MAXIMUM_CLIP_US
    && Seconds(MINIMUM_CLIP_US) <= s.duration <= Seconds(MAXIMUM_CLIP_US)
  }

  function Overshoot(s: Source, c: Clip): real {
    if c.End() - s.duration > 0.0 then c.End() - s.duration else 0.0
  }

  function LargestOvershoot(s: Source): real
    requires s.nominalRate > 0.0
  {
    1.0 / s.nominalRate
  }

  /** One frame before the clip and one more than the reorder depth after it, on the stream's own clock. */
  function ProbeInterval(startTime: real, rate: real, bFrames: int, c: Clip): (int, int)
    requires rate > 0.0
  {
    var start := startTime + c.Start() - 1.0 / rate;
    var end := startTime + c.End() + (bFrames + 1) as real / rate;
    (ToMicroseconds(if start > 0.0 then start else 0.0), ToMicroseconds(end))
  }

  predicate InClip(s: Source, c: Clip, point: int) {
    c.Start() <= s.TimeOf(point) < c.End()
  }

  /** The probed frames inside the clip, in their order. */
  function Candidates(s: Source, c: Clip, frames: seq<int>): seq<int> {
    if frames == [] then []
    else
      var front := Candidates(s, c, frames[..|frames| - 1]);
      if InClip(s, c, frames[|frames| - 1]) then front + [frames[|frames| - 1]] else front
  }

  /** The clip to extract, or why there is none. */
  function ChosenClip(s: Source, clip: Option<Clip>, whole: bool): Result<Clip, ProbeError> {
    if !SidesWithin(s, LONG_SOURCE_SIDE, SHORT_SOURCE_SIDE) then Err(SourceTooLarge)
    else if s.nominalRate > MAXIMUM_SOURCE_FRAME_RATE as real then Err(FrameRateTooHigh)
    else if whole then
      if clip.Some? then Err(CallerBoundsForWholeVideo)
      else if !FitsWholeVideo(s) then Err(OutsideWholeVideoProfile)
      else Ok(Clip(0, ToMicroseconds(s.duration)))
    else if clip.None? then Err(NoClip)
    else Ok(clip.value)
  }

  /** Why a clip of this source cannot be extracted from these probed frames, if it cannot. */
  function ClipError(s: Source, c: Clip, frames: seq<int>): Option<ProbeError>
    requires s.nominalRate > 0.0
  {
    var interval := ProbeInterval(s.StartTime(), s.nominalRate, s.bFrames, c);
    var candidates := Candidates(s, c, frames);
    if s.duration <= 0.0 || c.Start() >= s.duration || Overshoot(s, c) > LargestOvershoot(s) then Some(EscapesSource)
    else if interval.1 <= interval.0 then Some(EmptyProbe)
    else if frames == [] then Some(NoFrames)
    else if candidates == [] || |candidates| > WorkerCandidateLimit(c) then Some(CandidateCount)
    else if !Increasing(candidates) then Some(NotIncreasing)
    else None
  }

  /** The checks of one probe, in the worker's order, with the loop that collects the candidates. */
  method Probe(s: Source, clip: Option<Clip>, whole: bool, frames: seq<int>)
    returns (r: Result<(Clip, seq<int>), ProbeError>)
    requires s.Parsed()
    ensures ChosenClip(s, clip, whole).Err? ==> r == Err(ChosenClip(s, clip, whole).error)
    ensures ChosenClip(s, clip, whole).Ok? ==>
              var c := ChosenClip(s, clip, whole).value;
              if ClipError(s, c, frames).Some? then r == Err(ClipError(s, c, frames).value)
              else r == Ok((c, Candidates(s, c, frames)))
  {
    hide ToMicroseconds, Center, WorkerCandidateLimit, Increasing, InClip, FitsWholeVideo, SidesWithin;
    var chosen := ChosenClip(s, clip, whole);
    if chosen.Err? {
      return Err(chosen.error);
    }
    var c := chosen.value;
    if s.duration <= 0.0 || c.Start() >= s.duration || Overshoot(s, c) > LargestOvershoot(s) {
      return Err(EscapesSource);
    }
    var interval := ProbeInterval(s.StartTime(), s.nominalRate, s.bFrames, c);
    if interval.1 <= interval.0 {
      return Err(EmptyProbe);
    }
    if frames == [] {
      return Err(NoFrames);
    }
    var candidates := [];
    for i := 0 to |frames|
      invariant candidates == Candidates(s, c, frames[..i])
    {
      assert frames[..i + 1][..i] == frames[..i];
      if InClip(s, c, frames[i]) {
        candidates := candidates + [frames[i]];
      }
    }
    assert frames[..|frames|] == frames;
    if candidates == [] || |candidates| > WorkerCandidateLimit(c) {
      return Err(CandidateCount);
    }
    if !Increasing(candidates) {
      return Err(NotIncreasing);
    }
    return Ok((c, candidates));
  }

  /** Candidates are exactly the probed frames inside the clip. */
  lemma {:induction false} CandidatesAreInTheClip(s: Source, c: Clip, frames: seq<int>)
    ensures forall p :: p in Candidates(s, c, frames) <==> p in frames && InClip(s, c, p)
  {
    hide InClip;
    if frames != [] {
      CandidatesAreInTheClip(s, c, frames[..|frames| - 1]);
      assert frames == frames[..|frames| - 1] + [frames[|frames| - 1]];
    }
  }

  /** The clip of a whole video passes every check on clips: it is bounded and cannot escape its source. */
  lemma WholeVideoClipFits(s: Source)
    requires s.Parsed() && FitsWholeVideo(s)
    ensures
      var c := Clip(0, ToMicroseconds(s.duration));
      c.Bounded() && s.duration > 0.0 && c.Start() < s.duration && Overshoot(s, c) <= LargestOvershoot(s)
  {
    var us := ToMicroseconds(s.duration);
    RoundsToNearest(s.duration, us);
    assert Seconds(us) - s.duration < 0.000001;
  }

  /**
    The probe reaches every frame that may matter: one frame period before the clip, and after it one
    more period than frames can be reordered by. To half a microsecond it reaches no further.
  */
  lemma ProbeCoversTheClip(startTime: real, rate: real, bFrames: int, c: Clip, t: real)
    requires rate > 0.0 && startTime + t >= 0.0
    requires c.Start() - 1.0 / rate <= t <= c.End() + (bFrames + 1) as real / rate
    ensures
      var interval := ProbeInterval(startTime, rate, bFrames, c);
      && Seconds(interval.0) - 0.0000005 <= startTime + t <= Seconds(interval.1) + 0.0000005
      && (t == c.End() + (bFrames + 1) as real / rate ==> startTime + t >= Seconds(interval.1) - 0.0000005)
      && (t == c.Start() - 1.0 / rate ==> startTime + t <= Seconds(interval.0) + 0.0000005)
  {
    var start := startTime + c.Start() - 1.0 / rate;
    var first := if start > 0.0 then start else 0.0;
    var end := startTime + c.End() + (bFrames + 1) as real / rate;
    RoundsToNearest(first, ToMicroseconds(first));
    RoundsToNearest(end, ToMicroseconds(end));
  }

  /** A probe that starts at or after the stream's own start is never empty. */
  lemma ProbeIsNotEmpty(startTime: real, rate: real, bFrames: int, c: Clip)
    requires startTime >= 0.0 && rate > 0.0 && bFrames >= 0 && c.Bounded()
    ensures var interval := ProbeInterval(startTime, rate, bFrames, c); 0 <= interval.0 < interval.1
  {
    var start := startTime + c.Start() - 1.0 / rate;
    var first := if start > 0.0 then start else 0.0;
    var end := startTime + c.End() + (bFrames + 1) as real / rate;
    assert end - first > 1.0;
    RoundsToNearest(first, ToMicroseconds(first));
    RoundsToNearest(end, ToMicroseconds(end));
  }
}
