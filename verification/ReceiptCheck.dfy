/**
  The worker's receipt and the host's independent recomputation of it. Whatever the worker extracts,
  the host's formulas confirm; and what the host confirms leaves the worker no choice.
*/
module ReceiptCheck {
  import opened Outcomes
  import opened ClipTime
  import opened FrameSelector
  import opened DerivedView
  import opened MediaProbe

  /** The numeric content of a receipt: `source` is what was probed, the rest is what was computed from it. */
  datatype Receipt<Digest> = Receipt(
    source: Source, displayed: (int, int), displayAspect: real, durationUs: int,
    clip: Clip, clipDurationUs: int, overshoot: real, largestOvershoot: real, largestRate: real,
    startTime: real, candidateCount: int, candidateLimit: int, candidates: seq<int>, probe: (int, int),
    derived: (int, int), identityScale: bool,
    frameCount: int, requested: seq<real>, requestedUs: seq<int>, indices: seq<nat>, points: seq<int>,
    sourceTimes: seq<real>, sourceUs: seq<int>, hashes: seq<Digest>)

  function AllMicroseconds(times: seq<real>): (r: seq<int>)
    ensures |r| == |times| && forall i :: 0 <= i < |r| ==> r[i] == ToMicroseconds(times[i])
  {
    seq(|times|, i requires 0 <= i < |times| => ToMicroseconds(times[i]))
  }

  function PointTimes(s: Source, points: seq<int>): (r: seq<real>)
    ensures |r| == |points| && forall i :: 0 <= i < |r| ==> r[i] == s.TimeOf(points[i])
  {
    seq(|points|, i requires 0 <= i < |points| => s.TimeOf(points[i]))
  }

  function MediaOf(s: Source, candidates: seq<int>): Media {
    Media(s.timeBase, s.StartTime(), candidates)
  }

  // ----- the worker -----

  function WriteReceipt<Digest>(s: Source, c: Clip, candidates: seq<int>, selection: Selection,
      hashes: seq<Digest>): Receipt<Digest>
    requires s.Parsed() && s.EffectiveWidth() > 0.0 && s.EffectiveHeight() > 0.0
  {
    var derived := Derived(s.EffectiveWidth(), s.EffectiveHeight());
    Receipt(
      s, (s.DisplayedWidth(), s.DisplayedHeight()), DisplayAspect(s), ToMicroseconds(s.duration),
      c, c.DurationUs(), Overshoot(s, c), LargestOvershoot(s), MAXIMUM_SOURCE_FRAME_RATE as real,
      s.StartTime(), |candidates|, WorkerCandidateLimit(c), candidates,
      ProbeInterval(s.StartTime(), s.nominalRate, s.bFrames, c),
      derived, derived == (s.DisplayedWidth(), s.DisplayedHeight()),
      |selection.requested|, selection.requested, AllMicroseconds(selection.requested),
      selection.indices, selection.points, PointTimes(s, selection.points),
      AllMicroseconds(PointTimes(s, selection.points)),
      hashes)
  }

  // ----- the host -----

  /** The record of the source and of the clip reproduces. */
  ghost predicate SourceReproduces<Digest>(r: Receipt<Digest>, startUs: int, endUs: int)
    requires r.source.Parsed() && r.source.EffectiveHeight() > 0.0
  {
    var s := r.source;
    && r.clip == Clip(startUs, endUs) && r.clipDurationUs == endUs - startUs
    && r.displayed == (if s.rotation in {90, 270} then (s.codedHeight, s.codedWidth) else (s.codedWidth, s.codedHeight))
    && Maximum(r.displayed.0, r.displayed.1) <= LONG_SOURCE_SIDE
    && Minimum(r.displayed.0, r.displayed.1) <= SHORT_SOURCE_SIDE
    && r.displayAspect == s.EffectiveWidth() / s.EffectiveHeight()
    && s.duration > 0.0 && r.durationUs == ToMicroseconds(s.duration) && Seconds(startUs) < s.duration
    && r.overshoot == (if Seconds(endUs) - s.duration > 0.0 then Seconds(endUs) - s.duration else 0.0)
    && r.largestOvershoot == 1.0 / s.nominalRate && r.overshoot <= r.largestOvershoot
    && r.largestRate == MAXIMUM_SOURCE_FRAME_RATE as real && s.nominalRate <= MAXIMUM_SOURCE_FRAME_RATE as real
  }

  /** The candidates and the limits on them reproduce. */
  ghost predicate CandidatesReproduce<Digest>(r: Receipt<Digest>, startUs: int, endUs: int)
    requires r.source.Parsed()
  {
    var s := r.source;
    && r.startTime == s.startPts as real * s.timeBase
    && r.candidateCount == |r.candidates| >= 1
    && r.candidateLimit == HostCandidateLimit(endUs - startUs)
    && r.candidateCount <= r.candidateLimit && r.candidateCount <= MAXIMUM_CANDIDATE_FRAMES
    && r.probe == ProbeInterval(r.startTime, s.nominalRate, s.bFrames, Clip(startUs, endUs)) && r.probe.0 < r.probe.1
    && (forall i :: 0 <= i < |r.candidates| - 1 ==> r.candidates[i] < r.candidates[i + 1])
    && forall i :: 0 <= i < |r.candidates| ==>
         Seconds(startUs) <= s.TimeOf(r.candidates[i]) < Seconds(endUs)
  }

  ghost predicate ViewReproduces<Digest>(r: Receipt<Digest>)
    requires r.source.Parsed() && r.source.EffectiveWidth() > 0.0 && r.source.EffectiveHeight() > 0.0
  {
    && r.derived == Derived(r.source.EffectiveWidth(), r.source.EffectiveHeight())
    && r.identityScale == (r.derived == r.displayed)
  }

  /** One requested time, and the candidate and times recorded for it. */
  ghost predicate FrameReproduces<Digest>(r: Receipt<Digest>, startUs: int, endUs: int, i: nat)
    requires r.frameCount > 0 && i < |r.requested| && i < |r.requestedUs| && i < |r.indices| && i < |r.points|
    requires i < |r.sourceTimes| && i < |r.sourceUs|
  {
    var s, count := r.source, r.frameCount;
    && r.requested[i] == Center(Clip(startUs, endUs), count, i)
    && r.requestedUs[i] == ToMicroseconds(r.requested[i])
    && IsNearest(MediaOf(s, r.candidates).Times(), r.requested[i], r.indices[i])
    && r.indices[i] < |r.candidates| && r.points[i] == r.candidates[r.indices[i]]
    && r.sourceTimes[i] == s.TimeOf(r.points[i])
    && r.sourceUs[i] == ToMicroseconds(r.sourceTimes[i])
    && Seconds(startUs) <= r.sourceTimes[i] < Seconds(endUs)
  }

  /** The frame selection reproduces from the clip and the candidates. */
  ghost predicate SelectionReproduces<Digest>(r: Receipt<Digest>, startUs: int, endUs: int) {
    var count := HostFrameCount(endUs - startUs);
    && 16 <= count <= 120 && r.frameCount == count
    && |r.requested| == |r.requestedUs| == |r.indices| == |r.points| == |r.sourceTimes| == |r.sourceUs| ==
         |r.hashes| == count
    && (forall i: nat :: i < count ==> FrameReproduces(r, startUs, endUs, i))
    && (forall i :: 0 <= i < count - 1 ==>
          && r.indices[i] <= r.indices[i + 1] && r.points[i] <= r.points[i + 1]
          && (r.points[i] == r.points[i + 1] ==> r.indices[i] == r.indices[i + 1] && r.hashes[i] == r.hashes[i + 1]))
  }

  ghost predicate WholeVideoReproduces<Digest>(r: Receipt<Digest>, startUs: int, endUs: int) {
    && startUs == 0 && r.source.byteCount <= WHOLE_VIDEO_BYTES && r.source.h264 && r.source.audioStreams == 0
    && Maximum(r.displayed.0, r.displayed.1) <= LONG_SIDE && Minimum(r.displayed.0, r.displayed.1) <= SHORT_SIDE
    && r.source.nominalRate <= 30.0 && r.durationUs == endUs && MINIMUM_CLIP_US <= r.durationUs <= MAXIMUM_CLIP_US
  }

  /** The host accepts a receipt for the clip it asked for, or in whole-video mode for the clip the worker reports. */
  ghost predicate HostAccepts<Digest>(r: Receipt<Digest>, startUs: int, endUs: int, whole: bool) {
    && r.source.Parsed() && r.source.EffectiveWidth() > 0.0 && r.source.EffectiveHeight() > 0.0
    && SourceReproduces(r, startUs, endUs) && CandidatesReproduce(r, startUs, endUs) && ViewReproduces(r)
    && SelectionReproduces(r, startUs, endUs)
    && (whole ==> WholeVideoReproduces(r, startUs, endUs))
  }

  // ----- the host confirms the worker -----

  /** The clip the worker was given, or in whole-video mode makes itself, is bounded. */
  ghost predicate AcceptableClip(s: Source, clip: Option<Clip>, whole: bool, c: Clip) {
    ChosenClip(s, clip, whole) == Ok(c) && (clip.Some? ==> clip.value.Bounded())
  }

  lemma SourceIsConfirmed<Digest>(s: Source, clip: Option<Clip>, whole: bool, c: Clip, frames: seq<int>,
      selection: Selection, hashes: seq<Digest>)
    requires s.Parsed() && s.EffectiveWidth() > 0.0 && s.EffectiveHeight() > 0.0
    requires AcceptableClip(s, clip, whole, c) && ClipError(s, c, frames).None?
    ensures
      var r := WriteReceipt(s, c, Candidates(s, c, frames), selection, hashes);
      && SourceReproduces(r, c.startUs, c.endUs) && ViewReproduces(r)
      && (whole ==> WholeVideoReproduces(r, c.startUs, c.endUs))
  {
    hide ToMicroseconds, Derived, WorkerCandidateLimit, Increasing, Candidates, AllMicroseconds, PointTimes,
      ProbeInterval;
  }

  lemma CandidatesAreConfirmed<Digest>(s: Source, c: Clip, frames: seq<int>, selection: Selection, hashes: seq<Digest>)
    requires s.Parsed() && s.EffectiveWidth() > 0.0 && s.EffectiveHeight() > 0.0
    requires ClipError(s, c, frames).None?
    ensures
      var r := WriteReceipt(s, c, Candidates(s, c, frames), selection, hashes);
      CandidatesReproduce(r, c.startUs, c.endUs)
  {
    hide ToMicroseconds, Derived, WorkerCandidateLimit, HostCandidateLimit, Candidates, AllMicroseconds, PointTimes,
      ProbeInterval;
    CandidateLimitsAgree(c);
    LimitIsBounded(c);
    CandidatesAreInTheClip(s, c, frames);
    var candidates := Candidates(s, c, frames);
    forall i | 0 <= i < |candidates|
      ensures InClip(s, c, candidates[i])
    {
      assert candidates[i] in candidates;
    }
  }

  lemma LimitIsBounded(c: Clip)
    ensures WorkerCandidateLimit(c) <= MAXIMUM_CANDIDATE_FRAMES
  {
  }

  lemma FrameIsConfirmed<Digest>(s: Source, c: Clip, candidates: seq<int>, selection: Selection, hashes: seq<Digest>,
      i: nat)
    requires s.Parsed() && s.EffectiveWidth() > 0.0 && s.EffectiveHeight() > 0.0
    requires forall p :: p in candidates ==> InClip(s, c, p)
    requires i < WorkerFrameCount(c) && Selects(MediaOf(s, candidates), c, WorkerFrameCount(c), selection)
    ensures FrameReproduces(WriteReceipt(s, c, candidates, selection, hashes), c.startUs, c.endUs, i)
  {
    hide ToMicroseconds, Derived, WorkerCandidateLimit, WorkerFrameCount, IsNearest, ProbeInterval, Media.Times, Center,
      Overshoot, LargestOvershoot, Source.TimeOf;
    InRange(MediaOf(s, candidates).Times(), selection.requested[i], selection.indices[i]);
    assert selection.points[i] in candidates;
    assert Clip(c.startUs, c.endUs) == c;
  }

  /** Neighbouring outputs are in order, and share a frame exactly when they share a timestamp. */
  lemma NeighboursAreConfirmed<Digest>(m: Media, c: Clip, selection: Selection, hashes: seq<Digest>, i: nat)
    requires m.timeBase > 0.0 && Increasing(m.candidates) && c.Bounded()
    requires WorkerFrameCount(c) > 0 && Selects(m, c, WorkerFrameCount(c), selection)
    requires i + 1 < |selection.points| == |hashes|
    requires selection.points[i] == selection.points[i + 1] ==> hashes[i] == hashes[i + 1]
    ensures selection.indices[i] <= selection.indices[i + 1] && selection.points[i] <= selection.points[i + 1]
    ensures selection.points[i] == selection.points[i + 1] ==>
              selection.indices[i] == selection.indices[i + 1] && hashes[i] == hashes[i + 1]
  {
    hide WorkerFrameCount, IsNearest, Media.Times, Center, TimestampsIncrease;
    SelectionIsOrdered(m, c, selection);
    InRange(m.Times(), selection.requested[i], selection.indices[i]);
    InRange(m.Times(), selection.requested[i + 1], selection.indices[i + 1]);
    if selection.indices[i] != selection.indices[i + 1] {
    }
  }

  lemma SelectionIsConfirmed<Digest>(s: Source, c: Clip, candidates: seq<int>, selection: Selection,
      hashes: seq<Digest>)
    requires s.Parsed() && s.EffectiveWidth() > 0.0 && s.EffectiveHeight() > 0.0 && c.Bounded()
    requires Increasing(candidates) && forall p :: p in candidates ==> InClip(s, c, p)
    requires WorkerFrameCount(c) > 0 && Selects(MediaOf(s, candidates), c, WorkerFrameCount(c), selection)
    requires |hashes| == |selection.points|
    requires forall i, k :: 0 <= i < |hashes| && 0 <= k < |hashes| && selection.points[i] == selection.points[k] ==>
             hashes[i] == hashes[k]
    ensures SelectionReproduces(WriteReceipt(s, c, candidates, selection, hashes), c.startUs, c.endUs)
  {
    hide ToMicroseconds, Derived, WorkerCandidateLimit, WorkerFrameCount, HostFrameCount, FrameReproduces,
      ProbeInterval, Selects,
      Overshoot, LargestOvershoot, InClip;
    FrameCountIsBounded(c);
    FrameCountsAgree(c);
    SelectedCount(MediaOf(s, candidates), c, selection);
    var r := WriteReceipt(s, c, candidates, selection, hashes);
    forall i: nat | i < r.frameCount
      ensures FrameReproduces(r, c.startUs, c.endUs, i)
    {
      FrameIsConfirmed(s, c, candidates, selection, hashes, i);
    }
    forall i | 0 <= i < r.frameCount - 1
      ensures r.indices[i] <= r.indices[i + 1] && r.points[i] <= r.points[i + 1]
      ensures r.points[i] == r.points[i + 1] ==> r.indices[i] == r.indices[i + 1] && r.hashes[i] == r.hashes[i + 1]
    {
      NeighboursAreConfirmed(MediaOf(s, candidates), c, selection, hashes, i);
    }
  }

  datatype WorkerError =
    | ProbeFailed(why: ProbeError) | SelectionFailed | FilterFailed | DecodingFailed(reason: ExtractionError)

  /**
    The extraction, from the probe to the receipt. It fails only where the source, the clip or the
    probed frames fail their checks, or where the decoder does not deliver exactly one frame for
    each selected timestamp; and the host accepts the numbers of every receipt it writes. (It also
    bounds the text in which a rational number is written, which the worker does only for its inputs.)
  */
  method Extract<Frame(==), Digest(0)>(
      s: Source, clip: Option<Clip>, whole: bool, frames: seq<int>, decoded: seq<Frame>, digest: Frame -> Digest)
    returns (r: Result<Receipt<Digest>, WorkerError>)
    requires s.Parsed() && (clip.Some? ==> clip.value.Bounded())
    ensures r.Ok? ==>
              && AcceptableClip(s, clip, whole, r.value.clip) && ClipError(s, r.value.clip, frames).None?
              && r.value.source == s && HostAccepts(r.value, r.value.clip.startUs, r.value.clip.endUs, whole)
    ensures r.Err? ==> r.error.ProbeFailed? || r.error.DecodingFailed?
    ensures r.Err? && r.error.ProbeFailed? <==>
            ChosenClip(s, clip, whole).Err? || ClipError(s, ChosenClip(s, clip, whole).value, frames).Some?
  {
    hide ToMicroseconds, Derived, WorkerCandidateLimit, WorkerFrameCount, IsNearest, Candidates, Unique, Visits,
      SourceReproduces, ViewReproduces, WholeVideoReproduces, CandidatesReproduce, SelectionReproduces, Selects,
      Power2, Leaves;
    var probed := Probe(s, clip, whole, frames);
    if probed.Err? {
      return Err(ProbeFailed(probed.error));
    }
    var c, candidates := probed.value.0, probed.value.1;
    EffectiveSidesArePositive(s);
    ProbedCandidates(s, c, frames);
    var selection := SelectBoundedClip(MediaOf(s, candidates), c);
    var unique := ComputeUnique(selection.points);
    UniqueIsSorted(selection.points);
    UniqueIsShort(selection.points);
    var filter := SelectFilter(unique);
    if filter.Err? {
      return Err(FilterFailed);
    }
    var hashed, visits := ExtractFrames(selection.points, decoded, digest);
    if hashed.Err? {
      return Err(DecodingFailed(hashed.error));
    }
    var hashes := hashed.value;
    SameFrameSameHash(selection.points, decoded, digest, hashes);
    SourceIsConfirmed(s, clip, whole, c, frames, selection, hashes);
    CandidatesAreConfirmed(s, c, frames, selection, hashes);
    SelectionIsConfirmed(s, c, candidates, selection, hashes);
    return Ok(WriteReceipt(s, c, candidates, selection, hashes));
  }

  lemma ProbedCandidates(s: Source, c: Clip, frames: seq<int>)
    requires s.Parsed() && ClipError(s, c, frames).None?
    ensures Candidates(s, c, frames) != [] && Increasing(Candidates(s, c, frames))
    ensures forall p :: p in Candidates(s, c, frames) ==> InClip(s, c, p)
  {
    hide InClip, WorkerCandidateLimit, ProbeInterval;
    CandidatesAreInTheClip(s, c, frames);
  }

  lemma {:induction false} InsertIsShort(sorted: seq<int>, point: int)
    ensures 1 <= |Insert(sorted, point)| <= |sorted| + 1
  {
    if sorted != [] {
      InsertIsShort(sorted[..|sorted| - 1], point);
    }
  }

  lemma {:induction false} UniqueIsShort(points: seq<int>)
    ensures |Unique(points)| <= |points| && (points != [] ==> Unique(points) != [])
  {
    if points != [] {
      UniqueIsShort(points[..|points| - 1]);
      InsertIsShort(Unique(points[..|points| - 1]), points[|points| - 1]);
    }
  }

  lemma SameFrameSameHash<Frame, Digest>(points: seq<int>, decoded: seq<Frame>, digest: Frame -> Digest,
      hashes: seq<Digest>)
    requires |decoded| == |Unique(points)| && |hashes| == |points|
    requires forall k, i :: 0 <= k < |decoded| && 0 <= i < |points| && Unique(points)[k] == points[i] ==>
             hashes[i] == digest(decoded[k])
    ensures forall i, k :: 0 <= i < |hashes| && 0 <= k < |hashes| && points[i] == points[k] ==> hashes[i] == hashes[k]
  {
    hide Unique;
    UniqueIsSorted(points);
    forall i, k | 0 <= i < |points| && 0 <= k < |points| && points[i] == points[k]
      ensures hashes[i] == hashes[k]
    {
      assert points[i] in points && points[i] in Unique(points);
      var l :| 0 <= l < |Unique(points)| && Unique(points)[l] == points[i];
      assert hashes[i] == digest(decoded[l]) == hashes[k];
    }
  }

  // ----- what acceptance leaves open -----

  function SelectionOf<Digest>(r: Receipt<Digest>): Selection {
    Selection(r.requested, r.indices, r.points)
  }

  lemma {:induction false} AdjacentIncreasing(points: seq<int>)
    requires forall i :: 0 <= i < |points| - 1 ==> points[i] < points[i + 1]
    ensures Increasing(points)
  {
    if |points| > 1 {
      var front := points[..|points| - 1];
      AdjacentIncreasing(front);
      assert points[|points| - 2] < points[|points| - 2 + 1];
    }
  }

  lemma AcceptedFrames<Digest>(r: Receipt<Digest>, startUs: int, endUs: int)
    requires SelectionReproduces(r, startUs, endUs) && r.clip == Clip(startUs, endUs)
    ensures WorkerFrameCount(r.clip) > 0
            && Selects(MediaOf(r.source, r.candidates), r.clip, WorkerFrameCount(r.clip), SelectionOf(r))
    ensures r.frameCount == |r.requested| && |r.hashes| == |r.points|
    ensures r.requestedUs == AllMicroseconds(r.requested)
    ensures r.sourceTimes == PointTimes(r.source, r.points) && r.sourceUs == AllMicroseconds(r.sourceTimes)
  {
    hide ToMicroseconds, IsNearest, Center, Source.TimeOf, WorkerFrameCount, HostFrameCount, Media.Times;
    FrameCountsAgree(r.clip);
    var times := MediaOf(r.source, r.candidates).Times();
    forall i: nat | i < r.frameCount
      ensures r.requested[i] == Center(r.clip, r.frameCount, i) && IsNearest(times, r.requested[i], r.indices[i])
      ensures r.indices[i] < |r.candidates| && r.points[i] == r.candidates[r.indices[i]]
      ensures r.requestedUs[i] == ToMicroseconds(r.requested[i])
      ensures r.sourceTimes[i] == r.source.TimeOf(r.points[i]) && r.sourceUs[i] == ToMicroseconds(r.sourceTimes[i])
    {
      assert FrameReproduces(r, startUs, endUs, i);
    }
  }

  /** The fields of an accepted source record, in the worker's terms. */
  lemma AcceptedSource<Digest>(r: Receipt<Digest>, startUs: int, endUs: int)
    requires r.source.Parsed() && r.source.EffectiveHeight() > 0.0 && SourceReproduces(r, startUs, endUs)
    ensures
      var c := Clip(startUs, endUs);
      && r.clip == c && r.clipDurationUs == c.DurationUs()
      && r.displayed == (r.source.DisplayedWidth(), r.source.DisplayedHeight())
      && r.displayAspect == DisplayAspect(r.source)
      && r.durationUs == ToMicroseconds(r.source.duration)
      && r.overshoot == Overshoot(r.source, c) && r.largestOvershoot == LargestOvershoot(r.source)
      && r.largestRate == MAXIMUM_SOURCE_FRAME_RATE as real
  {
    hide ToMicroseconds, Source.EffectiveWidth, Source.EffectiveHeight;
  }

  lemma AcceptedCandidates<Digest>(r: Receipt<Digest>, startUs: int, endUs: int)
    requires r.source.Parsed() && CandidatesReproduce(r, startUs, endUs)
    ensures
      var c := Clip(startUs, endUs);
      && r.startTime == r.source.StartTime() && r.candidateCount == |r.candidates|
      && r.candidateLimit == WorkerCandidateLimit(c) && 0 < |r.candidates| <= WorkerCandidateLimit(c)
      && r.probe == ProbeInterval(r.source.StartTime(), r.source.nominalRate, r.source.bFrames, c)
      && Increasing(r.candidates)
  {
    hide ProbeInterval, WorkerCandidateLimit, HostCandidateLimit, Increasing, Source.TimeOf;
    CandidateLimitsAgree(Clip(startUs, endUs));
    AdjacentIncreasing(r.candidates);
  }

  /**
    A receipt is accepted for a clip only if it is, field by field, the one the worker writes for its
    own source, clip and candidates; only the frame digests are taken on the worker's word.
  */
  lemma AcceptedReceiptIsTheWorkers<Digest>(r: Receipt<Digest>, startUs: int, endUs: int, whole: bool)
    requires HostAccepts(r, startUs, endUs, whole)
    ensures r == WriteReceipt(r.source, Clip(startUs, endUs), r.candidates, SelectionOf(r), r.hashes)
    ensures WorkerFrameCount(r.clip) > 0
            && Selects(MediaOf(r.source, r.candidates), r.clip, WorkerFrameCount(r.clip), SelectionOf(r))
    ensures Increasing(r.candidates) && 0 < |r.candidates| <= WorkerCandidateLimit(r.clip)
  {
    hide ToMicroseconds, Derived, WorkerCandidateLimit, ProbeInterval, SelectionReproduces, Selects, WorkerFrameCount,
      Increasing,
      SourceReproduces, CandidatesReproduce, WholeVideoReproduces, DisplayAspect, Overshoot, LargestOvershoot,
      Source.EffectiveWidth, Source.EffectiveHeight, Source.DisplayedWidth, Source.DisplayedHeight, Source.TimeOf,
      Source.StartTime;
    AcceptedSource(r, startUs, endUs);
    AcceptedCandidates(r, startUs, endUs);
    AcceptedFrames(r, startUs, endUs);
  }
}
