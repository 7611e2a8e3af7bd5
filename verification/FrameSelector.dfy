/**
  The frame selector of the extraction worker: equal bins, the nearest candidate to each center with
  the earlier one winning a tie, the decoder's selection expression, and the loop that decodes each
  distinct frame once and records it under every output that uses it.
*/
module FrameSelector {
  import opened Outcomes
  import opened ClipTime

  datatype Media = Media(timeBase: real, streamStart: real, candidates: seq<int>)
  {
    function Time(i: nat): real
      requires i < |candidates|
    {
      candidates[i] as real * timeBase - streamStart
    }

    function Times(): (r: seq<real>)
      ensures |r| == |candidates|
    {
      seq(|candidates|, i requires 0 <= i < |candidates| => Time(i))
    }
  }

  predicate Increasing(points: seq<int>) {
    forall i, k :: 0 <= i < k < |points| ==> points[i] < points[k]
  }

  predicate Nondecreasing(points: seq<int>) {
    forall i, k :: 0 <= i < k < |points| ==> points[i] <= points[k]
  }

  // ----- the nearest candidate -----

  function Distance(a: real, b: real): real {
    if a < b then b - a else a - b
  }

  /** The order in which candidates are preferred for a center. */
  predicate Preferred(times: seq<real>, center: real, k: nat, j: nat)
    requires k < |times| && j < |times|
  {
    || Distance(times[k], center) < Distance(times[j], center)
    || (Distance(times[k], center) == Distance(times[j], center)
        && (times[k] < times[j] || (times[k] == times[j] && k <= j)))
  }

  ghost predicate IsNearest(times: seq<real>, center: real, k: nat) {
    k < |times| && forall j: nat :: j < |times| ==> Preferred(times, center, k, j)
  }

  lemma NearestIsUnique(times: seq<real>, center: real, k: nat, j: nat)
    requires IsNearest(times, center, k) && IsNearest(times, center, j)
    ensures k == j
  {
    assert Preferred(times, center, k, j) && Preferred(times, center, j, k);
  }

  lemma PreferenceIsAnOrder(times: seq<real>, center: real, k: nat, j: nat)
    requires k < |times| && j < |times| && !Preferred(times, center, k, j)
    ensures Preferred(times, center, j, k)
    ensures forall l: nat :: l < |times| && Preferred(times, center, k, l) ==> Preferred(times, center, j, l)
  {
  }

  method Nearest(times: seq<real>, center: real) returns (k: nat)
    requires times != []
    ensures IsNearest(times, center, k)
  {
    k := 0;
    for j := 1 to |times|
      invariant k < j
      invariant forall l: nat :: l < j ==> Preferred(times, center, k, l)
    {
      if !Preferred(times, center, k, j) {
        PreferenceIsAnOrder(times, center, k, j);
        k := j;
      }
    }
  }

  /** A later center never selects an earlier candidate. */
  lemma NearestIsMonotone(times: seq<real>, a: real, b: real, k: nat, j: nat)
    requires forall l, m :: 0 <= l < m < |times| ==> times[l] < times[m]
    requires a <= b && IsNearest(times, a, k) && IsNearest(times, b, j)
    ensures k <= j
  {
    assert Preferred(times, a, k, j) && Preferred(times, b, j, k);
  }

  // ----- the selection -----

  datatype Selection = Selection(requested: seq<real>, indices: seq<nat>, points: seq<int>)

  datatype SelectionError = BadFrameCount | OutOfOrder | RepeatedTimestamp

  /** What the selector promises: one bin center after the other, each with its nearest candidate. */
  ghost predicate Selects(m: Media, c: Clip, count: nat, s: Selection)
    requires count > 0
  {
    && |s.requested| == |s.indices| == |s.points| == count
    && forall i :: 0 <= i < count ==>
         && s.requested[i] == Center(c, count, i)
         && IsNearest(m.Times(), s.requested[i], s.indices[i])
         && s.points[i] == m.candidates[s.indices[i]]
  }

  predicate TimestampsIncrease(requested: seq<real>) {
    forall i :: 0 <= i < |requested| - 1 ==>
      Milliseconds(ToMicroseconds(requested[i])) < Milliseconds(ToMicroseconds(requested[i + 1]))
  }

  predicate InOrder(indices: seq<nat>) {
    forall i :: 0 <= i < |indices| - 1 ==> indices[i] <= indices[i + 1]
  }

  method SelectFrames(m: Media, c: Clip) returns (r: Result<Selection, SelectionError>)
    requires m.candidates != []
    ensures r == Err(BadFrameCount) <==> !(16 <= WorkerFrameCount(c) <= MAXIMUM_FRAMES)
    ensures r.Ok? ==>
              && Selects(m, c, WorkerFrameCount(c), r.value)
              && InOrder(r.value.indices) && TimestampsIncrease(r.value.requested)
    ensures r.Ok? ==>
              var n := |r.value.requested|;
              && 16 <= n <= 120 && (n - 1) as real < c.Duration() * 8.0 <= n as real
              && forall i :: 0 <= i < n ==>
                   r.value.requested[i] - Edge(c, n, i) == Edge(c, n, i + 1) - r.value.requested[i]
    ensures r == Err(OutOfOrder) ==> exists s :: Selects(m, c, WorkerFrameCount(c), s) && !InOrder(s.indices)
    ensures r == Err(RepeatedTimestamp) ==>
            exists s :: Selects(m, c, WorkerFrameCount(c), s) && !TimestampsIncrease(s.requested)
  {
    hide IsNearest, Center, Edge, ToMicroseconds, Media.Times;
    var count := WorkerFrameCount(c);
    if count < 16 || count > MAXIMUM_FRAMES {
      return Err(BadFrameCount);
    }
    var times := m.Times();
    var requested, points := [], [];
    var indices: seq<nat> := [];
    for i := 0 to count
      invariant |requested| == |indices| == |points| == i
      invariant forall k :: 0 <= k < i ==>
                  && requested[k] == Center(c, count, k)
                  && indices[k] < |times| && IsNearest(times, requested[k], indices[k])
                  && points[k] == m.candidates[indices[k]]
    {
      var center := Center(c, count, i);
      var selected := Nearest(times, center);
      InRange(times, center, selected);
      requested, indices, points := requested + [center], indices + [selected], points + [m.candidates[selected]];
    }
    var s := Selection(requested, indices, points);
    assert Selects(m, c, count, s);
    if !InOrder(indices) {
      return Err(OutOfOrder);
    }
    if !TimestampsIncrease(requested) {
      return Err(RepeatedTimestamp);
    }
    CeilingsAgree(c.Duration() * TARGET_RATE as real);
    forall i | 0 <= i < count
      ensures requested[i] - Edge(c, count, i) == Edge(c, count, i + 1) - requested[i]
    {
      CenterIsMidway(c, count, i);
    }
    return Ok(s);
  }

  lemma InRange(times: seq<real>, center: real, k: nat)
    requires IsNearest(times, center, k)
    ensures k < |times|
  {
  }

  lemma TimesIncrease(m: Media)
    requires m.timeBase > 0.0 && Increasing(m.candidates)
    ensures forall l, k :: 0 <= l < k < |m.Times()| ==> m.Times()[l] < m.Times()[k]
  {
    forall l, k | 0 <= l < k < |m.candidates|
      ensures m.Times()[l] < m.Times()[k]
    {
      ScaledOrder(m.candidates[l], m.candidates[k], m.timeBase);
    }
  }

  lemma ScaledOrder(a: int, b: int, scale: real)
    requires a < b && scale > 0.0
    ensures a as real * scale < b as real * scale
  {
    assert (b as real - a as real) * scale > 0.0;
  }

  /**
    For every clip of 2 to 15 seconds and all strictly increasing candidates: whatever is selected
    is in order, and its timestamps strictly increase.
  */
  lemma SelectionIsOrdered(m: Media, c: Clip, s: Selection)
    requires m.timeBase > 0.0 && Increasing(m.candidates) && c.Bounded()
    requires WorkerFrameCount(c) > 0 && Selects(m, c, WorkerFrameCount(c), s)
    ensures InOrder(s.indices) && TimestampsIncrease(s.requested) && Nondecreasing(s.points)
  {
    hide IsNearest, Center, ToMicroseconds, Media.Times, WorkerFrameCount, Milliseconds;
    TimesIncrease(m);
    forall i | 0 <= i < |s.indices| - 1
      ensures s.indices[i] <= s.indices[i + 1]
      ensures Milliseconds(ToMicroseconds(s.requested[i])) < Milliseconds(ToMicroseconds(s.requested[i + 1]))
    {
      CentersAreFarApart(c, i);
      NearestIsMonotone(m.Times(), s.requested[i], s.requested[i + 1], s.indices[i], s.indices[i + 1]);
      MillisecondsIncrease(s.requested[i], s.requested[i + 1]);
    }
    forall i, k | 0 <= i < k < |s.points|
      ensures s.points[i] <= s.points[k]
    {
      InOrderThroughout(s.indices, i, k);
      InRange(m.Times(), s.requested[i], s.indices[i]);
      InRange(m.Times(), s.requested[k], s.indices[k]);
    }
  }

  lemma InOrderThroughout(indices: seq<nat>, i: nat, k: nat)
    requires InOrder(indices) && i <= k < |indices|
    ensures indices[i] <= indices[k]
  {
    if i < k {
      InOrderThroughout(indices, i, k - 1);
      assert indices[k - 1] <= indices[k - 1 + 1];
    }
  }

  /** So the guards of the selector never fire, and it selects 16 to 120 frames. */
  method SelectBoundedClip(m: Media, c: Clip) returns (s: Selection)
    requires m.timeBase > 0.0 && Increasing(m.candidates) && m.candidates != [] && c.Bounded()
    ensures 16 <= |s.points| == WorkerFrameCount(c) <= MAXIMUM_FRAMES && Selects(m, c, WorkerFrameCount(c), s)
    ensures InOrder(s.indices) && TimestampsIncrease(s.requested) && Nondecreasing(s.points)
  {
    hide Selects, InOrder, TimestampsIncrease;
    FrameCountIsBounded(c);
    var r := SelectFrames(m, c);
    if r.Err? {
      match r.error {
        case BadFrameCount =>
        case OutOfOrder =>
          ghost var t :| Selects(m, c, WorkerFrameCount(c), t) && !InOrder(t.indices);
          SelectionIsOrdered(m, c, t);
        case RepeatedTimestamp =>
          ghost var t :| Selects(m, c, WorkerFrameCount(c), t) && !TimestampsIncrease(t.requested);
          SelectionIsOrdered(m, c, t);
      }
    }
    s := r.value;
    SelectionIsOrdered(m, c, s);
    SelectedCount(m, c, s);
  }

  lemma SelectedCount(m: Media, c: Clip, s: Selection)
    requires WorkerFrameCount(c) > 0 && Selects(m, c, WorkerFrameCount(c), s)
    ensures |s.requested| == |s.indices| == |s.points| == WorkerFrameCount(c)
  {
  }

  // ----- the decoder's selection expression -----

  /** `eq(pts,point)` and sums of two expressions. */
  datatype Expression = Equals(point: int) | Sum(left: Expression, right: Expression)

  function Leaves(e: Expression): (r: seq<int>)
    ensures |r| >= 1
  {
    match e
    case Equals(point) => [point]
    case Sum(left, right) => Leaves(left) + Leaves(right)
  }

  function Height(e: Expression): nat {
    match e
    case Equals(_) => 0
    case Sum(left, right) => 1 + if Height(left) < Height(right) then Height(right) else Height(left)
  }

  /** The value the decoder computes for a frame with this presentation timestamp; non-zero selects the frame. */
  function Evaluate(e: Expression, pts: int): nat {
    match e
    case Equals(point) => if pts == point then 1 else 0
    case Sum(left, right) => Evaluate(left, pts) + Evaluate(right, pts)
  }

  function AllLeaves(terms: seq<Expression>): seq<int> {
    if terms == [] then [] else AllLeaves(terms[..|terms| - 1]) + Leaves(terms[|terms| - 1])
  }

  function Power2(n: nat): (r: nat)
    ensures r >= 1
  {
    if n == 0 then 1 else 2 * Power2(n - 1)
  }

  /** No expression with this height has more leaves, so a balanced one is as low as possible. */
  lemma {:induction false} LeavesAreBounded(e: Expression, h: nat)
    requires Height(e) <= h
    ensures |Leaves(e)| <= Power2(h)
  {
    match e {
      case Equals(_) =>
      case Sum(left, right) =>
        LeavesAreBounded(left, h - 1);
        LeavesAreBounded(right, h - 1);
    }
  }

  lemma {:induction false} EvaluateCounts(e: Expression, pts: int)
    ensures Evaluate(e, pts) == multiset(Leaves(e))[pts]
  {
    match e {
      case Equals(_) =>
      case Sum(left, right) =>
        EvaluateCounts(left, pts);
        EvaluateCounts(right, pts);
    }
  }

  lemma {:induction false} IncreasingOccursOnce(points: seq<int>, pts: int)
    requires Increasing(points)
    ensures multiset(points)[pts] == if pts in points then 1 else 0
  {
    if points != [] {
      var front, last := points[..|points| - 1], points[|points| - 1];
      assert points == front + [last];
      IncreasingOccursOnce(front, pts);
      assert last !in front;
    }
  }

  lemma AllLeavesMore(terms: seq<Expression>, e: Expression)
    ensures AllLeaves(terms + [e]) == AllLeaves(terms) + Leaves(e)
  {
    assert (terms + [e])[..|terms|] == terms;
  }

  /** One round of pairing neighbours; an odd last term is carried over. */
  method PairUp(terms: seq<Expression>, ghost height: nat) returns (paired: seq<Expression>)
    requires forall i :: 0 <= i < |terms| ==> Height(terms[i]) <= height
    ensures AllLeaves(paired) == AllLeaves(terms) && |paired| == (|terms| + 1) / 2
    ensures forall i :: 0 <= i < |paired| ==> Height(paired[i]) <= height + 1
  {
    hide AllLeaves, Leaves;
    paired := [];
    var i := 0;
    while i < |terms|
      invariant i % 2 == 0 && i <= |terms| + 1 && |paired| == i / 2
      invariant AllLeaves(paired) == AllLeaves(terms[..if i < |terms| then i else |terms|])
      invariant forall k :: 0 <= k < |paired| ==> Height(paired[k]) <= height + 1
    {
      assert terms[..i + 1] == terms[..i] + [terms[i]];
      AllLeavesMore(terms[..i], terms[i]);
      if i + 1 < |terms| {
        assert terms[..i + 2] == terms[..i + 1] + [terms[i + 1]];
        AllLeavesMore(terms[..i + 1], terms[i + 1]);
        SumLeaves(terms[i], terms[i + 1]);
        AllLeavesMore(paired, Sum(terms[i], terms[i + 1]));
        paired := paired + [Sum(terms[i], terms[i + 1])];
      } else {
        AllLeavesMore(paired, terms[i]);
        paired := paired + [terms[i]];
      }
      i := i + 2;
    }
    assert terms[..|terms|] == terms;
  }

  lemma SumLeaves(a: Expression, b: Expression)
    ensures Leaves(Sum(a, b)) == Leaves(a) + Leaves(b)
  {
  }

  lemma {:induction false} EqualsLeaves(points: seq<int>)
    ensures AllLeaves(seq(|points|, i requires 0 <= i < |points| => Equals(points[i]))) == points
  {
    var terms := seq(|points|, i requires 0 <= i < |points| => Equals(points[i]));
    if points != [] {
      var front := points[..|points| - 1];
      assert terms[..|terms| - 1] == seq(|front|, i requires 0 <= i < |front| => Equals(front[i]));
      EqualsLeaves(front);
      assert points == front + [points[|points| - 1]];
    }
  }

  datatype FilterError = BadPointSet | NotSortedUnique

  /**
    The expression selects exactly the given points, each of them once and in order, and is as low
    as an expression over that many points can be.
  */
  method SelectFilter(points: seq<int>) returns (r: Result<Expression, FilterError>)
    ensures r.Ok? <==> 0 < |points| <= MAXIMUM_FRAMES && Increasing(points)
    ensures r == Err(BadPointSet) <==> points == [] || |points| > MAXIMUM_FRAMES
    ensures r == Err(NotSortedUnique) <==> 0 < |points| <= MAXIMUM_FRAMES && !Increasing(points)
    ensures r.Ok? ==> Leaves(r.value) == points && forall h: nat :: |points| <= Power2(h) ==> Height(r.value) <= h
  {
    hide AllLeaves, Leaves, Height, Power2, Increasing;
    if points == [] || |points| > MAXIMUM_FRAMES {
      return Err(BadPointSet);
    }
    if !Increasing(points) {
      return Err(NotSortedUnique);
    }
    var terms := seq(|points|, i requires 0 <= i < |points| => Equals(points[i]));
    EqualsLeaves(points);
    ghost var rounds: nat := 0;
    FirstRound(points);
    while |terms| > 1
      invariant terms != [] && AllLeaves(terms) == points
      invariant forall i :: 0 <= i < |terms| ==> Height(terms[i]) <= rounds
      invariant (|terms| - 1) * Power2(rounds) < |points|
      invariant rounds > 0 ==> |points| > Power2(rounds - 1)
      decreases |terms|
    {
      ghost var before := |terms|;
      HalvingRounds(before, rounds, |points|);
      terms := PairUp(terms, rounds);
      rounds := rounds + 1;
    }
    OneTerm(terms);
    forall h: nat | |points| <= Power2(h)
      ensures Height(terms[0]) <= h
    {
      if h < rounds {
        PowersGrow(h, rounds - 1);
      }
    }
    return Ok(terms[0]);
  }

  lemma FirstRound(points: seq<int>)
    ensures Power2(0) == 1
    ensures forall i :: 0 <= i < |points| ==> Height(Equals(points[i])) == 0
  {
  }

  lemma HalvingRounds(terms: nat, rounds: nat, n: nat)
    requires terms > 1 && (terms - 1) * Power2(rounds) < n
    ensures ((terms + 1) / 2 - 1) * Power2(rounds + 1) < n && n > Power2(rounds)
  {
    var p := Power2(rounds);
    var half := (terms + 1) / 2 - 1;
    assert 2 * half <= terms - 1;
    assert (2 * half) * p <= (terms - 1) * p by { ProductOrder(2 * half, terms - 1, p); }
    assert half * (2 * p) == (2 * half) * p;
    ProductOrder(1, terms - 1, p);
  }

  lemma ProductOrder(a: nat, b: nat, p: nat)
    requires a <= b
    ensures a * p <= b * p
  {
  }

  lemma {:induction false} PowersGrow(a: nat, b: nat)
    requires a <= b
    ensures Power2(a) <= Power2(b)
  {
    if a < b {
      PowersGrow(a, b - 1);
    }
  }

  lemma OneTerm(terms: seq<Expression>)
    requires |terms| == 1
    ensures AllLeaves(terms) == Leaves(terms[0])
  {
    assert terms[..0] == [];
  }

  /** The filter passes a frame exactly when its timestamp was selected, and never needs more than seven levels. */
  lemma FilterIsMembership(points: seq<int>, e: Expression, pts: int)
    requires Increasing(points) && Leaves(e) == points
    ensures Evaluate(e, pts) == if pts in points then 1 else 0
    ensures |points| <= MAXIMUM_FRAMES ==> |points| <= Power2(7)
  {
    EvaluateCounts(e, pts);
    IncreasingOccursOnce(points, pts);
    assert Power2(2) == 4 && Power2(4) == 16 && Power2(6) == 64;
  }

  // ----- one decoded frame for several outputs -----

  /** `point` placed into a strictly increasing sequence, once. */
  function Insert(sorted: seq<int>, point: int): seq<int> {
    if sorted == [] || sorted[|sorted| - 1] < point then sorted + [point]
    else if sorted[|sorted| - 1] == point then sorted
    else Insert(sorted[..|sorted| - 1], point) + [sorted[|sorted| - 1]]
  }

  /** The distinct points in increasing order. */
  function Unique(points: seq<int>): seq<int> {
    if points == [] then [] else Insert(Unique(points[..|points| - 1]), points[|points| - 1])
  }

  lemma {:induction false} InsertKeepsOrder(sorted: seq<int>, point: int)
    requires Increasing(sorted)
    ensures Increasing(Insert(sorted, point))
    ensures forall p :: p in Insert(sorted, point) <==> p in sorted || p == point
  {
    if sorted != [] && sorted[|sorted| - 1] > point {
      var front, last := sorted[..|sorted| - 1], sorted[|sorted| - 1];
      InsertKeepsOrder(front, point);
      var inserted := Insert(front, point);
      assert sorted == front + [last];
      forall i | 0 <= i < |inserted|
        ensures inserted[i] < last
      {
        assert inserted[i] in inserted;
      }
    }
  }

  lemma {:induction false} UniqueIsSorted(points: seq<int>)
    ensures Increasing(Unique(points))
    ensures forall p :: p in Unique(points) <==> p in points
  {
    if points != [] {
      var front, last := points[..|points| - 1], points[|points| - 1];
      UniqueIsSorted(front);
      InsertKeepsOrder(Unique(front), last);
      assert points == front + [last];
    }
  }

  /** The outputs that use a point, in order. */
  function Occurrences(points: seq<int>, point: int): seq<nat> {
    if points == [] then []
    else
      var front := Occurrences(points[..|points| - 1], point);
      if points[|points| - 1] == point then front + [|points| - 1] else front
  }

  lemma {:induction false} OccurrencesAre(points: seq<int>, point: int)
    ensures forall i :: 0 <= i < |Occurrences(points, point)| ==>
              Occurrences(points, point)[i] < |points| && points[Occurrences(points, point)[i]] == point
  {
    if points != [] {
      OccurrencesAre(points[..|points| - 1], point);
    }
  }

  /** The order in which the outputs are visited: group after group. */
  function Visits(points: seq<int>, groups: seq<int>): seq<nat> {
    if groups == [] then [] else Visits(points, groups[..|groups| - 1]) + Occurrences(points, groups[|groups| - 1])
  }

  function Iota(n: nat): (r: seq<nat>)
    ensures |r| == n && forall i :: 0 <= i < n ==> r[i] == i
  {
    seq(n, i => i)
  }

  lemma {:induction false} AnotherOutput(points: seq<int>, point: int, groups: seq<int>)
    requires point !in groups
    ensures Visits(points + [point], groups) == Visits(points, groups)
  {
    if groups != [] {
      AnotherOutput(points, point, groups[..|groups| - 1]);
      assert (points + [point])[..|points|] == points;
    }
  }

  lemma VisitsOneMoreGroup(points: seq<int>, groups: seq<int>, group: int)
    ensures Visits(points, groups + [group]) == Visits(points, groups) + Occurrences(points, group)
  {
    assert (groups + [group])[..|groups|] == groups;
  }

  lemma OneMoreOccurrence(points: seq<int>, point: int)
    ensures Occurrences(points + [point], point) == Occurrences(points, point) + [|points|]
  {
    assert (points + [point])[..|points|] == points;
  }

  lemma LastIsNew(groups: seq<int>, last: int)
    requires Increasing(groups + [last])
    ensures last !in groups
  {
    var all := groups + [last];
    forall i | 0 <= i < |groups|
      ensures groups[i] != last
    {
      assert all[i] < all[|groups|];
    }
  }

  /** One more output in the last group. */
  lemma LastGroupGrows(front: seq<int>, groups: seq<int>, last: int)
    requires last !in groups
    ensures Visits(front + [last], groups + [last]) == Visits(front, groups + [last]) + [|front|]
  {
    hide Visits, Occurrences;
    AnotherOutput(front, last, groups);
    VisitsOneMoreGroup(front + [last], groups, last);
    VisitsOneMoreGroup(front, groups, last);
    OneMoreOccurrence(front, last);
  }

  /** A new last group with its one output. */
  lemma LastGroupStarts(front: seq<int>, groups: seq<int>, last: int)
    requires last !in groups && last !in front
    ensures Visits(front + [last], groups + [last]) == Visits(front, groups) + [|front|]
  {
    hide Visits, Occurrences;
    LastGroupGrows(front, groups, last);
    VisitsOneMoreGroup(front, groups, last);
    NeverOccurred(front, last);
  }

  /** One more output with the largest point comes last in its group, and its group comes last. */
  lemma LastOutputComesLast(front: seq<int>, last: int)
    requires forall p :: p in front ==> p <= last
    ensures Visits(front + [last], Unique(front + [last])) == Visits(front, Unique(front)) + [|front|]
  {
    hide Visits, Unique, Increasing;
    var before := Unique(front);
    LastPoint(front, last);
    if before != [] && before[|before| - 1] == last {
      var groups := before[..|before| - 1];
      assert before == groups + [last];
      UniqueIsSorted(front);
      LastIsNew(groups, last);
      LastGroupGrows(front, groups, last);
    } else {
      LastGroupStarts(front, before, last);
    }
  }

  /** When the points are in order, every output is visited exactly once and in order. */
  lemma {:induction false} OrderedPointsAreVisitedInOrder(points: seq<int>)
    requires Nondecreasing(points)
    ensures Visits(points, Unique(points)) == Iota(|points|)
  {
    hide Occurrences, Insert;
    if points != [] {
      var front, last := points[..|points| - 1], points[|points| - 1];
      OrderedPointsAreVisitedInOrder(front);
      assert points == front + [last];
      LastOutputComesLast(front, last);
    }
  }

  /** A last point that is at least as large as all others is, or becomes, the last distinct point. */
  lemma LastPoint(front: seq<int>, last: int)
    requires forall p :: p in front ==> p <= last
    ensures
      var before := Unique(front);
      if before != [] && before[|before| - 1] == last then Unique(front + [last]) == before
      else last !in before && last !in front && Unique(front + [last]) == before + [last]
  {
    UniqueIsSorted(front);
    assert (front + [last])[..|front|] == front;
    var before := Unique(front);
    if before != [] {
      assert before[|before| - 1] in front;
    }
  }

  lemma {:induction false} NeverOccurred(points: seq<int>, point: int)
    requires point !in points
    ensures Occurrences(points, point) == []
  {
    if points != [] {
      NeverOccurred(points[..|points| - 1], point);
    }
  }

  ghost predicate InGroups(points: seq<int>, v: seq<nat>, groups: seq<int>) {
    forall i :: 0 <= i < |v| ==> v[i] < |points| && points[v[i]] in groups
  }

  ghost predicate ByPoint(points: seq<int>, v: seq<nat>)
    requires forall i :: 0 <= i < |v| ==> v[i] < |points|
  {
    forall i, k :: 0 <= i < k < |v| ==> points[v[i]] <= points[v[k]]
  }

  lemma GroupAppended(points: seq<int>, v: seq<nat>, groups: seq<int>, group: int, more: seq<nat>)
    requires InGroups(points, v, groups) && ByPoint(points, v) && Increasing(groups + [group])
    requires forall i :: 0 <= i < |more| ==> more[i] < |points| && points[more[i]] == group
    ensures InGroups(points, v + more, groups + [group]) && ByPoint(points, v + more)
  {
    var all := groups + [group];
    forall p | p in groups
      ensures p < group
    {
      var i :| 0 <= i < |groups| && groups[i] == p;
      assert all[i] < all[|groups|];
    }
  }

  /** Whatever the points are, the outputs are visited in the order of their points. */
  lemma {:induction false} VisitsAreGrouped(points: seq<int>, groups: seq<int>)
    requires Increasing(groups)
    ensures InGroups(points, Visits(points, groups), groups) && ByPoint(points, Visits(points, groups))
  {
    hide Occurrences;
    if groups != [] {
      var front, last := groups[..|groups| - 1], groups[|groups| - 1];
      assert groups == front + [last];
      VisitsAreGrouped(points, front);
      OccurrencesAre(points, last);
      hide InGroups, ByPoint;
      GroupAppended(points, Visits(points, front), front, last, Occurrences(points, last));
    }
  }

  lemma VisitedInOrderExactlyWhenOrdered(points: seq<int>)
    ensures Visits(points, Unique(points)) == Iota(|points|) <==> Nondecreasing(points)
  {
    hide Visits, Unique;
    if Nondecreasing(points) {
      OrderedPointsAreVisitedInOrder(points);
    }
    UniqueIsSorted(points);
    VisitsAreGrouped(points, Unique(points));
    if Visits(points, Unique(points)) == Iota(|points|) {
      IotaIsByPoint(points);
    }
  }

  lemma IotaIsByPoint(points: seq<int>)
    requires ByPoint(points, Iota(|points|))
    ensures Nondecreasing(points)
  {
    forall i, k | 0 <= i < k < |points|
      ensures points[i] <= points[k]
    {
      var v := Iota(|points|);
      assert points[v[i]] <= points[v[k]];
    }
  }

  datatype ExtractionError = TooFewFrames | TooManyFrames

  /** The grouping of the outputs by source point. */
  method Group(points: seq<int>, unique: seq<int>) returns (occurrences: map<int, seq<nat>>)
    requires forall p :: p in points ==> p in unique
    ensures forall p :: p in unique ==> p in occurrences && occurrences[p] == Occurrences(points, p)
  {
    hide Occurrences;
    occurrences := map p | p in unique :: [];
    forall p | p in unique
      ensures Occurrences(points[..0], p) == []
    {
      NeverOccurred(points[..0], p);
    }
    for i := 0 to |points|
      invariant forall p :: p in unique ==> p in occurrences
      invariant forall p :: p in unique ==> occurrences[p] == Occurrences(points[..i], p)
    {
      forall p
        ensures Occurrences(points[..i + 1], p) == Occurrences(points[..i], p) + (if points[i] == p then [i] else [])
      {
        OccurrencesNext(points, i, p);
      }
      var point := points[i];
      assert point in points;
      assert point in unique;
      occurrences := occurrences[point := occurrences[point] + [i]];
    }
    assert points[..|points|] == points;
  }

  lemma OccurrencesNext(points: seq<int>, i: nat, p: int)
    requires i < |points|
    ensures Occurrences(points[..i + 1], p) == Occurrences(points[..i], p) + (if points[i] == p then [i] else [])
  {
    assert points[..i + 1][..i] == points[..i];
  }

  method ComputeUnique(points: seq<int>) returns (unique: seq<int>)
    ensures unique == Unique(points)
  {
    unique := [];
    for i := 0 to |points|
      invariant unique == Unique(points[..i])
    {
      assert points[..i + 1][..i] == points[..i];
      unique := Insert(unique, points[i]);
    }
    assert points[..|points|] == points;
  }

  lemma NoVisits(points: seq<int>, unique: seq<int>)
    ensures Visits(points, unique[..0]) == []
  {
  }

  lemma {:induction false} OccurrencesAreAll(points: seq<int>, point: int)
    ensures forall i: nat :: i < |points| && points[i] == point ==> i in Occurrences(points, point)
  {
    if points != [] {
      OccurrencesAreAll(points[..|points| - 1], point);
    }
  }

  /**
    Each distinct frame is read once from the decoded stream and recorded under every output that
    selected it. `visits` is the order in which outputs are handed to the landmarker.
  */
  method ExtractFrames<Frame(==), Digest(0)>(points: seq<int>, frames: seq<Frame>, digest: Frame -> Digest)
    returns (r: Result<seq<Digest>, ExtractionError>, visits: seq<nat>)
    ensures r.Ok? <==> |frames| == |Unique(points)|
    ensures r == Err(TooFewFrames) <==> |frames| < |Unique(points)|
    ensures r.Ok? ==> visits == Visits(points, Unique(points)) && |r.value| == |points|
    ensures r.Ok? ==> forall k, i :: 0 <= k < |frames| && 0 <= i < |points| && Unique(points)[k] == points[i] ==>
              r.value[i] == digest(frames[k])
  {
    hide Occurrences, Visits, Unique;
    var unique := ComputeUnique(points);
    UniqueIsSorted(points);
    var occurrences := Group(points, unique);
    var hashes := new Digest[|points|];
    visits := [];
    NoVisits(points, unique);
    for k := 0 to |unique|
      invariant k <= |frames| && visits == Visits(points, unique[..k])
      invariant forall l, i :: 0 <= l < k && 0 <= i < |points| && unique[l] == points[i] ==>
                hashes[i] == digest(frames[l])
    {
      if k == |frames| {
        return Err(TooFewFrames), visits;
      }
      var value := digest(frames[k]);
      assert unique[k] in unique;
      var outputs := occurrences[unique[k]];
      OccurrencesAre(points, unique[k]);
      OccurrencesAreAll(points, unique[k]);
      assert unique[..k + 1] == unique[..k] + [unique[k]];
      VisitsOneMoreGroup(points, unique[..k], unique[k]);
      label Before:
      for n := 0 to |outputs|
        invariant visits == Visits(points, unique[..k]) + outputs[..n]
        invariant forall m :: 0 <= m < n ==> hashes[outputs[m]] == value
        invariant forall i :: 0 <= i < |points| && points[i] != unique[k] ==> hashes[i] == old@Before(hashes[i])
      {
        hashes[outputs[n]] := value;
        visits := visits + [outputs[n]];
      }
    }
    assert unique[..|unique|] == unique;
    if |frames| > |unique| {
      return Err(TooManyFrames), visits;
    }
    return Ok(hashes[..]), visits;
  }
}
