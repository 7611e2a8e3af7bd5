/**
  `PortableS1.beam_decode` as the program runs it: one position at a time for the whole batch, all
  live beams of all samples flattened into one network call, a token walk per row that stops after
  `beam_width` accepted children, one sort per sample, and an early stop once nothing is live.
  The method is proved to give every sample what the reference search gives it alone.
*/
module BeamDecode {
  import opened Outcomes
  import opened BeamModel
  import opened BeamSelection
  import opened BeamReference
  import opened BeamContract
  import opened BeamTruncation
  import opened BeamProperties
  import StableSort

  // ----- the n-gram ban -----

  ghost predicate CompletesGram(tokens: Tokens, start: nat, n: nat, t: nat)
    requires 2 <= n
  {
    && start + n <= |tokens|
    && Gram(tokens, start, n - 1) == Gram(tokens, |tokens| - (n - 1), n - 1)
    && tokens[start + n - 1] == t
  }

  lemma GramsOfPrefix(tokens: Tokens, n: nat, t: nat)
    ensures forall i :: 0 <= i <= |tokens| - n ==> Gram(tokens + [t], i, n) == Gram(tokens, i, n)
  {
  }

  /** An n-gram that appending repeats is repeated at the very end. */
  lemma RepeatEndsThere(tokens: Tokens, n: nat, t: nat) returns (i: nat)
    requires !RepeatsNGram(tokens, n) && RepeatsNGram(tokens + [t], n)
    ensures i < |tokens| + 1 - n && Gram(tokens + [t], i, n) == Gram(tokens + [t], |tokens| + 1 - n, n)
  {
    GramsOfPrefix(tokens, n, t);
    hide Gram;
    var first, second :| 0 <= first < second <= |tokens| + 1 - n
      && Gram(tokens + [t], first, n) == Gram(tokens + [t], second, n);
    i := first;
  }

  lemma RepeatIsBanned(tokens: Tokens, n: nat, t: nat)
    requires 2 <= n && !RepeatsNGram(tokens, n) && RepeatsNGram(tokens + [t], n)
    ensures exists start: nat :: CompletesGram(tokens, start, n, t)
  {
    var i := RepeatEndsThere(tokens, n, t);
    hide RepeatsNGram;
    var next := tokens + [t];
    var j := |next| - n;
    assert Gram(next, i, n) == Gram(tokens, i, n);
    var whole := Gram(next, j, n);
    assert Gram(tokens, i, n - 1) == Gram(tokens, i, n)[..n - 1] == whole[..n - 1];
    assert Gram(tokens, |tokens| - (n - 1), n - 1) == whole[..n - 1];
    assert whole[n - 1] == next[j + n - 1] == t;
    assert Gram(tokens, i, n)[n - 1] == tokens[i + n - 1];
    assert CompletesGram(tokens, i, n, t);
  }

  lemma BannedRepeats(tokens: Tokens, n: nat, t: nat, start: nat)
    requires 2 <= n && CompletesGram(tokens, start, n, t)
    ensures RepeatsNGram(tokens + [t], n)
  {
    var next := tokens + [t];
    var j := |next| - n;
    assert Gram(next, start, n) == Gram(tokens, start, n - 1) + [t];
    assert Gram(next, j, n) == Gram(tokens, j, n - 1) + [t];
    assert 0 <= start < j <= |next| - n;
  }

  /** A token repeats an n-gram exactly when it completes one that the prefix already holds. */
  lemma BanIsExact(tokens: Tokens, n: nat, t: nat)
    requires 2 <= n && !RepeatsNGram(tokens, n)
    ensures RepeatsNGram(tokens + [t], n) <==> exists start: nat :: CompletesGram(tokens, start, n, t)
  {
    hide CompletesGram, RepeatsNGram;
    if RepeatsNGram(tokens + [t], n) {
      RepeatIsBanned(tokens, n, t);
    }
    if start: nat :| CompletesGram(tokens, start, n, t) {
      BannedRepeats(tokens, n, t, start);
    }
  }

  /** The tokens that may not follow: exactly PAD, BOS and those that would repeat an n-gram. */
  method BannedTokens(tokens: Tokens, n: nat) returns (banned: set<nat>)
    requires 2 <= n && !RepeatsNGram(tokens, n)
    ensures forall t: nat :: t in banned <==> !Allowed(tokens, t, n)
  {
    banned := {PAD, BOS};
    if |tokens| >= n - 1 {
      var suffix := Gram(tokens, |tokens| - (n - 1), n - 1);
      var start := 0;
      while start < |tokens| - n + 1
        invariant 0 <= start
        invariant start <= |tokens| - n + 1 || start == 0
        invariant forall t: nat :: t in banned <==>
                    t == PAD || t == BOS || exists s: nat :: s < start && CompletesGram(tokens, s, n, t)
      {
        ghost var s: nat := start;
        ghost var bannedBefore := banned;
        if Gram(tokens, start, n - 1) == suffix {
          banned := banned + {tokens[start + n - 1]};
          assert CompletesGram(tokens, s, n, tokens[start + n - 1]);
        }
        start := start + 1;
        forall t: nat
          ensures t in banned <==>
                    t == PAD || t == BOS || exists s: nat :: s < start && CompletesGram(tokens, s, n, t)
        {
          if e: nat :| e < start && CompletesGram(tokens, e, n, t) {
            assert e < s || e == s;
          }
          if t in bannedBefore && t != PAD && t != BOS {
            var e: nat :| e < s && CompletesGram(tokens, e, n, t);
            assert e < start;
          }
        }
      }
    }
    forall t: nat
      ensures t in banned <==> !Allowed(tokens, t, n)
    {
      BanIsExact(tokens, n, t);
    }
  }

  // ----- one row -----

  lemma ChildOfToken(x: Query, b: Beam, row: seq<LogProb>, t: nat)
    requires |b.tokens| < x.d.width && row == NextScores(x.d, x.m, b.tokens) && t < |row| && row[t].Finite?
    requires x.Valid()
    ensures Child(x.d, x.m, b, t) == Beam(b.score + row[t].value, b.tokens + [t], t == EOS)
  {
  }

  /** The token walk of one live beam: its first `beam_width` viable children. */
  method ExpandBeam(x: Query, b: Beam, row: seq<LogProb>) returns (children: seq<Beam>)
    requires x.Valid() && |b.tokens| < x.d.width
    requires !RepeatsNGram(b.tokens, x.n)
    requires row == NextScores(x.d, x.m, b.tokens)
    ensures children == Kept(x, b)
  {
    hide FirstViable, Argsort, Child, Allowed;
    var banned := BannedTokens(b.tokens, x.n);
    var ordered := Argsort(row);
    ArgsortFacts(row);
    assert ordered[0..] == ordered;
    children := [];
    var i := 0;
    while i < |ordered|
      invariant 0 <= i <= |ordered|
      invariant |children| < x.k
      invariant children + FirstViable(x, b, ordered[i..], x.k - |children|) == Kept(x, b)
    {
      var token := ordered[i];
      assert token in ordered;
      FirstViableNext(x, b, ordered, i, x.k - |children|);
      i := i + 1;
      if token !in banned && row[token].Finite? {
        var child := Beam(b.score + row[token].value, b.tokens + [token], token == EOS);
        ChildOfToken(x, b, row, token);
        children := children + [child];
        if |children| == x.k {
          NothingMoreViable(x, b, ordered[i..], 0);
          return;
        }
      }
    }
    NothingMoreViable(x, b, ordered, x.k - |children|);
  }

  // ----- flattening live beams across the batch -----

  function Tagged(sample: nat, beams: seq<Beam>): (r: seq<(nat, Beam)>)
    ensures |r| == |beams| && forall i :: 0 <= i < |r| ==> r[i] == (sample, beams[i])
  {
    seq(|beams|, i requires 0 <= i < |beams| => (sample, beams[i]))
  }

  /** All live beams of all samples, sample by sample. */
  function Flattened(batch: seq<seq<Beam>>): seq<(nat, Beam)> {
    if batch == [] then []
    else Flattened(batch[..|batch| - 1]) + Tagged(|batch| - 1, LiveOf(batch[|batch| - 1]))
  }

  /** The rows of a flattened list that belong to one sample. */
  function RowsOf(rows: seq<(nat, Beam)>, sample: nat): (r: seq<Beam>)
    ensures forall b :: b in r <==> (sample, b) in rows
  {
    if rows == [] then []
    else
      var front := RowsOf(rows[..|rows| - 1], sample);
      assert rows == rows[..|rows| - 1] + [rows[|rows| - 1]];
      if rows[|rows| - 1].0 == sample then front + [rows[|rows| - 1].1] else front
  }

  lemma {:induction false} RowsOfTagged(rows: seq<(nat, Beam)>, tag: nat, beams: seq<Beam>, sample: nat)
    ensures RowsOf(rows + Tagged(tag, beams), sample) == RowsOf(rows, sample) + if tag == sample then beams else []
  {
    if beams == [] {
      assert rows + Tagged(tag, beams) == rows;
    } else {
      var front, last := beams[..|beams| - 1], beams[|beams| - 1];
      var whole := rows + Tagged(tag, beams);
      assert whole[..|whole| - 1] == rows + Tagged(tag, front);
      RowsOfTagged(rows, tag, front, sample);
      assert beams == front + [last];
      assert RowsOf(whole, sample) == RowsOf(rows + Tagged(tag, front), sample) + if tag == sample then [last] else [];
    }
  }

  lemma FlattenedNext(batch: seq<seq<Beam>>)
    requires batch != []
    ensures Flattened(batch) == Flattened(batch[..|batch| - 1]) + Tagged(|batch| - 1, LiveOf(batch[|batch| - 1]))
  {
  }

  /** Flattening mixes no samples: taking one sample's rows out gives its live beams back. */
  lemma {:induction false} FlatteningSeparates(batch: seq<seq<Beam>>, sample: nat)
    ensures RowsOf(Flattened(batch), sample) == if sample < |batch| then LiveOf(batch[sample]) else []
  {
    if batch == [] {
      assert Flattened(batch) == [];
    } else {
      hide *;
      var front := batch[..|batch| - 1];
      FlatteningSeparates(front, sample);
      FlattenedNext(batch);
      RowsOfTagged(Flattened(front), |batch| - 1, LiveOf(batch[|batch| - 1]), sample);
    }
  }

  // ----- the batch -----

  function SampleQuery(d: Decoder, memory: seq<Memory>, s: nat, n: nat, k: nat): Query
    requires s < |memory|
  {
    Query(d, memory[s], n, k)
  }

  /** Before position `p` a sample stands where its own reference search stands. */
  ghost predicate Tracks(x: Query, beams: seq<Beam>, p: nat, count: nat)
    requires x.Valid() && p <= count <= x.d.width
  {
    InRound(x, beams, p) && (StartIsInRound(x); Rounds(x, beams, p, count) == Rounds(x, START, 0, count))
  }

  ghost predicate OnTrack(d: Decoder, memory: seq<Memory>, n: nat, k: nat, batch: seq<seq<Beam>>, p: nat, count: nat)
    requires d.Valid() && 2 <= n && 1 <= k && p <= count <= d.width
  {
    && |batch| == |memory|
    && forall s :: 0 <= s < |memory| ==> Tracks(SampleQuery(d, memory, s, n, k), batch[s], p, count)
  }

  lemma TracksNext(x: Query, beams: seq<Beam>, next: seq<Beam>, p: nat, count: nat)
    requires x.Valid() && p < count <= x.d.width
    requires Tracks(x, beams, p, count) && Round(x, beams, p) == Ok(next)
    ensures Tracks(x, next, p + 1, count)
  {
  }

  lemma TracksRefused(x: Query, beams: seq<Beam>, b: Beam, p: nat, count: nat)
    requires x.Valid() && p < count <= x.d.width
    requires Tracks(x, beams, p, count) && b in LiveOf(beams) && Stuck(x, b)
    ensures Hypothesis(x, count) == Err(NoFiniteCandidate)
  {
    assert Round(x, beams, p) == Err(NoFiniteCandidate);
  }

  lemma TracksFinal(x: Query, beams: seq<Beam>, p: nat, count: nat)
    requires x.Valid() && p <= count <= x.d.width
    requires Tracks(x, beams, p, count)
    requires p == count || LiveOf(beams) == []
    ensures beams != [] && |beams[0].tokens| <= count
    ensures Hypothesis(x, count) == Ok(Leader(beams, count))
  {
    assert beams[0] in beams;
    if p < count {
      assert forall b :: b in beams && !b.finished ==> b in LiveOf(beams);
      FinishedSampleStays(x, beams, p, count);
    }
  }

  /** The round a sample takes when its candidates are sorted and cut. */
  lemma SortedCandidatesAreTheRound(x: Query, beams: seq<Beam>, p: nat)
    requires x.Valid() && InRound(x, beams, p) && p < x.d.width
    requires forall b :: b in LiveOf(beams) ==> !Stuck(x, b)
    ensures
      var ranked := StableSort.Sort(Candidates(x, beams), Before);
      Round(x, beams, p) == Ok(if x.k <= |ranked| then ranked[..x.k] else ranked)
  {
    hide Stuck, Candidates, StableSort.Sort, Pool;
    TruncationIsLossless(x, beams, p);
    assert forall b :: b in beams && !b.finished ==> b in LiveOf(beams);
  }

  /** The arguments `beam_decode` accepts; `None` stands for the configured output window. */
  function TokenCount(d: Decoder, maxNewTokens: Option<int>): int {
    match maxNewTokens
    case None => d.width
    case Some(count) => count
  }

  function ArgumentError(d: Decoder, maxNewTokens: Option<int>, beamWidth: int, noRepeat: int): Option<DecodeError> {
    if !(1 <= TokenCount(d, maxNewTokens) <= d.width) then Some(BadTokenCount)
    else if !(1 <= beamWidth <= d.vocabulary - 2) then Some(BadBeamWidth)
    else if noRepeat < 2 then Some(BadNGramSize)
    else None
  }

  ghost predicate Refused(d: Decoder, memory: seq<Memory>, s: nat, n: nat, k: nat, count: nat)
    requires d.Valid() && 2 <= n && 1 <= k && count <= d.width && s < |memory|
  {
    Hypothesis(SampleQuery(d, memory, s, n, k), count) == Err(NoFiniteCandidate)
  }

  /** A decoder input row: the window filled with PAD, BOS in front, then the beam's tokens. */
  function DecoderInput(d: Decoder, b: Beam): Tokens {
    if |b.tokens| < d.width then DecoderRow(b.tokens, d.width) else []
  }

  lemma {:induction false} FlattenedRows(batch: seq<seq<Beam>>)
    ensures forall e :: e in Flattened(batch) ==> e.0 < |batch| && e.1 in LiveOf(batch[e.0])
  {
    forall e | e in Flattened(batch)
      ensures e.0 < |batch| && e.1 in LiveOf(batch[e.0])
    {
      FlatteningSeparates(batch, e.0);
      assert e == (e.0, e.1);
      assert e.1 in RowsOf(Flattened(batch), e.0);
    }
  }

  lemma LiveBeamsAreAtPosition(x: Query, beams: seq<Beam>, p: nat)
    requires InRound(x, beams, p)
    ensures forall b :: b in LiveOf(beams) ==> |b.tokens| == p && !RepeatsNGram(b.tokens, x.n)
  {
  }

  /** The finished beams of every sample, and all live beams in one list. */
  method SplitBatch(batch: seq<seq<Beam>>) returns (candidates: seq<seq<Beam>>, live: seq<(nat, Beam)>)
    ensures |candidates| == |batch| && forall i :: 0 <= i < |batch| ==> candidates[i] == FinishedOf(batch[i])
    ensures live == Flattened(batch)
  {
    candidates, live := [], [];
    var s := 0;
    while s < |batch|
      invariant 0 <= s <= |batch| && |candidates| == s
      invariant forall i :: 0 <= i < s ==> candidates[i] == FinishedOf(batch[i])
      invariant live == Flattened(batch[..s])
    {
      assert batch[..s + 1][..s] == batch[..s];
      candidates := candidates + [FinishedOf(batch[s])];
      live := live + Tagged(s, LiveOf(batch[s]));
      s := s + 1;
    }
    assert batch[..s] == batch;
  }

  /**
    One network call for all rows: row `r` is scored by the memory row of its own sample, and the
    column read is the loop position. It is the column of the row's own end, because every live
    beam is exactly as long as the position.
  */
  method ScoreRows(d: Decoder, memory: seq<Memory>, live: seq<(nat, Beam)>, p: nat) returns (scores: seq<seq<LogProb>>)
    requires d.Valid() && p < d.width
    requires forall e :: e in live ==> e.0 < |memory| && |e.1.tokens| == p
    ensures |scores| == |live|
    ensures forall r :: 0 <= r < |live| ==>
              |live[r].1.tokens| < d.width && scores[r] == NextScores(d, memory[live[r].0], live[r].1.tokens)
    ensures forall r :: 0 <= r < |live| ==>
              ScoresAfter(d, memory[live[r].0], live[r].1.tokens, scores[r])
  {
    assert forall r :: 0 <= r < |live| ==> live[r] in live;
    var inputs := seq(|live|, r requires 0 <= r < |live| => DecoderInput(d, live[r].1));
    var memories := seq(|live|, r requires 0 <= r < |live| && live[r].0 < |memory| => memory[live[r].0]);
    scores := seq(|live|, r requires 0 <= r < |live| => d.Column(memories[r], inputs[r], p));
  }

  /** The candidates of every sample once some rows of the flattened list have been expanded. */
  ghost predicate Gathered(x: Query, beams: seq<Beam>, rows: seq<Beam>, candidates: seq<Beam>)
    requires x.Valid()
  {
    && (forall b :: b in rows ==> b in LiveOf(beams) && |b.tokens| < x.d.width && !Stuck(x, b))
    && candidates == FinishedOf(beams) + KeptOf(x, rows)
  }

  lemma GatheredNothing(x: Query, beams: seq<Beam>)
    requires x.Valid()
    ensures Gathered(x, beams, [], FinishedOf(beams))
  {
  }

  lemma RowsOfNothing(sample: nat)
    ensures RowsOf([], sample) == []
  {
  }

  lemma RowsOfNext(live: seq<(nat, Beam)>, row: nat, sample: nat)
    requires row < |live|
    ensures RowsOf(live[..row + 1], sample)
            == if live[row].0 == sample then RowsOf(live[..row], sample) + [live[row].1]
              else RowsOf(live[..row], sample)
  {
    assert live[..row + 1][..row] == live[..row];
  }

  lemma GatheredNext(x: Query, beams: seq<Beam>, rows: seq<Beam>, candidates: seq<Beam>, b: Beam)
    requires x.Valid() && Gathered(x, beams, rows, candidates)
    requires b in LiveOf(beams) && |b.tokens| < x.d.width && Kept(x, b) != []
    ensures Gathered(x, beams, rows + [b], candidates + Kept(x, b))
  {
    hide FinishedOf, LiveOf, KeptOf, Kept, Stuck;
    KeptNothing(x, b);
    KeptOfNext(x, rows, b);
  }

  /** Expands every live beam of the batch, row by row. */
  method Expand(d: Decoder, memory: seq<Memory>, n: nat, k: nat, batch: seq<seq<Beam>>, p: nat)
    returns (r: Result<seq<seq<Beam>>, DecodeError>)
    requires d.Valid() && 2 <= n && 1 <= k && p < d.width && |batch| == |memory|
    requires forall s :: 0 <= s < |memory| ==> InRound(SampleQuery(d, memory, s, n, k), batch[s], p)
    ensures r.Ok? ==> |r.value| == |batch| && forall s :: 0 <= s < |memory| ==>
                        Gathered(SampleQuery(d, memory, s, n, k), batch[s], LiveOf(batch[s]), r.value[s])
    ensures r.Err? ==> exists s, b :: 0 <= s < |memory| && StuckIn(SampleQuery(d, memory, s, n, k), batch[s], b)
  {
    hide Kept, KeptOf, Stuck, NextScores, InRound, RepeatsNGram, Flattened, RowsOf, Gathered, FinishedOf, LiveOf;
    var candidates, live := SplitBatch(batch);
    FlattenedRows(batch);
    forall e | e in live
      ensures |e.1.tokens| == p && !RepeatsNGram(e.1.tokens, n)
    {
      LiveBeamsAreAtPosition(SampleQuery(d, memory, e.0, n, k), batch[e.0], p);
    }
    var scores := ScoreRows(d, memory, live, p);
    forall i | 0 <= i < |batch|
      ensures Gathered(SampleQuery(d, memory, i, n, k), batch[i], RowsOf(live[..0], i), candidates[i])
    {
      assert live[..0] == [];
      RowsOfNothing(i);
      GatheredNothing(SampleQuery(d, memory, i, n, k), batch[i]);
    }
    var row := 0;
    while row < |live|
      invariant 0 <= row <= |live|
      invariant |candidates| == |batch|
      invariant forall i :: 0 <= i < |batch| ==>
                  Gathered(SampleQuery(d, memory, i, n, k), batch[i], RowsOf(live[..row], i), candidates[i])
    {
      var sample, b := live[row].0, live[row].1;
      assert live[row] in live;
      var children := ExpandBeam(SampleQuery(d, memory, sample, n, k), b, scores[row]);
      if children == [] {
        KeptNothing(SampleQuery(d, memory, sample, n, k), b);
        assert StuckIn(SampleQuery(d, memory, sample, n, k), batch[sample], b);
        return Err(NoFiniteCandidate);
      }
      GatheredNext(SampleQuery(d, memory, sample, n, k), batch[sample], RowsOf(live[..row], sample),
        candidates[sample], b);
      forall i | 0 <= i < |batch|
        ensures RowsOf(live[..row + 1], i) == if sample == i then RowsOf(live[..row], i) + [b]
                else RowsOf(live[..row], i)
      {
        RowsOfNext(live, row, i);
      }
      candidates := candidates[sample := candidates[sample] + children];
      row := row + 1;
    }
    assert live[..row] == live;
    forall i | 0 <= i < |batch|
      ensures RowsOf(live, i) == LiveOf(batch[i])
    {
      FlatteningSeparates(batch, i);
    }
    r := Ok(candidates);
  }

  ghost predicate StuckIn(x: Query, beams: seq<Beam>, b: Beam)
    requires x.Valid()
  {
    b in LiveOf(beams) && |b.tokens| < x.d.width && Stuck(x, b)
  }

  /** Sorts every sample's candidates and keeps the beam width: one reference round per sample. */
  method SortAndCut(d: Decoder, memory: seq<Memory>, n: nat, k: nat, batch: seq<seq<Beam>>, candidates: seq<seq<Beam>>,
      p: nat)
    returns (next: seq<seq<Beam>>)
    requires d.Valid() && 2 <= n && 1 <= k && p < d.width && |batch| == |memory| == |candidates|
    requires forall s :: 0 <= s < |memory| ==> InRound(SampleQuery(d, memory, s, n, k), batch[s], p)
    requires forall s :: 0 <= s < |memory| ==>
               Gathered(SampleQuery(d, memory, s, n, k), batch[s], LiveOf(batch[s]), candidates[s])
    ensures |next| == |memory|
    ensures forall s :: 0 <= s < |memory| ==> Round(SampleQuery(d, memory, s, n, k), batch[s], p) == Ok(next[s])
  {
    hide InRound, Round, StableSort.Sort, FinishedOf, LiveOf;
    next := [];
    var s := 0;
    while s < |memory|
      invariant 0 <= s <= |memory| && |next| == s
      invariant forall i :: 0 <= i < s ==> Round(SampleQuery(d, memory, i, n, k), batch[i], p) == Ok(next[i])
    {
      var ranked := StableSort.Sort(candidates[s], Before);
      SortedCandidatesAreTheRound(SampleQuery(d, memory, s, n, k), batch[s], p);
      next := next + [if k <= |ranked| then ranked[..k] else ranked];
      s := s + 1;
    }
  }

  /** The best beam of a sample, padded to the output length. */
  function Leader(beams: seq<Beam>, count: nat): Tokens {
    if beams != [] && |beams[0].tokens| <= count then Padded(beams[0].tokens, count) else []
  }

  lemma TracksFromStart(x: Query, count: nat)
    requires x.Valid() && count <= x.d.width
    ensures Tracks(x, START, 0, count)
  {
    StartIsInRound(x);
  }

  lemma OnTrackIsInRound(d: Decoder, memory: seq<Memory>, n: nat, k: nat, batch: seq<seq<Beam>>, p: nat, count: nat)
    requires d.Valid() && 2 <= n && 1 <= k && p <= count <= d.width
    requires OnTrack(d, memory, n, k, batch, p, count)
    ensures forall s :: 0 <= s < |memory| ==> InRound(SampleQuery(d, memory, s, n, k), batch[s], p)
  {
    hide InRound, Rounds;
  }

  lemma NothingLive(batch: seq<seq<Beam>>)
    requires Flattened(batch) == []
    ensures forall s :: 0 <= s < |batch| ==> LiveOf(batch[s]) == []
  {
    forall s | 0 <= s < |batch|
      ensures LiveOf(batch[s]) == []
    {
      FlatteningSeparates(batch, s);
    }
  }

  /**
    Batch independence and lossless truncation in one statement: the batch is refused exactly when
    the arguments are or when some sample alone would be, and otherwise every sample's output is
    the output of its own reference search.
  */
  method BeamDecode(d: Decoder, memory: seq<Memory>, maxNewTokens: Option<int>, beamWidth: int, noRepeat: int)
    returns (r: Result<seq<Tokens>, DecodeError>)
    requires d.Valid()
    ensures ArgumentError(d, maxNewTokens, beamWidth, noRepeat).Some? ==>
              r == Err(ArgumentError(d, maxNewTokens, beamWidth, noRepeat).value)
    ensures
      var count := if maxNewTokens.Some? then maxNewTokens.value else d.width;
      && (r == Err(BadTokenCount) <==> count < 1 || count > d.width)
      && (r == Err(BadBeamWidth) <==> 1 <= count <= d.width && (beamWidth < 1 || beamWidth > d.vocabulary - 2))
      && (r == Err(BadNGramSize) <==>
            1 <= count <= d.width && 1 <= beamWidth <= d.vocabulary - 2 && noRepeat < 2)
      && (1 <= count <= d.width && 1 <= beamWidth <= d.vocabulary - 2 && noRepeat >= 2 ==>
            && (r.Ok? ==>
                  && |r.value| == |memory|
                  && forall s :: 0 <= s < |memory| ==>
                       Returns(Query(d, memory[s], noRepeat, beamWidth), count, r.value[s]))
            && (r.Err? ==> exists s :: 0 <= s < |memory| && Fails(Query(d, memory[s], noRepeat, beamWidth), count)))
    ensures ArgumentError(d, maxNewTokens, beamWidth, noRepeat).None? ==>
              var count := TokenCount(d, maxNewTokens);
              && (r.Ok? ==>
                    && |r.value| == |memory|
                    && forall s :: 0 <= s < |memory| ==>
                         Hypothesis(SampleQuery(d, memory, s, noRepeat, beamWidth), count) == Ok(r.value[s]))
              && (r.Err? ==>
                    && r.error == NoFiniteCandidate
                    && exists s :: 0 <= s < |memory| && Refused(d, memory, s, noRepeat, beamWidth, count))
  {
    hide Tracks, InRound, Round, Rounds, Hypothesis, Stuck, Gathered, Flattened, Returns, Fails;
    var refused := ArgumentError(d, maxNewTokens, beamWidth, noRepeat);
    if refused.Some? {
      return Err(refused.value);
    }
    var count: nat := TokenCount(d, maxNewTokens);
    var n: nat, k: nat := noRepeat, beamWidth;
    var batch := seq(|memory|, _ => START);
    var position := 0;
    forall s | 0 <= s < |memory|
      ensures Tracks(SampleQuery(d, memory, s, n, k), START, 0, count)
    {
      TracksFromStart(SampleQuery(d, memory, s, n, k), count);
    }
    while position < count
      invariant 0 <= position <= count
      invariant OnTrack(d, memory, n, k, batch, position, count)
    {
      OnTrackIsInRound(d, memory, n, k, batch, position, count);
      if Flattened(batch) == [] {
        NothingLive(batch);
        break;
      }
      var candidates := Expand(d, memory, n, k, batch, position);
      if candidates.Err? {
        ghost var s, b :| 0 <= s < |memory| && StuckIn(SampleQuery(d, memory, s, n, k), batch[s], b);
        TracksRefused(SampleQuery(d, memory, s, n, k), batch[s], b, position, count);
        assert Refused(d, memory, s, n, k, count);
        HypothesisIsTheSearch(SampleQuery(d, memory, s, n, k), count);
        return Err(NoFiniteCandidate);
      }
      var next := SortAndCut(d, memory, n, k, batch, candidates.value, position);
      forall s | 0 <= s < |memory|
        ensures Tracks(SampleQuery(d, memory, s, n, k), next[s], position + 1, count)
      {
        TracksNext(SampleQuery(d, memory, s, n, k), batch[s], next[s], position, count);
      }
      batch, position := next, position + 1;
    }
    var generated := seq(|memory|, s requires 0 <= s < |batch| => Leader(batch[s], count));
    forall s | 0 <= s < |memory|
      ensures Hypothesis(SampleQuery(d, memory, s, n, k), count) == Ok(generated[s])
      ensures Returns(SampleQuery(d, memory, s, n, k), count, generated[s])
    {
      TracksFinal(SampleQuery(d, memory, s, n, k), batch[s], position, count);
      HypothesisIsTheSearch(SampleQuery(d, memory, s, n, k), count);
    }
    r := Ok(generated);
  }
}
