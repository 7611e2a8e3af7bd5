/** What the reference search guarantees about every output, and when stopping early is harmless. */
module BeamProperties {
  import opened Outcomes
  import opened BeamModel
  import opened BeamSelection
  import opened BeamReference

  /**
    Every output is a well-formed hypothesis followed by padding: no PAD or BOS inside, EOS at most
    once and only as its last token, no repeated n-gram; a hypothesis that stops early ends in EOS.
  */
  lemma EveryOutputIsWellFormed(x: Query, count: nat, output: Tokens)
    requires x.Valid() && count <= x.d.width
    requires Hypothesis(x, count) == Ok(output)
    ensures exists tokens :: 
              && |tokens| <= count && output == Padded(tokens, count)
              && WellFormed(tokens, x.n)
              && (|tokens| < count ==> tokens != [] && tokens[|tokens| - 1] == EOS)
  {
    StartIsInRound(x);
    var beams := Rounds(x, START, 0, count).value;
    assert beams[0] in beams && GoodBeam(beams[0], count, x.n);
  }

  lemma PoolOfFinished(x: Query, beams: seq<Beam>)
    requires forall b :: b in beams ==> b.finished && |b.tokens| < x.d.width
    ensures Pool(x, beams) == Elements(beams)
  {
    PoolMembers(x, beams);
    hide Pool, ChildrenOf;
  }

  lemma BeamsFit(x: Query, beams: seq<Beam>, p: nat)
    requires InRound(x, beams, p)
    ensures forall b :: b in beams ==> |b.tokens| <= p
  {
  }

  lemma FinishedRoundStays(x: Query, beams: seq<Beam>, p: nat)
    requires x.Valid() && InRound(x, beams, p) && p < x.d.width
    requires forall b :: b in beams ==> b.finished
    ensures Round(x, beams, p) == Ok(beams)
  {
    hide Pool, Stuck, GoodBeam, Top, ToldApart, Ranked, Elements;
    assert forall b :: b in beams ==> |b.tokens| < x.d.width by {
      BeamsFit(x, beams, p);
    }
    PoolOfFinished(x, beams);
    PoolToldApart(x, beams, p);
    RankedPrefixIsTop(beams, x.k);
    assert beams[..|beams|] == beams;
  }

  /** A sample without live beams is not changed by any further round. */
  lemma {:induction false} FinishedSampleStays(x: Query, beams: seq<Beam>, p: nat, count: nat)
    requires x.Valid() && InRound(x, beams, p) && p <= count <= x.d.width
    requires forall b :: b in beams ==> b.finished
    ensures Rounds(x, beams, p, count) == Ok(beams)
    decreases count - p
  {
    if p < count {
      FinishedRoundStays(x, beams, p);
      FinishedSampleStays(x, beams, p + 1, count);
    }
  }

  /** Log-probabilities are at most zero. */
  ghost predicate NeverPositive(d: Decoder) {
    forall m, row, column, t :: d.logProb(m, row, column, t).Finite? ==> d.logProb(m, row, column, t).value <= 0.0
  }

  lemma ChildrenNeverOvertake(x: Query, leader: Beam, b: Beam, c: Beam)
    requires NeverPositive(x.d) && |b.tokens| < x.d.width
    requires Before(leader, b) && c in ChildrenOf(x, b)
    ensures Before(leader, c)
  {
    ChildrenFacts(x, b, c);
    var t := c.tokens[|b.tokens|];
    assert c.tokens == b.tokens + [t];
    assert NextScores(x.d, x.m, b.tokens)[t] == x.d.logProb(x.m, DecoderRow(b.tokens, x.d.width), |b.tokens|, t);
    if c.score == leader.score {
      LexAppend(leader.tokens, b.tokens, t);
    }
  }

  lemma FinishedLeaderStaysOneRound(x: Query, beams: seq<Beam>, p: nat)
    requires x.Valid() && NeverPositive(x.d) && InRound(x, beams, p) && p < x.d.width
    requires beams[0].finished && Round(x, beams, p).Ok?
    ensures Round(x, beams, p).value[0] == beams[0]
  {
    var leader := beams[0];
    var pool := Pool(x, beams);
    PoolMembers(x, beams);
    PoolToldApart(x, beams, p);
    TopFacts(pool, x.k);
    forall c | c in pool && c != leader
      ensures Before(leader, c)
    {
      if c in beams && c.finished {
        var i :| 0 <= i < |beams| && beams[i] == c;
      } else {
        var b :| b in beams && !b.finished && c in ChildrenOf(x, b);
        var i :| 0 <= i < |beams| && beams[i] == b;
        ChildrenNeverOvertake(x, leader, b, c);
      }
    }
    assert leader in beams && leader in pool;
    assert Best(leader, pool);
    BestIsUnique(leader, Top(pool, x.k)[0], pool);
  }

  /**
    A finished leader is absorbing: however many rounds follow, it stays first, so the output is
    already decided and stopping the sample there would not change it.
  */
  lemma {:induction false} FinishedLeaderIsAbsorbing(x: Query, beams: seq<Beam>, p: nat, count: nat)
    requires x.Valid() && NeverPositive(x.d) && InRound(x, beams, p) && p <= count <= x.d.width
    requires beams[0].finished && Rounds(x, beams, p, count).Ok?
    ensures Rounds(x, beams, p, count).value[0] == beams[0]
    decreases count - p
  {
    hide *;
    RoundsNext(x, beams, p, count);
    if p < count {
      FinishedLeaderStaysOneRound(x, beams, p);
      FinishedLeaderIsAbsorbing(x, Round(x, beams, p).value, p + 1, count);
    }
  }
}
