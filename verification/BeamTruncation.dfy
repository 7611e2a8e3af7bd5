/**
  The program expands a live beam by walking its tokens in descending order of probability and
  stopping after `k` accepted children. This module shows that nothing is lost: the k best of the
  truncated candidates are the k best of the whole pool, ties included.
*/
module BeamTruncation {
  import opened BeamModel
  import opened BeamSelection
  import opened BeamReference
  import StableSort

  function RowOrder(row: seq<LogProb>): (nat, nat) -> bool {
    (i: nat, j: nat) => TokenBefore(row, i, j)
  }

  function TokenIds(n: nat): (ids: seq<nat>)
    ensures |ids| == n && forall t :: 0 <= t < n ==> ids[t] == t
  {
    seq(n, i => i)
  }

  /** A stable descending `argsort` of a row of log-probabilities. */
  function Argsort(row: seq<LogProb>): (order: seq<nat>)
    ensures |order| == |row|
  {
    StableSort.Sort<nat>(TokenIds(|row|), RowOrder(row))
  }

  /** The order of a row lists every token exactly once, better tokens first. */
  lemma ArgsortFacts(row: seq<LogProb>)
    ensures StableSort.Distinct(Argsort(row))
    ensures forall t: nat :: t in Argsort(row) <==> t < |row|
    ensures forall i, j :: 0 <= i < j < |row| ==> TokenBefore(row, Argsort(row)[i], Argsort(row)[j])
  {
    var ids := TokenIds(|row|);
    assert forall t: nat :: t in ids <==> t < |row| by {
      forall t: nat | t < |row|
        ensures t in ids
      {
        assert ids[t] == t;
      }
    }
    StableSort.SortSorts<nat>(ids, RowOrder(row));
    StableSort.SortKeepsDistinct<nat>(ids, RowOrder(row));
    StableSort.SortedElements<nat>(ids, RowOrder(row));
    var order := Argsort(row);
    forall t: nat
      ensures t in order <==> t < |row|
    {
      assert t in order <==> t in ids;
    }
    forall i, j | 0 <= i < j < |row|
      ensures TokenBefore(row, order[i], order[j])
    {
      assert !RowOrder(row)(order[j], order[i]);
      assert order[i] != order[j];
      assert order[i] in order && order[j] in order;
    }
  }

  /** The first `k` viable children along a token order. */
  function FirstViable(x: Query, b: Beam, order: seq<nat>, k: nat): (r: seq<Beam>)
    requires |b.tokens| < x.d.width
    ensures |r| <= k
  {
    if order == [] || k == 0 then []
    else if Viable(x.d, x.m, b, x.n, order[0]) then
      [Child(x.d, x.m, b, order[0])] + FirstViable(x, b, order[1..], k - 1)
    else FirstViable(x, b, order[1..], k)
  }

  /** One token of the walk. */
  lemma FirstViableNext(x: Query, b: Beam, order: seq<nat>, i: nat, k: nat)
    requires |b.tokens| < x.d.width && i < |order| && k != 0
    ensures
      FirstViable(x, b, order[i..], k) ==
      if Viable(x.d, x.m, b, x.n, order[i]) then
        [Child(x.d, x.m, b, order[i])] + FirstViable(x, b, order[i + 1..], k - 1)
      else FirstViable(x, b, order[i + 1..], k)
  {
    hide Allowed, Child;
    assert order[i..][1..] == order[i + 1..];
  }

  lemma NothingMoreViable(x: Query, b: Beam, order: seq<nat>, k: nat)
    requires |b.tokens| < x.d.width
    ensures FirstViable(x, b, order[|order|..], k) == [] && FirstViable(x, b, order, 0) == []
  {
  }

  /** The children the program keeps of one live beam. */
  function Kept(x: Query, b: Beam): seq<Beam>
    requires |b.tokens| < x.d.width
  {
    FirstViable(x, b, Argsort(NextScores(x.d, x.m, b.tokens)), x.k)
  }

  /** Adding the parent's score is strictly monotone, so siblings compete in token order. */
  lemma SiblingsCompeteInTokenOrder(x: Query, b: Beam, s: nat, t: nat)
    requires x.Valid() && |b.tokens| < x.d.width
    requires s < x.d.vocabulary && t < x.d.vocabulary
    requires NextScores(x.d, x.m, b.tokens)[s].Finite? && NextScores(x.d, x.m, b.tokens)[t].Finite?
    requires TokenBefore(NextScores(x.d, x.m, b.tokens), s, t)
    ensures Before(Child(x.d, x.m, b, s), Child(x.d, x.m, b, t))
  {
    LexSiblings(b.tokens, s, t);
  }

  ghost predicate InTokenOrder(row: seq<LogProb>, order: seq<nat>) {
    && (forall t :: t in order ==> t < |row|)
    && (forall i, j :: 0 <= i < j < |order| ==> TokenBefore(row, order[i], order[j]))
  }

  lemma TailInTokenOrder(row: seq<LogProb>, order: seq<nat>)
    requires InTokenOrder(row, order) && order != []
    ensures InTokenOrder(row, order[1..])
  {
    hide TokenBefore;
    forall t | t in order[1..]
      ensures t < |row|
    {
      assert t in order;
    }
    assert forall i :: 0 <= i < |order[1..]| ==> order[1..][i] == order[i + 1];
  }

  lemma {:induction false} FirstViableAreViable(x: Query, b: Beam, order: seq<nat>, k: nat)
    requires x.Valid() && |b.tokens| < x.d.width
    ensures forall c :: c in FirstViable(x, b, order, k) ==>
              exists t :: t in order && Viable(x.d, x.m, b, x.n, t) && c == Child(x.d, x.m, b, t)
  {
    hide Allowed, Child;
    if order != [] && k != 0 {
      var tail := order[1..];
      assert forall t :: t in order <==> t == order[0] || t in tail;
      FirstViableAreViable(x, b, tail, if Viable(x.d, x.m, b, x.n, order[0]) then k - 1 else k);
    }
  }

  /** The head of a token order comes before every viable child of the rest. */
  lemma HeadComesFirst(x: Query, b: Beam, order: seq<nat>, t: nat)
    requires x.Valid() && |b.tokens| < x.d.width && order != []
    requires InTokenOrder(NextScores(x.d, x.m, b.tokens), order)
    requires Viable(x.d, x.m, b, x.n, order[0]) && t in order[1..] && Viable(x.d, x.m, b, x.n, t)
    ensures Before(Child(x.d, x.m, b, order[0]), Child(x.d, x.m, b, t))
  {
    hide Before, Child, TokenBefore;
    var j :| 0 <= j < |order[1..]| && order[1..][j] == t;
    assert order[j + 1] == t;
    SiblingsCompeteInTokenOrder(x, b, order[0], t);
  }

  lemma {:induction false} FirstViableIsRanked(x: Query, b: Beam, order: seq<nat>, k: nat)
    requires x.Valid() && |b.tokens| < x.d.width
    requires InTokenOrder(NextScores(x.d, x.m, b.tokens), order)
    ensures Ranked(FirstViable(x, b, order, k))
  {
    hide Allowed, Child, Before;
    if order != [] && k != 0 {
      var tail := order[1..];
      TailInTokenOrder(NextScores(x.d, x.m, b.tokens), order);
      if Viable(x.d, x.m, b, x.n, order[0]) {
        FirstViableIsRanked(x, b, tail, k - 1);
        FirstViableAreViable(x, b, tail, k - 1);
        forall c | c in FirstViable(x, b, tail, k - 1)
          ensures Before(Child(x.d, x.m, b, order[0]), c)
        {
          var t :| t in tail && Viable(x.d, x.m, b, x.n, t) && c == Child(x.d, x.m, b, t);
          HeadComesFirst(x, b, order, t);
        }
      } else {
        FirstViableIsRanked(x, b, tail, k);
      }
    }
  }

  /** A viable child that is not kept comes behind all kept ones, and there are `k` of them. */
  lemma {:induction false} NotKeptIsBehind(x: Query, b: Beam, order: seq<nat>, k: nat, t: nat)
    requires x.Valid() && |b.tokens| < x.d.width
    requires InTokenOrder(NextScores(x.d, x.m, b.tokens), order)
    requires t in order && Viable(x.d, x.m, b, x.n, t) && Child(x.d, x.m, b, t) !in FirstViable(x, b, order, k)
    ensures |FirstViable(x, b, order, k)| == k
    ensures forall c :: c in FirstViable(x, b, order, k) ==> Before(c, Child(x.d, x.m, b, t))
  {
    hide Allowed, Child, Before;
    if k != 0 {
      var tail := order[1..];
      assert t == order[0] || t in tail;
      TailInTokenOrder(NextScores(x.d, x.m, b.tokens), order);
      if Viable(x.d, x.m, b, x.n, order[0]) {
        NotKeptIsBehind(x, b, tail, k - 1, t);
        HeadComesFirst(x, b, order, t);
      } else {
        NotKeptIsBehind(x, b, tail, k, t);
      }
    }
  }

  /**
    What is kept are children, each once, in competition order; a child that is not kept has
    `k` kept siblings before it.
  */
  lemma FirstViableFacts(x: Query, b: Beam, order: seq<nat>, k: nat)
    requires x.Valid() && |b.tokens| < x.d.width
    requires InTokenOrder(NextScores(x.d, x.m, b.tokens), order)
    ensures Ranked(FirstViable(x, b, order, k))
    ensures forall c :: c in FirstViable(x, b, order, k) ==>
              exists t :: t in order && Viable(x.d, x.m, b, x.n, t) && c == Child(x.d, x.m, b, t)
    ensures forall t :: t in order && Viable(x.d, x.m, b, x.n, t) ==>
              || Child(x.d, x.m, b, t) in FirstViable(x, b, order, k)
              || (|FirstViable(x, b, order, k)| == k
                   && AllBefore(Elements(FirstViable(x, b, order, k)), Child(x.d, x.m, b, t)))
  {
    hide Allowed, Child, Before, FirstViable, Ranked, InTokenOrder;
    FirstViableIsRanked(x, b, order, k);
    FirstViableAreViable(x, b, order, k);
    forall t | t in order && Viable(x.d, x.m, b, x.n, t) && Child(x.d, x.m, b, t) !in FirstViable(x, b, order, k)
      ensures |FirstViable(x, b, order, k)| == k
      ensures AllBefore(Elements(FirstViable(x, b, order, k)), Child(x.d, x.m, b, t))
    {
      NotKeptIsBehind(x, b, order, k, t);
    }
  }

  lemma RankedIsDistinct(s: seq<Beam>)
    requires Ranked(s)
    ensures StableSort.Distinct(s) && |Elements(s)| == |s|
  {
    forall i, j | 0 <= i < j < |s|
      ensures s[i] != s[j]
    {
      BeforeIrreflexive(s[i]);
    }
    DistinctCardinality(s);
  }

  lemma {:induction false} DistinctCardinality(s: seq<Beam>)
    requires StableSort.Distinct(s)
    ensures |Elements(s)| == |s|
  {
    if s == [] {
      assert Elements(s) == {};
    } else {
      var front := s[..|s| - 1];
      DistinctCardinality(front);
      assert s == front + [s[|s| - 1]];
      assert Elements(s) == Elements(front) + {s[|s| - 1]};
    }
  }

  /** Every child is kept, or `k` kept siblings are better; nothing is kept only when there is no child. */
  lemma KeptFacts(x: Query, b: Beam)
    requires x.Valid() && |b.tokens| < x.d.width
    ensures StableSort.Distinct(Kept(x, b))
    ensures Elements(Kept(x, b)) <= ChildrenOf(x, b)
    ensures forall c :: c in ChildrenOf(x, b) && c !in Kept(x, b) ==> Outdone(c, Elements(Kept(x, b)), x.k)
    ensures Kept(x, b) == [] <==> Stuck(x, b)
  {
    var row := NextScores(x.d, x.m, b.tokens);
    ArgsortFacts(row);
    var order := Argsort(row);
    FirstViableFacts(x, b, order, x.k);
    var kept := Kept(x, b);
    RankedIsDistinct(kept);
    forall c | c in ChildrenOf(x, b) && c !in kept
      ensures Outdone(c, Elements(kept), x.k)
    {
      ChildrenFacts(x, b, c);
      var t := c.tokens[|b.tokens|];
      assert t in order;
      assert AllBefore(Elements(kept), c);
    }
    if kept != [] {
      assert kept[0] in Elements(kept);
      assert kept[0] in ChildrenOf(x, b);
    }
  }

  // ----- the candidates of one sample -----

  /** The kept children of a list of live beams, parent by parent. */
  function KeptOf(x: Query, live: seq<Beam>): (r: seq<Beam>)
    requires forall b :: b in live ==> |b.tokens| < x.d.width
  {
    if live == [] then [] else KeptOf(x, live[..|live| - 1]) + Kept(x, live[|live| - 1])
  }

  lemma {:induction false} KeptOfMembers(x: Query, live: seq<Beam>)
    requires forall b :: b in live ==> |b.tokens| < x.d.width
    ensures forall c :: c in KeptOf(x, live) <==> exists b :: b in live && c in Kept(x, b)
  {
    if live != [] {
      var front, last := live[..|live| - 1], live[|live| - 1];
      assert live == front + [last];
      KeptOfMembers(x, front);
    }
  }

  /** Nothing is kept of a live beam only when it has no child at all. */
  lemma KeptNothing(x: Query, b: Beam)
    requires x.Valid() && |b.tokens| < x.d.width
    ensures Kept(x, b) == [] <==> Stuck(x, b)
  {
    KeptFacts(x, b);
  }

  lemma KeptOfNext(x: Query, live: seq<Beam>, b: Beam)
    requires |b.tokens| < x.d.width && forall c :: c in live ==> |c.tokens| < x.d.width
    ensures (forall c :: c in live + [b] ==> |c.tokens| < x.d.width)
            && KeptOf(x, live + [b]) == KeptOf(x, live) + Kept(x, b)
  {
    assert (live + [b])[..|live|] == live;
  }

  /** The list the program sorts: the finished beams, then the kept children. */
  function Candidates(x: Query, beams: seq<Beam>): seq<Beam>
    requires forall b :: b in beams ==> |b.tokens| < x.d.width
  {
    FinishedOf(beams) + KeptOf(x, LiveOf(beams))
  }

  lemma {:induction false} PartsAreDistinct(beams: seq<Beam>)
    requires StableSort.Distinct(beams)
    ensures StableSort.Distinct(FinishedOf(beams)) && StableSort.Distinct(LiveOf(beams))
  {
    if beams != [] {
      var front := beams[..|beams| - 1];
      PartsAreDistinct(front);
      assert beams[|beams| - 1] !in front;
    }
  }

  lemma OneParent(x: Query, a: Beam, b: Beam, c: Beam)
    requires x.Valid() && |a.tokens| < x.d.width && |b.tokens| < x.d.width
    requires c in ChildrenOf(x, a) && c in ChildrenOf(x, b)
    ensures a.tokens == b.tokens
  {
    ChildrenFacts(x, a, c);
    ChildrenFacts(x, b, c);
  }

  lemma {:induction false} KeptOfIsDistinct(x: Query, live: seq<Beam>)
    requires x.Valid() && StableSort.Distinct(live) && ToldApart(Elements(live))
    requires forall b :: b in live ==> |b.tokens| < x.d.width
    ensures StableSort.Distinct(KeptOf(x, live))
  {
    if live != [] {
      var front, last := live[..|live| - 1], live[|live| - 1];
      assert live == front + [last];
      assert forall b :: b in Elements(front) ==> b in Elements(live);
      KeptOfIsDistinct(x, front);
      KeptOfMembers(x, front);
      KeptFacts(x, last);
      forall c | c in Kept(x, last)
        ensures c !in KeptOf(x, front)
      {
        if c in KeptOf(x, front) {
          var b :| b in front && c in Kept(x, b);
          KeptFacts(x, b);
          assert c in Elements(Kept(x, b)) && c in Elements(Kept(x, last));
          assert b in Elements(live) && last in Elements(live);
          OneParent(x, b, last, c);
        }
      }
      StableSort.DistinctConcat(KeptOf(x, front), Kept(x, last));
    }
  }

  lemma CandidatesAreDistinct(x: Query, beams: seq<Beam>, p: nat)
    requires x.Valid() && InRound(x, beams, p) && p < x.d.width
    ensures StableSort.Distinct(Candidates(x, beams))
  {
    RankedIsDistinct(beams);
    PartsAreDistinct(beams);
    var live := LiveOf(beams);
    assert forall b :: b in Elements(live) ==> b in Elements(beams);
    KeptOfIsDistinct(x, live);
    KeptOfMembers(x, live);
    forall c | c in KeptOf(x, live)
      ensures c !in FinishedOf(beams)
    {
      var b :| b in live && c in Kept(x, b);
      KeptFacts(x, b);
      assert c in Elements(Kept(x, b));
      ChildrenFacts(x, b, c);
      assert |c.tokens| == p + 1;
    }
    StableSort.DistinctConcat(FinishedOf(beams), KeptOf(x, live));
  }

  lemma CandidatesComeFromPool(x: Query, beams: seq<Beam>, p: nat)
    requires x.Valid() && InRound(x, beams, p) && p < x.d.width
    ensures Elements(Candidates(x, beams)) <= Pool(x, beams)
  {
    KeptOfMembers(x, LiveOf(beams));
    PoolMembers(x, beams);
    forall c | c in Candidates(x, beams)
      ensures c in Pool(x, beams)
    {
      if c !in FinishedOf(beams) {
        var b :| b in LiveOf(beams) && c in Kept(x, b);
        KeptFacts(x, b);
        assert c in Elements(Kept(x, b));
      }
    }
  }

  lemma DroppedAreOutdone(x: Query, beams: seq<Beam>, p: nat)
    requires x.Valid() && InRound(x, beams, p) && p < x.d.width
    ensures forall c :: c in Pool(x, beams) - Elements(Candidates(x, beams)) ==>
              Outdone(c, Elements(Candidates(x, beams)), x.k)
  {
    var candidates := Candidates(x, beams);
    KeptOfMembers(x, LiveOf(beams));
    PoolMembers(x, beams);
    forall c | c in Pool(x, beams) && c !in candidates
      ensures Outdone(c, Elements(candidates), x.k)
    {
      assert !(c in FinishedOf(beams));
      var b :| b in beams && !b.finished && c in ChildrenOf(x, b);
      assert b in LiveOf(beams);
      KeptFacts(x, b);
      assert c !in KeptOf(x, LiveOf(beams));
      var better: set<Beam> :| better <= Elements(Kept(x, b)) && |better| >= x.k && AllBefore(better, c);
      forall y | y in better
        ensures y in Elements(candidates)
      {
        assert y in KeptOf(x, LiveOf(beams));
      }
      assert better <= Elements(candidates);
    }
  }

  /**
    Truncation per parent is lossless: sorting the candidates and keeping `k` of them gives the
    k best of the full expansion, ties included.
  */
  lemma TruncationIsLossless(x: Query, beams: seq<Beam>, p: nat)
    requires x.Valid() && InRound(x, beams, p) && p < x.d.width
    ensures
      var ranked := StableSort.Sort(Candidates(x, beams), Before);
      ToldApart(Pool(x, beams)) && Top(Pool(x, beams), x.k) == if x.k <= |ranked| then ranked[..x.k] else ranked
  {
    PoolToldApart(x, beams, p);
    CandidatesAreDistinct(x, beams, p);
    CandidatesComeFromPool(x, beams, p);
    DroppedAreOutdone(x, beams, p);
    TopIgnoresOutdone(Pool(x, beams), Elements(Candidates(x, beams)), x.k);
    SortedCutIsTop(Candidates(x, beams), x.k);
  }
}
