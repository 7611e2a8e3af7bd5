/**
  The reference beam search of one sample. A round pools the finished beams with every child of
  every live beam and keeps the k best of the pool. There is no truncation per parent, no batch
  and no early stop here; those belong to the program, and the lemmas of this module are what
  makes them harmless.
*/
module BeamReference {
  import opened Outcomes
  import opened BeamModel
  import opened BeamSelection
  import StableSort

  datatype DecodeError = BadTokenCount | BadBeamWidth | BadNGramSize | NoFiniteCandidate

  /** One sample's search problem: network, memory row, n-gram size and beam width. */
  datatype Query = Query(d: Decoder, m: Memory, n: nat, k: nat)
  {
    ghost predicate Valid() {
      d.Valid() && 2 <= n && 1 <= k
    }
  }

  /** No PAD, no BOS, EOS only at the end, nothing said twice in n consecutive tokens. */
  ghost predicate WellFormed(tokens: Tokens, n: nat) {
    && (forall i :: 0 <= i < |tokens| ==> tokens[i] != PAD && tokens[i] != BOS)
    && (forall i :: 0 <= i < |tokens| - 1 ==> tokens[i] != EOS)
    && !RepeatsNGram(tokens, n)
  }

  ghost predicate GoodBeam(b: Beam, p: nat, n: nat) {
    && WellFormed(b.tokens, n)
    && |b.tokens| <= p
    && (!b.finished ==> |b.tokens| == p)
    && (b.finished <==> b.tokens != [] && b.tokens[|b.tokens| - 1] == EOS)
  }

  /** The beams of one sample before output position `p` is decided. */
  ghost predicate InRound(x: Query, beams: seq<Beam>, p: nat) {
    && 0 < |beams| <= x.k
    && Ranked(beams)
    && ToldApart(Elements(beams))
    && forall b :: b in beams ==> GoodBeam(b, p, x.n)
  }

  const START: seq<Beam> := [Beam(0.0, [], false)]

  function FinishedOf(beams: seq<Beam>): (r: seq<Beam>)
    ensures forall b :: b in r <==> b in beams && b.finished
  {
    if beams == [] then []
    else
      var last := beams[|beams| - 1];
      var front := FinishedOf(beams[..|beams| - 1]);
      assert beams == beams[..|beams| - 1] + [last];
      if last.finished then front + [last] else front
  }

  function LiveOf(beams: seq<Beam>): (r: seq<Beam>)
    ensures forall b :: b in r <==> b in beams && !b.finished
  {
    if beams == [] then []
    else
      var last := beams[|beams| - 1];
      var front := LiveOf(beams[..|beams| - 1]);
      assert beams == beams[..|beams| - 1] + [last];
      if last.finished then front else front + [last]
  }

  /** A live beam that no token can follow. */
  ghost predicate Stuck(x: Query, b: Beam)
    requires |b.tokens| < x.d.width
  {
    Children(x.d, x.m, b, x.n) == {}
  }

  ghost function ChildrenOf(x: Query, b: Beam): set<Beam>
    requires |b.tokens| < x.d.width
  {
    Children(x.d, x.m, b, x.n)
  }

  /** Everything that competes in a round: the finished beams and all children of live beams. */
  ghost function Pool(x: Query, beams: seq<Beam>): (r: set<Beam>)
    requires forall b :: b in beams ==> |b.tokens| < x.d.width
  {
    Elements(FinishedOf(beams)) + PoolOfLive(x, LiveOf(beams))
  }

  ghost function PoolOfLive(x: Query, live: seq<Beam>): (r: set<Beam>)
    requires forall b :: b in live ==> |b.tokens| < x.d.width
  {
    if live == [] then {} else PoolOfLive(x, live[..|live| - 1]) + ChildrenOf(x, live[|live| - 1])
  }

  lemma {:induction false} PoolOfLiveMembers(x: Query, live: seq<Beam>)
    requires forall b :: b in live ==> |b.tokens| < x.d.width
    ensures forall c :: c in PoolOfLive(x, live) <==> exists b :: b in live && c in ChildrenOf(x, b)
  {
    if live != [] {
      var front, last := live[..|live| - 1], live[|live| - 1];
      assert live == front + [last];
      PoolOfLiveMembers(x, front);
    }
  }

  /** The pool is exactly the finished beams and the children of the live ones. */
  lemma PoolMembers(x: Query, beams: seq<Beam>)
    requires forall b :: b in beams ==> |b.tokens| < x.d.width
    ensures forall c :: c in Pool(x, beams) <==>
              (c in beams && c.finished) || exists b :: b in beams && !b.finished && c in ChildrenOf(x, b)
  {
    PoolOfLiveMembers(x, LiveOf(beams));
  }

  /** One round: refused when a live beam is stuck, otherwise the k best of the pool. */
  ghost function Round(x: Query, beams: seq<Beam>, p: nat): (r: Result<seq<Beam>, DecodeError>)
    requires x.Valid() && InRound(x, beams, p) && p < x.d.width
    ensures r.Ok? ==> InRound(x, r.value, p + 1)
  {
    if exists b :: b in beams && !b.finished && Stuck(x, b) then Err(NoFiniteCandidate)
    else
      PoolToldApart(x, beams, p);
      NextRoundIsGood(x, beams, p);
      Ok(Top(Pool(x, beams), x.k))
  }

  /** The rounds from position `p` up to the output length. */
  ghost function Rounds(x: Query, beams: seq<Beam>, p: nat, count: nat): (r: Result<seq<Beam>, DecodeError>)
    requires x.Valid() && InRound(x, beams, p) && p <= count <= x.d.width
    ensures r.Ok? ==> InRound(x, r.value, count)
    decreases count - p
  {
    if p == count then Ok(beams)
    else
      match Round(x, beams, p)
      case Err(e) => Err(e)
      case Ok(next) => Rounds(x, next, p + 1, count)
  }

  lemma RoundsNext(x: Query, beams: seq<Beam>, p: nat, count: nat)
    requires x.Valid() && InRound(x, beams, p) && p <= count <= x.d.width
    ensures p == count ==> Rounds(x, beams, p, count) == Ok(beams)
    ensures p < count && Round(x, beams, p).Ok? ==>
              Rounds(x, beams, p, count) == Rounds(x, Round(x, beams, p).value, p + 1, count)
    ensures p < count && Round(x, beams, p).Err? ==> Rounds(x, beams, p, count) == Round(x, beams, p)
  {
  }

  lemma StartIsInRound(x: Query)
    requires x.Valid()
    ensures InRound(x, START, 0)
  {
  }

  function Padded(tokens: Tokens, count: nat): (r: Tokens)
    requires |tokens| <= count
    ensures |r| == count
  {
    tokens + seq(count - |tokens|, _ => PAD)
  }

  /** The decoded output of one sample on its own: the leader after `count` rounds, padded. */
  ghost function Hypothesis(x: Query, count: nat): (r: Result<Tokens, DecodeError>)
    requires x.Valid() && count <= x.d.width
  {
    StartIsInRound(x);
    match Rounds(x, START, 0, count)
    case Err(e) => Err(e)
    case Ok(beams) =>
      assert beams[0] in beams;
      Ok(Padded(beams[0].tokens, count))
  }

  // ----- children and pools -----

  lemma ChildrenFacts(x: Query, b: Beam, c: Beam)
    requires |b.tokens| < x.d.width
    requires c in ChildrenOf(x, b)
    ensures |c.tokens| == |b.tokens| + 1 && c.tokens[..|b.tokens|] == b.tokens
    ensures Viable(x.d, x.m, b, x.n, c.tokens[|b.tokens|])
    ensures c == Child(x.d, x.m, b, c.tokens[|b.tokens|])
  {
    var t: nat :| t < x.d.vocabulary && Viable(x.d, x.m, b, x.n, t) && c == Child(x.d, x.m, b, t);
    assert c.tokens == b.tokens + [t];
  }

  lemma ChildIsGood(x: Query, b: Beam, p: nat, c: Beam)
    requires x.Valid() && p < x.d.width
    requires GoodBeam(b, p, x.n) && !b.finished && c in ChildrenOf(x, b)
    ensures GoodBeam(c, p + 1, x.n)
  {
    ChildrenFacts(x, b, c);
    var t := c.tokens[|b.tokens|];
    assert c.tokens == b.tokens + [t];
    forall i | 0 <= i < |c.tokens| - 1
      ensures c.tokens[i] != EOS
    {
      assert c.tokens[i] == b.tokens[i];
    }
  }

  lemma PoolToldApart(x: Query, beams: seq<Beam>, p: nat)
    requires x.Valid() && InRound(x, beams, p) && p < x.d.width
    ensures ToldApart(Pool(x, beams))
  {
    PoolMembers(x, beams);
    forall a, b | a in Pool(x, beams) && b in Pool(x, beams) && a.tokens == b.tokens
      ensures a == b
    {
      if a in beams && a.finished {
        assert |a.tokens| <= p;
        if b in beams && b.finished {
          assert a in Elements(beams) && b in Elements(beams);
        } else {
          var parent :| parent in beams && !parent.finished && b in ChildrenOf(x, parent);
          ChildrenFacts(x, parent, b);
        }
      } else {
        var parent :| parent in beams && !parent.finished && a in ChildrenOf(x, parent);
        ChildrenFacts(x, parent, a);
        if b in beams && b.finished {
          assert false;
        } else {
          var other :| other in beams && !other.finished && b in ChildrenOf(x, other);
          ChildrenFacts(x, other, b);
          assert parent in Elements(beams) && other in Elements(beams);
        }
      }
    }
  }

  lemma PoolMemberIsGood(x: Query, beams: seq<Beam>, p: nat, c: Beam)
    requires x.Valid() && InRound(x, beams, p) && p < x.d.width
    requires c in Pool(x, beams)
    ensures GoodBeam(c, p + 1, x.n)
  {
    PoolMembers(x, beams);
    if !(c in beams && c.finished) {
      var b :| b in beams && !b.finished && c in ChildrenOf(x, b);
      ChildIsGood(x, b, p, c);
    }
  }

  lemma NextRoundIsGood(x: Query, beams: seq<Beam>, p: nat)
    requires x.Valid() && InRound(x, beams, p) && p < x.d.width
    requires !exists b :: b in beams && !b.finished && Stuck(x, b)
    ensures ToldApart(Pool(x, beams)) && InRound(x, Top(Pool(x, beams), x.k), p + 1)
  {
    PoolToldApart(x, beams, p);
    TopFacts(Pool(x, beams), x.k);
    forall c | c in Top(Pool(x, beams), x.k)
      ensures GoodBeam(c, p + 1, x.n)
    {
      PoolMemberIsGood(x, beams, p, c);
    }
  }
}
