/**
  The beam search written out, with nothing taken from the functions that compute it: which beams may
  follow, what the network is asked for them, how scores add up, which beams stay in a round, and what
  is returned. Every output of the reference search is the output of such a search, and conversely.
*/
module BeamContract {
  import opened Outcomes
  import opened BeamModel
  import opened BeamSelection
  import opened BeamReference
  import opened BeamTruncation

  // ----- what may follow -----

  /** The n tokens from `i` on stand again from `j` on. */
  predicate SameRun(tokens: Tokens, i: nat, j: nat, n: nat)
    requires i <= j && j + n <= |tokens|
  {
    forall k :: i <= k < i + n ==> tokens[k] == tokens[k + (j - i)]
  }

  /** Some n consecutive tokens stand at two places. */
  ghost predicate SaysTwice(tokens: Tokens, n: nat) {
    exists i: nat, j: nat :: i < j && j + n <= |tokens| && SameRun(tokens, i, j, n)
  }

  lemma SameRunIsSameGram(tokens: Tokens, i: nat, j: nat, n: nat)
    requires i <= j && j + n <= |tokens|
    ensures SameRun(tokens, i, j, n) <==> Gram(tokens, i, n) == Gram(tokens, j, n)
  {
    if Gram(tokens, i, n) == Gram(tokens, j, n) {
      forall k | i <= k < i + n
        ensures tokens[k] == tokens[k + (j - i)]
      {
        assert Gram(tokens, i, n)[k - i] == Gram(tokens, j, n)[k - i];
      }
    }
  }

  lemma RepeatsIsSaysTwice(tokens: Tokens, n: nat)
    ensures RepeatsNGram(tokens, n) <==> SaysTwice(tokens, n)
  {
    hide SameRun, Gram;
    if RepeatsNGram(tokens, n) {
      var i, j :| 0 <= i < j <= |tokens| - n && Gram(tokens, i, n) == Gram(tokens, j, n);
      SameRunIsSameGram(tokens, i, j, n);
    }
    if SaysTwice(tokens, n) {
      var i: nat, j: nat :| i < j && j + n <= |tokens| && SameRun(tokens, i, j, n);
      SameRunIsSameGram(tokens, i, j, n);
    }
  }

  /** The network gives `t` this finite log-probability after `prefix`. */
  ghost predicate LogProbIs(d: Decoder, m: Memory, prefix: Tokens, t: nat, value: real) {
    exists asked :: Asks(asked, prefix, d.width) && d.logProb(m, asked, |prefix|, t) == Finite(value)
  }

  /** `c` is `b` with one more token, its score raised by that token's log-probability, finished by EOS, 2, only. */
  ghost predicate Extends(x: Query, b: Beam, c: Beam) {
    && |c.tokens| == |b.tokens| + 1 <= x.d.width && c.tokens[..|b.tokens|] == b.tokens
    && var t := c.tokens[|b.tokens|];
       && t < x.d.vocabulary && t != 0 && t != 1 && !SaysTwice(c.tokens, x.n)
       && LogProbIs(x.d, x.m, b.tokens, t, c.score - b.score)
       && (c.finished <==> t == 2)
  }

  lemma LogProbIsScored(x: Query, prefix: Tokens, t: nat, value: real)
    requires |prefix| < x.d.width && t < x.d.vocabulary
    ensures LogProbIs(x.d, x.m, prefix, t, value) <==> NextScores(x.d, x.m, prefix)[t] == Finite(value)
  {
    var scored := DecoderRow(prefix, x.d.width);
    if LogProbIs(x.d, x.m, prefix, t, value) {
      var asked :| Asks(asked, prefix, x.d.width) && x.d.logProb(x.m, asked, |prefix|, t) == Finite(value);
      AskedRowIsDetermined(asked, scored, prefix, x.d.width);
    }
  }

  /** The children of the reference search are exactly the extensions. */
  lemma ExtensionsAreChildren(x: Query, b: Beam, c: Beam)
    requires |b.tokens| < x.d.width
    ensures c in ChildrenOf(x, b) <==> Extends(x, b, c)
  {
    hide NextScores, LogProbIs, SaysTwice, RepeatsNGram;
    if c in ChildrenOf(x, b) {
      ChildrenFacts(x, b, c);
      var t := c.tokens[|b.tokens|];
      assert c.tokens == b.tokens + [t];
      RepeatsIsSaysTwice(c.tokens, x.n);
      LogProbIsScored(x, b.tokens, t, c.score - b.score);
    }
    if Extends(x, b, c) {
      var t := c.tokens[|b.tokens|];
      assert c.tokens == b.tokens + [t];
      RepeatsIsSaysTwice(c.tokens, x.n);
      LogProbIsScored(x, b.tokens, t, c.score - b.score);
      assert c == Child(x.d, x.m, b, t) && Viable(x.d, x.m, b, x.n, t);
    }
  }

  // ----- which beams stay -----

  /** Smaller at the first place where they differ; a proper prefix is smaller. */
  ghost predicate Smaller(a: Tokens, b: Tokens) {
    exists i: nat :: i <= |a| && i < |b| && a[..i] == b[..i] && (i == |a| || a[i] < b[i])
  }

  lemma FirstAgrees(a: Tokens, b: Tokens, i: nat)
    requires 0 < i <= |a| && i <= |b| && a[..i] == b[..i]
    ensures a[0] == b[0]
  {
    assert a[0] == a[..i][0] && b[0] == b[..i][0];
  }

  lemma {:induction false} LexIsSmaller(a: Tokens, b: Tokens)
    ensures LexLess(a, b) <==> Smaller(a, b)
    decreases |a|
  {
    if a != [] && b != [] && a[0] == b[0] {
      LexIsSmaller(a[1..], b[1..]);
      if Smaller(a[1..], b[1..]) {
        var i: nat :|
          i <= |a[1..]| && i < |b[1..]| && a[1..][..i] == b[1..][..i] && (i == |a[1..]| || a[1..][i] < b[1..][i]);
        assert a[..i + 1] == [a[0]] + a[1..][..i] && b[..i + 1] == [b[0]] + b[1..][..i];
      }
      if Smaller(a, b) {
        var i: nat :| i <= |a| && i < |b| && a[..i] == b[..i] && (i == |a| || a[i] < b[i]);
        assert i != 0;
        assert a[1..][..i - 1] == a[..i][1..] && b[1..][..i - 1] == b[..i][1..];
      }
    } else if a != [] && b != [] {
      if Smaller(a, b) {
        var i: nat :| i <= |a| && i < |b| && a[..i] == b[..i] && (i == |a| || a[i] < b[i]);
        if i > 0 {
          FirstAgrees(a, b, i);
        }
      } else {
        assert a[..0] == b[..0];
      }
    } else if a == [] && b != [] {
      assert a[..0] == b[..0];
    }
  }

  /** A higher score first; equal scores by their tokens. */
  ghost predicate Precedes(a: Beam, b: Beam) {
    a.score > b.score || (a.score == b.score && Smaller(a.tokens, b.tokens))
  }

  lemma BeforeIsPrecedes(a: Beam, b: Beam)
    ensures Before(a, b) <==> Precedes(a, b)
  {
    LexIsSmaller(a.tokens, b.tokens);
  }

  /** What competes in a round: finished beams, and extensions of live ones. */
  ghost predicate Competes(x: Query, beams: seq<Beam>, c: Beam) {
    (c in beams && c.finished) || exists b :: b in beams && !b.finished && Extends(x, b, c)
  }

  /** A live beam that nothing extends. */
  ghost predicate DeadEnd(x: Query, beams: seq<Beam>) {
    exists b :: b in beams && !b.finished && forall c :: !Extends(x, b, c)
  }

  /** `next` holds competitors in strict order, at most k, and every other competitor comes behind k of them. */
  ghost predicate NextRound(x: Query, beams: seq<Beam>, next: seq<Beam>) {
    && !DeadEnd(x, beams)
    && |next| <= x.k
    && (forall c :: c in next ==> Competes(x, beams, c))
    && (forall i, j :: 0 <= i < j < |next| ==> Precedes(next[i], next[j]))
    && forall c :: Competes(x, beams, c) && c !in next ==> |next| == x.k && forall b :: b in next ==> Precedes(b, c)
  }

  lemma NotTooLong(x: Query, beams: seq<Beam>, p: nat)
    requires InRound(x, beams, p)
    ensures forall b :: b in beams ==> |b.tokens| <= p
  {
    hide Ranked, ToldApart;
  }

  lemma CompetitorsAreThePool(x: Query, beams: seq<Beam>, p: nat)
    requires x.Valid() && InRound(x, beams, p) && p < x.d.width
    ensures forall c :: Competes(x, beams, c) <==> c in Pool(x, beams)
    ensures DeadEnd(x, beams) <==> exists b :: b in beams && !b.finished && Stuck(x, b)
  {
    hide InRound, Extends, ChildrenOf, Pool;
    NotTooLong(x, beams, p);
    PoolMembers(x, beams);
    forall b, c | b in beams && !b.finished
      ensures c in ChildrenOf(x, b) <==> Extends(x, b, c)
    {
      ExtensionsAreChildren(x, b, c);
    }
    forall b | b in beams && !b.finished
      ensures Stuck(x, b) <==> forall c :: !Extends(x, b, c)
    {
      StuckHasNoChild(x, b);
    }
  }

  lemma StuckHasNoChild(x: Query, b: Beam)
    requires |b.tokens| < x.d.width
    ensures Stuck(x, b) <==> forall c :: c !in ChildrenOf(x, b)
  {
    var children := ChildrenOf(x, b);
    if forall c :: c !in children {
      assert children == {};
    }
  }

  lemma RankedIsInOrder(beams: seq<Beam>)
    ensures Ranked(beams) <==> forall i, j :: 0 <= i < j < |beams| ==> Precedes(beams[i], beams[j])
  {
    hide Before, Precedes;
    forall a, b
      ensures Before(a, b) <==> Precedes(a, b)
    {
      BeforeIsPrecedes(a, b);
    }
  }

  /** A round of the reference search is exactly such a round. */
  lemma RoundIsExact(x: Query, beams: seq<Beam>, p: nat, next: seq<Beam>)
    requires x.Valid() && InRound(x, beams, p) && p < x.d.width
    ensures Round(x, beams, p) == Ok(next) <==> NextRound(x, beams, next)
    ensures Round(x, beams, p).Err? <==> DeadEnd(x, beams)
  {
    hide InRound, Stuck, Competes, DeadEnd, Precedes, Before, Pool, Top, Ranked;
    CompetitorsAreThePool(x, beams, p);
    PoolToldApart(x, beams, p);
    NotTooLong(x, beams, p);
    if Round(x, beams, p) == Ok(next) {
      RoundIsNext(x, beams, next);
    }
    if NextRound(x, beams, next) {
      NextIsTheTop(x, beams, next);
    }
  }

  lemma RoundIsNext(x: Query, beams: seq<Beam>, next: seq<Beam>)
    requires (forall b :: b in beams ==> |b.tokens| < x.d.width) && ToldApart(Pool(x, beams))
    requires !DeadEnd(x, beams) && forall c :: Competes(x, beams, c) <==> c in Pool(x, beams)
    requires next == Top(Pool(x, beams), x.k)
    ensures NextRound(x, beams, next)
  {
    hide Competes, DeadEnd, Precedes, Before, Pool, Top, Ranked;
    TopFacts(Pool(x, beams), x.k);
    RankedIsInOrder(next);
    forall c | Competes(x, beams, c) && c !in next
      ensures |next| == x.k && forall b :: b in next ==> Precedes(b, c)
    {
      TopLeavesTheWorst(Pool(x, beams), x.k, c);
      forall b | b in next
        ensures Precedes(b, c)
      {
        BeforeIsPrecedes(b, c);
      }
    }
  }

  lemma NextIsTheTop(x: Query, beams: seq<Beam>, next: seq<Beam>)
    requires (forall b :: b in beams ==> |b.tokens| < x.d.width) && ToldApart(Pool(x, beams))
    requires (forall c :: Competes(x, beams, c) <==> c in Pool(x, beams)) && NextRound(x, beams, next)
    ensures next == Top(Pool(x, beams), x.k)
  {
    hide Competes, DeadEnd, Precedes, Before, Pool, Top, Ranked, Outdone;
    RankedIsInOrder(next);
    RankedIsDistinct(next);
    forall c | c in Pool(x, beams) - Elements(next)
      ensures Outdone(c, Elements(next), x.k)
    {
      forall b | b in next
        ensures Before(b, c)
      {
        BeforeIsPrecedes(b, c);
      }
      OutdoneByAll(c, Elements(next), x.k);
    }
    TopIgnoresOutdone(Pool(x, beams), Elements(next), x.k);
    RankedPrefixIsTop(next, x.k);
    assert next[..|next|] == next;
  }

  lemma OutdoneByAll(c: Beam, kept: set<Beam>, k: nat)
    requires |kept| >= k && forall b :: b in kept ==> Before(b, c)
    ensures Outdone(c, kept, k)
  {
    hide Before;
    assert AllBefore(kept, c);
  }

  // ----- whole searches -----

  /** A search from the empty beam, round after round. */
  ghost predicate Search(x: Query, history: seq<seq<Beam>>) {
    && history != [] && history[0] == [Beam(0.0, [], false)]
    && forall p :: 0 <= p < |history| - 1 ==> NextRound(x, history[p], history[p + 1])
  }

  /** The tokens of the first beam, and padding behind them. */
  predicate LeaderIsReturned(beams: seq<Beam>, output: Tokens) {
    && beams != [] && |beams[0].tokens| <= |output| && output[..|beams[0].tokens|] == beams[0].tokens
    && forall i :: |beams[0].tokens| <= i < |output| ==> output[i] == 0
  }

  /** A search of `count` rounds returns this output. */
  ghost predicate Returns(x: Query, count: nat, output: Tokens) {
    exists history: seq<seq<Beam>> ::
      Search(x, history) && |history| == count + 1 && |output| == count && LeaderIsReturned(history[count], output)
  }

  /** A search comes to a dead end before `count` rounds are over. */
  ghost predicate Fails(x: Query, count: nat) {
    exists history: seq<seq<Beam>> :: Search(x, history) && |history| <= count && DeadEnd(x, history[|history| - 1])
  }

  /** A search stands where the rounds of the reference search stand. */
  lemma {:induction false} SearchIsRounds(x: Query, history: seq<seq<Beam>>, p: nat, count: nat)
    requires x.Valid() && Search(x, history) && p < |history| && p <= count <= x.d.width
    ensures InRound(x, history[p], p) && InRound(x, START, 0)
    ensures Rounds(x, history[p], p, count) == Rounds(x, START, 0, count)
  {
    hide InRound, NextRound, Round, Rounds;
    StartIsInRound(x);
    if p != 0 {
      SearchIsRounds(x, history, p - 1, count);
      assert NextRound(x, history[p - 1], history[p - 1 + 1]);
      RoundIsExact(x, history[p - 1], p - 1, history[p]);
      RoundsNext(x, history[p - 1], p - 1, count);
    }
  }

  /** A search can be continued to the end, or to a dead end. */
  lemma {:induction false} SearchGoesOn(x: Query, history: seq<seq<Beam>>, count: nat)
    requires x.Valid() && Search(x, history) && |history| <= count + 1 && count <= x.d.width
    ensures Fails(x, count) || exists longer :: Search(x, longer) && |longer| == count + 1
    decreases count - |history|
  {
    hide InRound, NextRound, Round, Rounds, DeadEnd;
    var p := |history| - 1;
    SearchIsRounds(x, history, p, count);
    if p < count {
      if DeadEnd(x, history[p]) {
        assert Search(x, history);
      } else {
        RoundIsExact(x, history[p], p, []);
        var next := Round(x, history[p], p).value;
        RoundIsExact(x, history[p], p, next);
        SearchGoesOn(x, history + [next], count);
      }
    }
  }

  lemma DeadEndIsRefused(x: Query, history: seq<seq<Beam>>, count: nat)
    requires x.Valid() && Search(x, history) && |history| <= count <= x.d.width && DeadEnd(x, history[|history| - 1])
    ensures InRound(x, START, 0) && Rounds(x, START, 0, count).Err?
  {
    hide InRound, NextRound, Round, Rounds, DeadEnd;
    var p := |history| - 1;
    SearchIsRounds(x, history, p, count);
    RoundIsExact(x, history[p], p, []);
    RoundsNext(x, history[p], p, count);
  }

  lemma FullSearchIsTheRounds(x: Query, history: seq<seq<Beam>>, count: nat)
    requires x.Valid() && Search(x, history) && |history| == count + 1 && count <= x.d.width
    ensures InRound(x, START, 0) && Rounds(x, START, 0, count) == Ok(history[count])
    ensures history[count] != [] && |history[count][0].tokens| <= count
  {
    hide NextRound, Round, Rounds, Ranked, ToldApart;
    SearchIsRounds(x, history, count, count);
    RoundsNext(x, history[count], count, count);
    assert history[count][0] in history[count];
  }

  lemma PaddedIsReturned(beams: seq<Beam>, output: Tokens, count: nat)
    requires beams != [] && |beams[0].tokens| <= count
    ensures output == Padded(beams[0].tokens, count) <==> |output| == count && LeaderIsReturned(beams, output)
  {
    var tokens := beams[0].tokens;
    if |output| == count && LeaderIsReturned(beams, output) {
      assert output == output[..|tokens|] + output[|tokens|..];
      assert Padded(tokens, count)[..|tokens|] == tokens;
    }
  }

  /**
    The reference search of a sample returns an output exactly when a search written out as above
    returns it, and is refused exactly when one comes to a dead end.
  */
  lemma HypothesisIsTheSearch(x: Query, count: nat)
    requires x.Valid() && count <= x.d.width
    ensures forall output :: Hypothesis(x, count) == Ok(output) <==> Returns(x, count, output)
    ensures Hypothesis(x, count).Err? <==> Fails(x, count)
  {
    hide InRound, NextRound, Rounds, DeadEnd, LeaderIsReturned, Search;
    StartIsInRound(x);
    SearchBegins(x);
    SearchGoesOn(x, [START], count);
    forall history: seq<seq<Beam>> | Search(x, history) && |history| == count + 1
      ensures Rounds(x, START, 0, count) == Ok(history[count])
      ensures history[count] != [] && |history[count][0].tokens| <= count
    {
      FullSearchIsTheRounds(x, history, count);
    }
    if Fails(x, count) {
      FailureIsRefused(x, count);
      assert Hypothesis(x, count).Err?;
    } else {
      var longer :| Search(x, longer) && |longer| == count + 1;
      assert Rounds(x, START, 0, count) == Ok(longer[count]);
    }
    forall output
      ensures Hypothesis(x, count) == Ok(output) <==> Returns(x, count, output)
    {
      OutputsAreReturned(x, count, output);
    }
  }

  lemma FailureIsRefused(x: Query, count: nat)
    requires x.Valid() && count <= x.d.width && Fails(x, count)
    ensures InRound(x, START, 0) && Rounds(x, START, 0, count).Err?
  {
    hide InRound, NextRound, Rounds, DeadEnd;
    var history: seq<seq<Beam>> :| Search(x, history) && |history| <= count && DeadEnd(x, history[|history| - 1]);
    DeadEndIsRefused(x, history, count);
  }

  lemma SearchBegins(x: Query)
    ensures Search(x, [START])
  {
  }

  lemma OutputsAreReturned(x: Query, count: nat, output: Tokens)
    requires x.Valid() && count <= x.d.width && InRound(x, START, 0)
    requires forall history: seq<seq<Beam>> :: Search(x, history) && |history| == count + 1 ==>
               && Rounds(x, START, 0, count) == Ok(history[count])
               && history[count] != [] && |history[count][0].tokens| <= count
    requires Hypothesis(x, count).Err? || exists longer :: Search(x, longer) && |longer| == count + 1
    ensures Hypothesis(x, count) == Ok(output) <==> Returns(x, count, output)
  {
    hide InRound, Rounds, LeaderIsReturned, Search, Padded;
    if Hypothesis(x, count) == Ok(output) {
      var longer :| Search(x, longer) && |longer| == count + 1;
      PaddedIsReturned(longer[count], output, count);
    }
    if Returns(x, count, output) {
      var history :|
        Search(x, history) && |history| == count + 1 && |output| == count && LeaderIsReturned(history[count], output);
      PaddedIsReturned(history[count], output, count);
    }
  }
}
