/**
  `PortableS1.greedy_decode`: the unconstrained arg-max of every position, sample by sample in one
  batch, and how it compares with a beam search of width one.
*/
module GreedyDecode {
  import opened Outcomes
  import opened BeamModel
  import opened BeamSelection
  import opened BeamReference
  import opened BeamTruncation
  import opened BeamProperties

  /** The first token of greatest value. */
  function ArgMax(row: seq<LogProb>): (t: nat)
    requires row != []
    ensures t < |row|
  {
    ArgsortFacts(row);
    assert Argsort(row)[0] in Argsort(row);
    Argsort(row)[0]
  }

  lemma ArgMaxIsBest(row: seq<LogProb>, t: nat)
    requires t < |row| && t != ArgMax(row)
    ensures TokenBefore(row, ArgMax(row), t)
  {
    ArgsortFacts(row);
    assert t in Argsort(row);
    var i :| 0 <= i < |Argsort(row)| && Argsort(row)[i] == t;
  }

  predicate Ended(tokens: Tokens) {
    tokens != [] && tokens[|tokens| - 1] == EOS
  }

  /** The greedy continuation of one sample's prefix: arg-max after arg-max, up to EOS or the limit. */
  function Greedy(d: Decoder, m: Memory, tokens: Tokens, count: nat): (r: Tokens)
    requires d.Valid() && |tokens| <= count <= d.width
    ensures tokens <= r && |r| <= count
    ensures |r| < count ==> Ended(r)
    decreases count - |tokens|
  {
    if |tokens| == count || Ended(tokens) then tokens
    else Greedy(d, m, tokens + [ArgMax(NextScores(d, m, tokens))], count)
  }

  // ----- the output, written out -----

  /** Numbers by size with the infinities at the ends, and not-a-number above all of them. */
  predicate AtMost(a: LogProb, b: LogProb) {
    || b.NotANumber? || a.NegativeInfinity? || (b.PositiveInfinity? && !a.NotANumber?)
    || (a.Finite? && b.Finite? && a.value <= b.value)
  }

  /** The value of `t` is highest, and no smaller token has the same. */
  predicate IsArgMax(scores: seq<LogProb>, t: nat) {
    && t < |scores|
    && (forall u :: 0 <= u < |scores| ==> AtMost(scores[u], scores[t]))
    && forall u :: 0 <= u < t ==> !AtMost(scores[t], scores[u])
  }

  lemma ArgMaxIsFirst(scores: seq<LogProb>)
    requires scores != []
    ensures IsArgMax(scores, ArgMax(scores))
  {
    hide ArgMax;
    var t := ArgMax(scores);
    forall u | 0 <= u < |scores|
      ensures AtMost(scores[u], scores[t]) && (u < t ==> !AtMost(scores[t], scores[u]))
    {
      if u != t {
        ArgMaxIsBest(scores, u);
      }
    }
  }

  /** The network, asked for the token after `prefix`, ranks `t` first. */
  ghost predicate Follows(d: Decoder, m: Memory, prefix: Tokens, t: nat) {
    exists scores :: ScoresAfter(d, m, prefix, scores) && IsArgMax(scores, t)
  }

  /** `n` tokens, each ranked first after those before it and none but the last EOS, 2, then padding, 0. */
  ghost predicate GreedyUpTo(d: Decoder, m: Memory, output: Tokens, n: nat)
    requires n <= |output|
  {
    && (forall i :: 0 <= i < n ==> Follows(d, m, output[..i], output[i]))
    && (forall i :: 0 <= i < n - 1 ==> output[i] != 2)
    && (n < |output| ==> n > 0 && output[n - 1] == 2)
    && forall i :: n <= i < |output| ==> output[i] == 0
  }

  ghost predicate GreedyOutput(d: Decoder, m: Memory, output: Tokens) {
    exists n: nat :: n <= |output| && GreedyUpTo(d, m, output, n)
  }

  lemma ChoiceFollows(d: Decoder, m: Memory, prefix: Tokens)
    requires d.Valid() && |prefix| < d.width
    ensures Follows(d, m, prefix, ArgMax(NextScores(d, m, prefix)))
  {
    hide ArgMax;
    ArgMaxIsFirst(NextScores(d, m, prefix));
  }

  /** The tokens of a greedy path, from a prefix on. */
  lemma GreedyStep(d: Decoder, m: Memory, tokens: Tokens, count: nat)
    requires d.Valid() && |tokens| <= count <= d.width
    ensures |tokens| == count || Ended(tokens) ==> Greedy(d, m, tokens, count) == tokens
    ensures |tokens| != count && !Ended(tokens) ==>
              exists t: nat ::
                Follows(d, m, tokens, t) && Greedy(d, m, tokens, count) == Greedy(d, m, tokens + [t], count)
  {
    hide ArgMax, Follows, Decoder.Valid;
    if |tokens| != count && !Ended(tokens) {
      ChoiceFollows(d, m, tokens);
    }
  }

  lemma {:induction false} GreedyPathFollows(d: Decoder, m: Memory, tokens: Tokens, count: nat)
    requires d.Valid() && |tokens| <= count <= d.width && forall i :: 0 <= i < |tokens| - 1 ==> tokens[i] != EOS
    ensures
      var r := Greedy(d, m, tokens, count);
      && tokens <= r && (forall i :: |tokens| <= i < |r| ==> Follows(d, m, r[..i], r[i]))
      && forall i :: 0 <= i < |r| - 1 ==> r[i] != EOS
    decreases count - |tokens|
  {
    hide Greedy, Follows, Decoder.Valid;
    var r := Greedy(d, m, tokens, count);
    GreedyStep(d, m, tokens, count);
    if |tokens| != count && !Ended(tokens) {
      var t: nat :| Follows(d, m, tokens, t) && r == Greedy(d, m, tokens + [t], count);
      GreedyPathFollows(d, m, tokens + [t], count);
      assert r[..|tokens|] == tokens && r[|tokens|] == t;
    }
  }

  lemma PaddedPathIsGreedy(d: Decoder, m: Memory, count: nat)
    requires d.Valid() && count <= d.width
    ensures GreedyOutput(d, m, Padded(Greedy(d, m, [], count), count))
  {
    hide Greedy, Follows;
    GreedyPathFollows(d, m, [], count);
    var path := Greedy(d, m, [], count);
    var output := Padded(path, count);
    assert forall i :: 0 <= i <= |path| ==> output[..i] == path[..i];
    assert GreedyUpTo(d, m, output, |path|);
  }

  // ----- the program -----

  /** A row at position `p`: a greedy prefix, then PAD; the decoder input of a live row holds the same prefix. */
  ghost predicate Holding(d: Decoder, m: Memory, tokens: Tokens, row: Tokens, input: Tokens, ended: bool, p: nat,
      count: nat)
    requires d.Valid() && p <= count <= d.width
  {
    && |tokens| <= p && row == Padded(tokens, count)
    && Greedy(d, m, tokens, count) == Greedy(d, m, [], count)
    && (ended <==> Ended(tokens))
    && (!ended ==> |tokens| == p && (p < d.width ==> Asks(input, tokens, d.width)))
  }

  ghost predicate AtPosition(d: Decoder, m: Memory, row: Tokens, input: Tokens, ended: bool, p: nat, count: nat)
    requires d.Valid() && p <= count <= d.width
  {
    exists tokens: Tokens :: Holding(d, m, tokens, row, input, ended, p, count)
  }

  lemma PaddedNext(tokens: Tokens, t: nat, count: nat)
    requires |tokens| < count
    ensures Padded(tokens, count)[|tokens| := t] == Padded(tokens + [t], count)
    ensures Padded(tokens, count)[|tokens| := PAD] == Padded(tokens, count)
  {
  }

  lemma PaddedEndStays(tokens: Tokens, p: nat, count: nat)
    requires |tokens| <= p < count
    ensures Padded(tokens, count)[p := PAD] == Padded(tokens, count)
  {
  }

  lemma AskedNext(row: Tokens, tokens: Tokens, t: nat, width: nat)
    requires |tokens| + 1 < width && Asks(row, tokens, width)
    ensures Asks(row[|tokens| + 1 := t], tokens + [t], width)
  {
  }

  lemma GreedyNext(d: Decoder, m: Memory, tokens: Tokens, count: nat)
    requires d.Valid() && |tokens| < count <= d.width && !Ended(tokens)
    ensures Greedy(d, m, tokens, count) == Greedy(d, m, tokens + [ArgMax(NextScores(d, m, tokens))], count)
  {
  }

  /** One position of one sample: the chosen token, or PAD once the sample has ended. */
  method GreedyRow(d: Decoder, m: Memory, row: Tokens, input: Tokens, ended: bool, p: nat, count: nat)
    returns (row': Tokens, input': Tokens, ended': bool)
    requires d.Valid() && p < count <= d.width && |input| == d.width && |row| == count
    requires AtPosition(d, m, row, input, ended, p, count)
    ensures AtPosition(d, m, row', input', ended', p + 1, count) && |input'| == d.width && |row'| == count
  {
    hide Greedy, ArgMax, Padded, DecoderRow;
    ghost var tokens: Tokens :| Holding(d, m, tokens, row, input, ended, p, count);
    var choice := ArgMax(d.Column(m, input, p));
    var next := if ended then PAD else choice;
    row' := row[p := next];
    ended' := ended || next == EOS;
    input' := if p + 1 < d.width then input[p + 1 := next] else input;
    if ended {
      PaddedEndStays(tokens, p, count);
      assert Holding(d, m, tokens, row', input', ended', p + 1, count);
    } else {
      PaddedNext(tokens, next, count);
      GreedyNext(d, m, tokens, count);
      AskedRowIsDetermined(input, DecoderRow(tokens, d.width), tokens, d.width);
      if p + 1 < d.width { AskedNext(input, tokens, next, d.width); }
      assert Holding(d, m, tokens + [next], row', input', ended', p + 1, count);
    }
  }

  /** Greedy decoding of a batch gives every sample its own greedy sequence, padded. */
  method GreedyDecode(d: Decoder, memory: seq<Memory>, maxNewTokens: Option<int>)
      returns (r: Result<seq<Tokens>, DecodeError>)
    requires d.Valid()
    ensures
      var count := match maxNewTokens case None => d.width as int case Some(c) => c;
      if 1 <= count <= d.width then
        && r.Ok? && |r.value| == |memory|
        && forall s :: 0 <= s < |memory| ==>
             && r.value[s] == Padded(Greedy(d, memory[s], [], count), count)
             && |r.value[s]| == count && GreedyOutput(d, memory[s], r.value[s])
      else r == Err(BadTokenCount)
  {
    hide AtPosition, Greedy, Padded, DecoderRow, GreedyOutput;
    var limit := match maxNewTokens case None => d.width as int case Some(c) => c;
    if !(1 <= limit <= d.width) {
      return Err(BadTokenCount);
    }
    var count: nat := limit;
    var inputs := seq(|memory|, _ => DecoderRow([], d.width));
    var generated := seq(|memory|, _ => Padded([], count));
    var ended := seq(|memory|, _ => false);
    forall s | 0 <= s < |memory|
      ensures AtPosition(d, memory[s], generated[s], inputs[s], ended[s], 0, count)
    {
      AtStart(d, memory[s], count);
    }
    var position := 0;
    while position < count
      invariant 0 <= position <= count
      invariant |inputs| == |generated| == |ended| == |memory|
      invariant forall s :: 0 <= s < |memory| ==>
                  && |inputs[s]| == d.width && |generated[s]| == count
                  && AtPosition(d, memory[s], generated[s], inputs[s], ended[s], position, count)
    {
      var s := 0;
      while s < |memory|
        invariant 0 <= s <= |memory|
        invariant |inputs| == |generated| == |ended| == |memory|
        invariant forall i :: 0 <= i < |memory| ==>
                    && |inputs[i]| == d.width && |generated[i]| == count
                    && (i < s ==> AtPosition(d, memory[i], generated[i], inputs[i], ended[i], position + 1, count))
                    && (i >= s ==> AtPosition(d, memory[i], generated[i], inputs[i], ended[i], position, count))
      {
        var row, input, stop := GreedyRow(d, memory[s], generated[s], inputs[s], ended[s], position, count);
        generated, inputs, ended := generated[s := row], inputs[s := input], ended[s := stop];
        s := s + 1;
      }
      position := position + 1;
      if forall i :: 0 <= i < |ended| ==> ended[i] {
        break;
      }
    }
    forall s | 0 <= s < |memory|
      ensures generated[s] == Padded(Greedy(d, memory[s], [], count), count)
      ensures GreedyOutput(d, memory[s], generated[s])
    {
      FinalRow(d, memory[s], generated[s], inputs[s], ended[s], position, count);
      PaddedPathIsGreedy(d, memory[s], count);
    }
    r := Ok(generated);
  }

  lemma AtStart(d: Decoder, m: Memory, count: nat)
    requires d.Valid() && count <= d.width
    ensures AtPosition(d, m, Padded([], count), DecoderRow([], d.width), false, 0, count)
  {
    assert Holding(d, m, [], Padded([], count), DecoderRow([], d.width), false, 0, count);
  }

  lemma FinalRow(d: Decoder, m: Memory, row: Tokens, input: Tokens, ended: bool, p: nat, count: nat)
    requires d.Valid() && p <= count <= d.width
    requires AtPosition(d, m, row, input, ended, p, count)
    requires p == count || ended
    ensures row == Padded(Greedy(d, m, [], count), count)
  {
  }

  // ----- greedy and beam width one -----

  /** No arg-max on the greedy path is banned or not a finite number. */
  ghost predicate Unconstrained(x: Query, tokens: Tokens, count: nat)
    requires x.Valid() && |tokens| <= count <= x.d.width
    decreases count - |tokens|
  {
    if |tokens| == count || Ended(tokens) then true
    else
      var t := ArgMax(NextScores(x.d, x.m, tokens));
      Viable(x.d, x.m, Beam(0.0, tokens, false), x.n, t) && Unconstrained(x, tokens + [t], count)
  }

  /** With width one, a round replaces the single live beam by its best child. */
  lemma SingleRound(x: Query, b: Beam, p: nat)
    requires x.Valid() && x.k == 1 && p < x.d.width
    requires InRound(x, [b], p) && !b.finished
    ensures Round(x, [b], p).Ok? ==>
              exists c :: Round(x, [b], p) == Ok([c]) && Best(c, ChildrenOf(x, b))
    ensures Round(x, [b], p).Err? <==> Stuck(x, b)
  {
    assert b in [b];
    if !Stuck(x, b) {
      PoolToldApart(x, [b], p);
      PoolMembers(x, [b]);
      var pool := Pool(x, [b]);
      assert pool == ChildrenOf(x, b) by {
        hide Pool, ChildrenOf;
      }
      TopFacts(pool, 1);
      var c := Top(pool, 1)[0];
      assert Top(pool, 1) == [c];
    }
  }

  lemma ArgMaxChildIsBest(x: Query, b: Beam, c: Beam)
    requires x.Valid() && |b.tokens| < x.d.width && Best(c, ChildrenOf(x, b))
    requires Viable(x.d, x.m, b, x.n, ArgMax(NextScores(x.d, x.m, b.tokens)))
    ensures c.tokens == b.tokens + [ArgMax(NextScores(x.d, x.m, b.tokens))]
  {
    var row := NextScores(x.d, x.m, b.tokens);
    var t := ArgMax(row);
    var best := Child(x.d, x.m, b, t);
    assert best in ChildrenOf(x, b);
    ChildrenFacts(x, b, c);
    var u := c.tokens[|b.tokens|];
    assert c.tokens == b.tokens + [u];
    if u != t {
      ArgMaxIsBest(row, u);
      SiblingsCompeteInTokenOrder(x, b, t, u);
      BeforeTransitive(c, best, c);
      BeforeIrreflexive(c);
    }
  }

  lemma UnconstrainedNext(x: Query, tokens: Tokens, count: nat)
    requires x.Valid() && |tokens| < count <= x.d.width && !Ended(tokens)
    ensures
      var t := ArgMax(NextScores(x.d, x.m, tokens));
      Unconstrained(x, tokens, count) <==>
      Viable(x.d, x.m, Beam(0.0, tokens, false), x.n, t) && Unconstrained(x, tokens + [t], count)
  {
  }

  lemma OnlyBeam(x: Query, c: Beam, p: nat)
    requires InRound(x, [c], p)
    ensures GoodBeam(c, p, x.n) && (c.finished <==> Ended(c.tokens))
  {
    assert c in [c];
  }

  /** With width one the leader's tokens are never taken back. */
  lemma {:induction false} WidthOneOnlyAppends(x: Query, b: Beam, p: nat, count: nat)
    requires x.Valid() && x.k == 1 && InRound(x, [b], p) && p <= count <= x.d.width
    requires Rounds(x, [b], p, count).Ok?
    ensures b.tokens <= Rounds(x, [b], p, count).value[0].tokens
    decreases count - p
  {
    hide *;
    OnlyBeam(x, b, p);
    RoundsNext(x, [b], p, count);
    if p < count {
      if b.finished {
        FinishedSampleStays(x, [b], p, count);
      } else {
        SingleRound(x, b, p);
        var c :| Round(x, [b], p) == Ok([c]) && Best(c, ChildrenOf(x, b));
        BestIsMember(c, ChildrenOf(x, b));
        ChildrenFacts(x, b, c);
        WidthOneOnlyAppends(x, c, p + 1, count);
      }
    }
  }

  lemma BestIsMember(c: Beam, s: set<Beam>)
    requires Best(c, s)
    ensures c in s
  {
  }

  /** What a search of width one has found after `count` rounds agrees with the greedy sequence. */
  ghost predicate AgreesWithGreedy(x: Query, b: Beam, p: nat, count: nat)
    requires x.Valid() && InRound(x, [b], p) && p <= count <= x.d.width && |b.tokens| <= count
  {
    && Rounds(x, [b], p, count).Ok?
    && Rounds(x, [b], p, count).value[0].tokens == Greedy(x.d, x.m, b.tokens, count)
  }

  lemma StuckDisagrees(x: Query, b: Beam, p: nat, count: nat)
    requires x.Valid() && x.k == 1 && InRound(x, [b], p) && p < count <= x.d.width
    requires !b.finished && |b.tokens| == p && !Ended(b.tokens) && Stuck(x, b)
    ensures !AgreesWithGreedy(x, b, p, count) && !Unconstrained(x, b.tokens, count)
  {
    SingleRound(x, b, p);
    RoundsNext(x, [b], p, count);
    hide Rounds, Round, InRound, Greedy, Allowed;
    UnconstrainedNext(x, b.tokens, count);
    var t := ArgMax(NextScores(x.d, x.m, b.tokens));
    if Viable(x.d, x.m, b, x.n, t) {
      assert Child(x.d, x.m, b, t) in ChildrenOf(x, b);
    }
  }

  /** A banned arg-max is where the two searches part, for good. */
  lemma BannedPickDisagrees(x: Query, b: Beam, c: Beam, p: nat, count: nat)
    requires x.Valid() && x.k == 1 && InRound(x, [b], p) && InRound(x, [c], p + 1) && p < count <= x.d.width
    requires !b.finished && |b.tokens| == p && !Ended(b.tokens)
    requires Round(x, [b], p) == Ok([c]) && c in ChildrenOf(x, b)
    requires !Viable(x.d, x.m, b, x.n, ArgMax(NextScores(x.d, x.m, b.tokens)))
    ensures !AgreesWithGreedy(x, b, p, count)
  {
    ChildrenFacts(x, b, c);
    hide Rounds, Round, InRound, Viable, ChildrenOf;
    RoundsNext(x, [b], p, count);
    GreedyNext(x.d, x.m, b.tokens, count);
    var t := ArgMax(NextScores(x.d, x.m, b.tokens));
    var greedy := Greedy(x.d, x.m, b.tokens + [t], count);
    assert (b.tokens + [t])[p] == t && greedy[p] == t;
    if Rounds(x, [c], p + 1, count).Ok? {
      WidthOneOnlyAppends(x, c, p + 1, count);
    }
  }

  lemma {:induction false} WidthOneFollowsGreedy(x: Query, b: Beam, p: nat, count: nat)
    requires x.Valid() && x.k == 1 && InRound(x, [b], p) && p <= count <= x.d.width && |b.tokens| <= p
    ensures AgreesWithGreedy(x, b, p, count) <==> Unconstrained(x, b.tokens, count)
    decreases count - p
  {
    hide InRound, Rounds, Round, GoodBeam, ChildrenOf, Stuck, Best, Viable, ArgMax;
    OnlyBeam(x, b, p);
    RoundsNext(x, [b], p, count);
    if p == count {
    } else if b.finished {
      FinishedSampleStays(x, [b], p, count);
    } else {
      SingleRound(x, b, p);
      if Stuck(x, b) {
        StuckDisagrees(x, b, p, count);
      } else {
        var c :| Round(x, [b], p) == Ok([c]) && Best(c, ChildrenOf(x, b));
        BestIsMember(c, ChildrenOf(x, b));
        ChildrenFacts(x, b, c);
        WidthOneFollowsGreedy(x, c, p + 1, count);
        UnconstrainedNext(x, b.tokens, count);
        ViableDependsOnTokens(x, b);
        if Viable(x.d, x.m, b, x.n, ArgMax(NextScores(x.d, x.m, b.tokens))) {
          ArgMaxChildIsBest(x, b, c);
          GreedyNext(x.d, x.m, b.tokens, count);
        } else {
          BannedPickDisagrees(x, b, c, p, count);
        }
      }
    }
  }

  lemma ViableDependsOnTokens(x: Query, b: Beam)
    requires |b.tokens| < x.d.width
    ensures forall t :: Viable(x.d, x.m, b, x.n, t) <==> Viable(x.d, x.m, Beam(0.0, b.tokens, false), x.n, t)
  {
  }

  predicate EndsOnce(tokens: Tokens) {
    forall i :: 0 <= i < |tokens| - 1 ==> tokens[i] != EOS
  }

  lemma {:induction false} GreedyEndsOnce(d: Decoder, m: Memory, tokens: Tokens, count: nat)
    requires d.Valid() && |tokens| <= count <= d.width && EndsOnce(tokens)
    ensures EndsOnce(Greedy(d, m, tokens, count))
    decreases count - |tokens|
  {
    if |tokens| < count && !Ended(tokens) {
      GreedyEndsOnce(d, m, tokens + [ArgMax(NextScores(d, m, tokens))], count);
    }
  }

  /** Two sequences that run to the limit or to their only EOS are told apart by their padded form. */
  lemma PaddedDetermines(a: Tokens, b: Tokens, count: nat)
    requires |a| <= count && |b| <= count && EndsOnce(a) && EndsOnce(b)
    requires |a| < count ==> Ended(a)
    requires |b| < count ==> Ended(b)
    requires Padded(a, count) == Padded(b, count)
    ensures a == b
  {
    assert forall i :: 0 <= i < |a| ==> Padded(a, count)[i] == a[i];
    assert forall i :: 0 <= i < |b| ==> Padded(b, count)[i] == b[i];
    assert |a| == |b|;
  }

  /**
    A beam search of width one returns the greedy output exactly when greedy decoding never picks
    PAD, BOS, a token that repeats an n-gram, or a value that is not a finite number.
  */
  lemma WidthOneIsGreedyExactlyWhenUnconstrained(x: Query, count: nat)
    requires x.Valid() && x.k == 1 && count <= x.d.width
    ensures Hypothesis(x, count) == Ok(Padded(Greedy(x.d, x.m, [], count), count)) <==> Unconstrained(x, [], count)
  {
    StartIsInRound(x);
    var b := Beam(0.0, [], false);
    WidthOneFollowsGreedy(x, b, 0, count);
    GreedyEndsOnce(x.d, x.m, [], count);
    if Hypothesis(x, count) == Ok(Padded(Greedy(x.d, x.m, [], count), count)) {
      var final := Rounds(x, START, 0, count).value;
      LeaderEndsOnce(x, final, count);
      PaddedDetermines(final[0].tokens, Greedy(x.d, x.m, [], count), count);
    }
  }

  lemma LeaderEndsOnce(x: Query, beams: seq<Beam>, p: nat)
    requires InRound(x, beams, p)
    ensures EndsOnce(beams[0].tokens) && |beams[0].tokens| <= p && (|beams[0].tokens| < p ==> Ended(beams[0].tokens))
  {
    assert beams[0] in beams;
  }
}
