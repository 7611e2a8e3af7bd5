/**
  The decoding problem of `PortableS1.beam_decode`: what a beam is, in which order beams compete,
  what the network is asked, and which beams follow a beam when nothing is truncated.

  The neural network is an arbitrary row-wise function: one memory row and one padded decoder row
  give, for every column, one log-probability per token. Scores are exact reals.
*/
module BeamModel {

  const PAD: nat := 0
  const BOS: nat := 1
  const EOS: nat := 2

  type Tokens = seq<nat>

  /** A value of `log_softmax`, with the values that are not finite numbers kept apart. */
  datatype LogProb = NotANumber | PositiveInfinity | Finite(value: real) | NegativeInfinity

  /** Descending order of values; not-a-number sorts above every number. */
  predicate Higher(a: LogProb, b: LogProb) {
    match a
    case NotANumber => !b.NotANumber?
    case PositiveInfinity => b.Finite? || b.NegativeInfinity?
    case Finite(x) => b.NegativeInfinity? || (b.Finite? && x > b.value)
    case NegativeInfinity => false
  }

  /** A stable descending sort by value keeps equal values in ascending token order. */
  predicate TokenBefore(row: seq<LogProb>, i: nat, j: nat) {
    if i < |row| && j < |row| then Higher(row[i], row[j]) || (!Higher(row[j], row[i]) && i < j) else i < j
  }

  datatype Beam = Beam(score: real, tokens: Tokens, finished: bool)

  /** Lexicographic order of token tuples: a proper prefix is smaller. */
  predicate LexLess(a: Tokens, b: Tokens) {
    if b == [] then false
    else if a == [] then true
    else a[0] < b[0] || (a[0] == b[0] && LexLess(a[1..], b[1..]))
  }

  /** The competition order: higher score first, then smaller token tuple. */
  predicate Before(a: Beam, b: Beam) {
    a.score > b.score || (a.score == b.score && LexLess(a.tokens, b.tokens))
  }

  /** The encoder output and frame mask of one sample. */
  type Memory = seq<real>

  /**
    The decoder half of the network: the log-probability of a token at a column of a decoder row,
    given the memory row, with the sizes of the configuration.
  */
  datatype Decoder = Decoder(logProb: (Memory, Tokens, nat, nat) -> LogProb, width: nat, vocabulary: nat)
  {
    ghost predicate Valid() {
      2 <= width && 4 <= vocabulary
    }

    /** One column of the network's answer for one row. */
    function Column(m: Memory, row: Tokens, column: nat): (r: seq<LogProb>)
      ensures |r| == vocabulary
    {
      seq(vocabulary, t requires 0 <= t => logProb(m, row, column, t))
    }
  }

  /**
    The row by which the network is asked for the token after a prefix: BOS, 1, in the first column, the
    prefix in the columns behind it, and padding, 0, in all others. The column of the answer is |prefix|.
  */
  predicate Asks(row: Tokens, prefix: Tokens, width: nat) {
    && |prefix| < width == |row| && row[0] == 1
    && (forall i :: 0 <= i < |prefix| ==> row[i + 1] == prefix[i])
    && forall i :: |prefix| < i < width ==> row[i] == 0
  }

  /** There is one such row, and its column |prefix| is the last one that does not hold padding. */
  lemma AskedRowIsDetermined(a: Tokens, b: Tokens, prefix: Tokens, width: nat)
    requires Asks(a, prefix, width) && Asks(b, prefix, width)
    ensures a == b
    ensures PAD !in prefix ==> a[|prefix|] != PAD && forall i :: |prefix| < i < width ==> a[i] == PAD
  {
    forall i | 0 <= i < width
      ensures a[i] == b[i] && (PAD !in prefix && i <= |prefix| ==> a[i] != PAD)
    {
      if 0 < i <= |prefix| {
        assert a[i - 1 + 1] == prefix[i - 1] == b[i - 1 + 1] && prefix[i - 1] in prefix;
      }
    }
  }

  /** The decoder input of a prefix, as the program builds it. */
  function DecoderRow(tokens: Tokens, width: nat): (row: Tokens)
    requires |tokens| < width
    ensures Asks(row, tokens, width)
  {
    [BOS] + tokens + seq(width - 1 - |tokens|, _ => PAD)
  }

  /** One log-probability per token, as the network gives it for this row at this column. */
  predicate Answers(d: Decoder, m: Memory, asked: Tokens, column: nat, scores: seq<LogProb>) {
    |scores| == d.vocabulary && forall t: nat :: t < d.vocabulary ==> scores[t] == d.logProb(m, asked, column, t)
  }

  /** These are the network's scores for the token after a prefix. */
  ghost predicate ScoresAfter(d: Decoder, m: Memory, prefix: Tokens, scores: seq<LogProb>) {
    exists asked :: Asks(asked, prefix, d.width) && Answers(d, m, asked, |prefix|, scores)
  }

  /** What the network says about the token that follows `tokens`: the column of the prefix's end. */
  function NextScores(d: Decoder, m: Memory, tokens: Tokens): (row: seq<LogProb>)
    requires |tokens| < d.width
    ensures |row| == d.vocabulary
    ensures ScoresAfter(d, m, tokens, row)
  {
    assert Answers(d, m, DecoderRow(tokens, d.width), |tokens|, d.Column(m, DecoderRow(tokens, d.width), |tokens|));
    d.Column(m, DecoderRow(tokens, d.width), |tokens|)
  }

  function Gram(tokens: Tokens, start: nat, n: nat): Tokens
    requires start + n <= |tokens|
  {
    tokens[start..start + n]
  }

  /** Some n consecutive tokens occur twice. */
  predicate RepeatsNGram(tokens: Tokens, n: nat) {
    exists i, j :: 0 <= i < j <= |tokens| - n && Gram(tokens, i, n) == Gram(tokens, j, n)
  }

  /** A token that may follow: neither PAD nor BOS, and it completes no n-gram a second time. */
  predicate Allowed(tokens: Tokens, t: nat, n: nat) {
    t != PAD && t != BOS && !RepeatsNGram(tokens + [t], n)
  }

  predicate Viable(d: Decoder, m: Memory, b: Beam, n: nat, t: nat)
    requires |b.tokens| < d.width
  {
    t < d.vocabulary && Allowed(b.tokens, t, n) && NextScores(d, m, b.tokens)[t].Finite?
  }

  function Child(d: Decoder, m: Memory, b: Beam, t: nat): (c: Beam)
    requires |b.tokens| < d.width
    requires t < d.vocabulary && NextScores(d, m, b.tokens)[t].Finite?
  {
    Beam(b.score + NextScores(d, m, b.tokens)[t].value, b.tokens + [t], t == EOS)
  }

  /** Every beam that can follow a live beam, none cut off. */
  ghost function Children(d: Decoder, m: Memory, b: Beam, n: nat): set<Beam>
    requires |b.tokens| < d.width
  {
    set t: nat | t < d.vocabulary && Viable(d, m, b, n, t) :: Child(d, m, b, t)
  }

  // ----- the competition order is total -----

  lemma {:induction false} LexIrreflexive(a: Tokens)
    ensures !LexLess(a, a)
  {
    if a != [] { LexIrreflexive(a[1..]); }
  }

  lemma {:induction false} LexTransitive(a: Tokens, b: Tokens, c: Tokens)
    requires LexLess(a, b) && LexLess(b, c)
    ensures LexLess(a, c)
  {
    if a != [] && a[0] == b[0] && b[0] == c[0] { LexTransitive(a[1..], b[1..], c[1..]); }
  }

  lemma {:induction false} LexTotal(a: Tokens, b: Tokens)
    ensures a == b || LexLess(a, b) || LexLess(b, a)
  {
    if a != [] && b != [] && a[0] == b[0] {
      LexTotal(a[1..], b[1..]);
      assert a == [a[0]] + a[1..];
      assert b == [b[0]] + b[1..];
    }
  }

  /** Extending two different tuples of one length, or the larger one only, keeps their order. */
  lemma {:induction false} LexAppend(a: Tokens, b: Tokens, x: nat)
    requires LexLess(a, b)
    ensures LexLess(a, b + [x])
  {
    if a != [] && a[0] == b[0] {
      LexAppend(a[1..], b[1..], x);
      assert (b + [x])[1..] == b[1..] + [x];
    }
  }

  lemma {:induction false} LexSiblings(a: Tokens, x: nat, y: nat)
    ensures LexLess(a + [x], a + [y]) <==> x < y
  {
    if a == [] {
      assert [x][1..] == [] && [y][1..] == [];
    } else {
      LexSiblings(a[1..], x, y);
      assert (a + [x])[1..] == a[1..] + [x] && (a + [y])[1..] == a[1..] + [y];
    }
  }

  lemma BeforeIrreflexive(a: Beam)
    ensures !Before(a, a)
  {
    LexIrreflexive(a.tokens);
  }

  lemma BeforeTransitive(a: Beam, b: Beam, c: Beam)
    requires Before(a, b) && Before(b, c)
    ensures Before(a, c)
  {
    if a.score == b.score && b.score == c.score { LexTransitive(a.tokens, b.tokens, c.tokens); }
  }

  lemma BeforeTotal(a: Beam, b: Beam)
    requires a.tokens != b.tokens
    ensures Before(a, b) || Before(b, a)
  {
    LexTotal(a.tokens, b.tokens);
  }
}
