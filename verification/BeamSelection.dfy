/**
  Selecting the k best beams of a finite set. The selection is defined on sets, without any sort
  and without any truncation; sorting a duplicate-free list and cutting it computes the selection,
  and beams that have k better rivals may be dropped beforehand.
*/
module BeamSelection {
  import opened BeamModel
  import StableSort

  ghost predicate Best(b: Beam, s: set<Beam>) {
    b in s && forall c :: c in s && c != b ==> Before(b, c)
  }

  /** Beams of one sample are told apart by their tokens. */
  ghost predicate ToldApart(s: set<Beam>) {
    forall a, b :: a in s && b in s && a.tokens == b.tokens ==> a == b
  }

  lemma {:induction false} BestExists(s: set<Beam>)
    requires s != {} && ToldApart(s)
    ensures exists b :: Best(b, s)
    decreases |s|
  {
    var a :| a in s;
    var rest := s - {a};
    if rest == {} {
      assert s == {a};
      assert Best(a, s);
    } else {
      assert |rest| < |s|;
      BestExists(rest);
      var b :| Best(b, rest);
      BeforeTotal(a, b);
      if Before(a, b) {
        forall c | c in s && c != a
          ensures Before(a, c)
        {
          if c != b { BeforeTransitive(a, b, c); }
        }
        assert Best(a, s);
      } else {
        assert Best(b, s);
      }
    }
  }

  lemma BestIsUnique(a: Beam, b: Beam, s: set<Beam>)
    requires Best(a, s) && Best(b, s)
    ensures a == b
  {
    if a != b {
      BeforeTransitive(a, b, a);
      BeforeIrreflexive(a);
    }
  }

  ghost function TheBest(s: set<Beam>): (b: Beam)
    requires s != {} && ToldApart(s)
    ensures Best(b, s)
  {
    BestExists(s);
    var b :| Best(b, s);
    b
  }

  /** The k best beams of a set, best first; all of them when there are fewer. */
  ghost function Top(s: set<Beam>, k: nat): (r: seq<Beam>)
    requires ToldApart(s)
    decreases k
  {
    if k == 0 || s == {} then [] else [TheBest(s)] + Top(s - {TheBest(s)}, k - 1)
  }

  ghost predicate AllBefore(better: set<Beam>, x: Beam) {
    forall y :: y in better ==> Before(y, x)
  }

  /** At least k beams of `kept` are better than `x`. */
  ghost predicate Outdone(x: Beam, kept: set<Beam>, k: nat) {
    exists better: set<Beam> :: better <= kept && |better| >= k && AllBefore(better, x)
  }

  lemma NoneBeforeTheBest(b: Beam, full: set<Beam>, y: Beam)
    requires Best(b, full) && y in full
    ensures !Before(y, b)
  {
    hide Before;
    BeforeIrreflexive(b);
    if y != b && Before(y, b) {
      BeforeTransitive(b, y, b);
    }
  }

  lemma BestIsNotOutdone(b: Beam, full: set<Beam>, kept: set<Beam>, k: nat)
    requires Best(b, full) && kept <= full && k != 0
    ensures !Outdone(b, kept, k)
  {
    hide Before, Best;
    forall better: set<Beam> | better <= kept && |better| >= k
      ensures !AllBefore(better, b)
    {
      var y :| y in better;
      NoneBeforeTheBest(b, full, y);
    }
  }

  lemma OutdoneByOneLess(x: Beam, kept: set<Beam>, b: Beam, k: nat)
    requires Outdone(x, kept, k) && k != 0
    ensures Outdone(x, kept - {b}, k - 1)
  {
    hide Before;
    var better: set<Beam> :| better <= kept && |better| >= k && AllBefore(better, x);
    var fewer := better - {b};
    assert |fewer| >= |better| - 1;
    assert fewer <= kept - {b} && AllBefore(fewer, x);
  }

  /** Dropping beams that k of the remaining beams outdo does not change the k best. */
  lemma {:induction false} TopIgnoresOutdone(full: set<Beam>, kept: set<Beam>, k: nat)
    requires ToldApart(full) && kept <= full
    requires forall x :: x in full - kept ==> Outdone(x, kept, k)
    ensures ToldApart(kept) && Top(full, k) == Top(kept, k)
    decreases k
  {
    hide Before, Outdone;
    if k != 0 && full != {} {
      var b := TheBest(full);
      BestIsNotOutdone(b, full, kept, k);
      assert b in kept && Best(b, kept);
      BestIsUnique(b, TheBest(kept), kept);
      forall x | x in (full - {b}) - (kept - {b})
        ensures Outdone(x, kept - {b}, k - 1)
      {
        OutdoneByOneLess(x, kept, b, k);
      }
      TopIgnoresOutdone(full - {b}, kept - {b}, k - 1);
    }
  }

  // ----- sorting computes the selection -----

  ghost predicate Ranked(s: seq<Beam>) {
    forall i, j :: 0 <= i < j < |s| ==> Before(s[i], s[j])
  }

  ghost function Elements(s: seq<Beam>): (r: set<Beam>)
    ensures forall b :: b in r <==> b in s
  {
    set b | b in s
  }

  lemma RankedHead(s: seq<Beam>)
    requires Ranked(s) && s != []
    ensures Best(s[0], Elements(s))
    ensures Elements(s) - {s[0]} == Elements(s[1..]) && Ranked(s[1..])
  {
    BeforeIrreflexive(s[0]);
    assert s == [s[0]] + s[1..];
    forall c | c in s[1..]
      ensures Before(s[0], c)
    {
      var i :| 0 <= i < |s[1..]| && s[1..][i] == c;
      assert s[i + 1] == c;
    }
  }

  lemma RankedTopHead(s: seq<Beam>, k: nat)
    requires Ranked(s) && ToldApart(Elements(s)) && s != [] && k != 0
    ensures ToldApart(Elements(s[1..])) && Ranked(s[1..])
    ensures Top(Elements(s), k) == [s[0]] + Top(Elements(s[1..]), k - 1)
  {
    hide Before, Ranked;
    RankedHead(s);
    BestIsUnique(s[0], TheBest(Elements(s)), Elements(s));
  }

  lemma {:induction false} RankedPrefixIsTop(s: seq<Beam>, k: nat)
    requires Ranked(s) && ToldApart(Elements(s))
    ensures Top(Elements(s), k) == if k <= |s| then s[..k] else s
    decreases k
  {
    hide *;
    if s == [] || k == 0 {
      TopOfNothing(s, k);
    } else {
      RankedTopHead(s, k);
      RankedPrefixIsTop(s[1..], k - 1);
    }
  }

  lemma TopOfNothing(s: seq<Beam>, k: nat)
    requires ToldApart(Elements(s)) && (s == [] || k == 0)
    ensures Top(Elements(s), k) == []
  {
    assert s == [] ==> Elements(s) == {};
  }

  lemma CompetitionOrder()
    ensures StableSort.StrictWeakOrder(Before)
  {
    forall a, b | Before(a, b)
      ensures !Before(b, a)
    {
      if Before(b, a) {
        BeforeTransitive(a, b, a);
        BeforeIrreflexive(a);
      }
    }
    forall a, b, c | Before(a, c)
      ensures Before(a, b) || Before(b, c)
    {
      LexTotal(a.tokens, b.tokens);
      LexTotal(b.tokens, c.tokens);
      if a.score == b.score && b.score == c.score && !LexLess(a.tokens, b.tokens) && a.tokens != b.tokens {
        LexTransitive(b.tokens, a.tokens, c.tokens);
      }
    }
  }

  /** Sorting a duplicate-free candidate list and keeping k entries selects the k best. */
  lemma SortedCutIsTop(candidates: seq<Beam>, k: nat)
    requires StableSort.Distinct(candidates) && ToldApart(Elements(candidates))
    ensures
      var ranked := StableSort.Sort(candidates, Before);
      Top(Elements(candidates), k) == if k <= |ranked| then ranked[..k] else ranked
  {
    var ranked := StableSort.Sort(candidates, Before);
    CompetitionOrder();
    StableSort.SortSorts(candidates, Before);
    StableSort.SortKeepsDistinct(candidates, Before);
    StableSort.SortedElements(candidates, Before);
    assert Elements(ranked) == Elements(candidates);
    forall i, j | 0 <= i < j < |ranked|
      ensures Before(ranked[i], ranked[j])
    {
      assert ranked[i] in Elements(candidates) && ranked[j] in Elements(candidates);
      BeforeTotal(ranked[i], ranked[j]);
    }
    RankedPrefixIsTop(ranked, k);
  }

  // ----- what the selection looks like -----

  /** What the selection leaves out is beaten by all it keeps, and it keeps as many as it may. */
  lemma {:induction false} TopLeavesTheWorst(s: set<Beam>, k: nat, c: Beam)
    requires ToldApart(s) && c in s && c !in Top(s, k)
    ensures |Top(s, k)| == k && forall b :: b in Top(s, k) ==> Before(b, c)
    decreases k
  {
    hide Before;
    if k != 0 {
      TopLeavesTheWorst(s - {TheBest(s)}, k - 1, c);
    }
  }

  /** The selection is ranked, drawn from the set, as long as it can be, and its head beats all. */
  lemma {:induction false} TopFacts(s: set<Beam>, k: nat)
    requires ToldApart(s)
    ensures Ranked(Top(s, k))
    ensures forall b :: b in Top(s, k) ==> b in s
    ensures |Top(s, k)| <= k
    ensures k > 0 && s != {} ==> Top(s, k) != [] && Best(Top(s, k)[0], s)
    decreases k
  {
    if k != 0 && s != {} {
      TopFacts(s - {TheBest(s)}, k - 1);
    }
  }
}
