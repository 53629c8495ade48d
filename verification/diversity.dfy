/**
 * Diversity-aware survivor selection (`diversity_awarness_selection_fn`):
 * when there are more candidates than places, candidates are ranked by a
 * comparator that prefers the higher score when two scores differ by more
 * than a threshold and otherwise the lower mean description similarity.
 */
module DiversitySelection {
  import opened Wrappers
  import opened Numeric
  import opened Sorting
  import opened Population

  /** The individual's attached handler carries an evaluation result. */
  predicate HasScore(ind: Individual) {
    var h := GetHandlerFromIndividual(Some(ind));
    h.Some? && h.value.Handler? && h.value.handler.evalResult.Some?
  }

  /** `get_score`: the score of the attached handler's evaluation result. */
  function Score(ind: Individual): real
    requires HasScore(ind)
  {
    GetHandlerFromIndividual(Some(ind)).value.handler.evalResult.value.score
  }

  predicate AllScored(inds: seq<Individual>) {
    forall i :: 0 <= i < |inds| ==> HasScore(inds[i])
  }

  function Mean(s: seq<real>): real
    requires |s| > 0
  {
    Sum(s) / |s| as real
  }

  function Deviations(s: seq<real>, c: real): (r: seq<real>)
    ensures |r| == |s| && forall i :: 0 <= i < |s| ==> r[i] == Abs(s[i] - c)
  {
    seq(|s|, i requires 0 <= i < |s| => Abs(s[i] - c))
  }

  /** The default threshold: the mean absolute deviation of the scores from their mean. */
  function MeanAbsDeviation(s: seq<real>): real
    requires |s| > 0
  {
    Mean(Deviations(s, Mean(s)))
  }

  /** The default threshold is never negative. */
  lemma {:induction false} MeanAbsDeviationNonNegative(s: seq<real>)
    requires |s| > 0
    ensures MeanAbsDeviation(s) >= 0.0
  {
    SumNonNegative(Deviations(s, Mean(s)));
  }

  /** Equal scores have no spread: the default threshold is then 0. */
  lemma {:induction false} MeanAbsDeviationOfEqualScores(s: seq<real>)
    requires |s| > 0 && forall i :: 0 <= i < |s| ==> s[i] == s[0]
    ensures MeanAbsDeviation(s) == 0.0
  {
    SumConstant(s, s[0]);
    var n := |s| as real;
    assert Sum(s) / n == s[0] by {
      assert Sum(s) == n * s[0];
    }
    var d := Deviations(s, Mean(s));
    SumConstant(d, 0.0);
  }

  /** A candidate with its score and its mean similarity to the others (the zipped tuple). */
  datatype Cand = Cand(ind: Individual, score: real, sim: real)

  /**
   * `cmp_inds`: a positive result ranks the first candidate higher. Scores
   * further apart than the threshold decide by score; otherwise the less
   * similar candidate ranks higher.
   */
  function CandCmp(threshold: real): (Cand, Cand) -> real {
    (a: Cand, b: Cand) => if Abs(a.score - b.score) > threshold then a.score - b.score else -(a.sim - b.sim)
  }

  /** Swapping the arguments negates the comparison. */
  lemma {:induction false} CandCmpAntisymmetric(threshold: real)
    ensures Antisymmetric(CandCmp(threshold))
  {
    forall a: Cand, b: Cand ensures CandCmp(threshold)(a, b) == -CandCmp(threshold)(b, a) {
      assert Abs(a.score - b.score) == Abs(b.score - a.score);
    }
  }

  function Tag(cands: seq<Individual>, sims: seq<real>): (r: seq<Cand>)
    requires |sims| == |cands| && AllScored(cands)
    ensures |r| == |cands| && forall i :: 0 <= i < |r| ==> r[i] == Cand(cands[i], Score(cands[i]), sims[i])
  {
    seq(|cands|, i requires 0 <= i < |cands| => Cand(cands[i], Score(cands[i]), sims[i]))
  }

  function Inds(cs: seq<Cand>): (r: seq<Individual>)
    ensures |r| == |cs| && forall i :: 0 <= i < |r| ==> r[i] == cs[i].ind
  {
    seq(|cs|, i requires 0 <= i < |cs| => cs[i].ind)
  }

  function Scores(inds: seq<Individual>): (r: seq<real>)
    requires AllScored(inds)
    ensures |r| == |inds| && forall i :: 0 <= i < |r| ==> r[i] == Score(inds[i])
  {
    seq(|inds|, i requires 0 <= i < |inds| => Score(inds[i]))
  }

  /** The given threshold, or the mean absolute deviation of the scores when none is given. */
  function Threshold(given: Option<real>, cands: seq<Individual>): real
    requires |cands| > 0 && AllScored(cands)
  {
    if given.Some? then given.value else MeanAbsDeviation(Scores(cands))
  }

  /** The candidates ranked by `cmp_inds`, highest first (stable). */
  function Ranked(cands: seq<Individual>, sims: seq<real>, given: Option<real>): seq<Cand>
    requires |cands| > 0 && |sims| == |cands| && AllScored(cands)
  {
    SortByCmpDesc(Tag(cands, sims), CandCmp(Threshold(given, cands)))
  }

  /**
   * `diversity_awarness_selection_fn(next_inds, last_inds, n_parent,
   * fitness_threshold)`: the candidates are the last population followed by
   * the new individuals; if they fit they are returned as they are, otherwise
   * the first `nParent` of the ranking. `sims` is the mean description
   * similarity of each candidate, computed outside the model.
   */
  function DiversitySelection(next: seq<Individual>, last: seq<Individual>, nParent: nat,
                              given: Option<real>, sims: seq<real>): seq<Individual>
    requires |sims| == |last| + |next|
    requires |last| + |next| > nParent ==> AllScored(last + next)
  {
    var cands := last + next;
    if |cands| <= nParent then cands
    else Inds(Ranked(cands, sims, given))[..nParent]
  }

  lemma {:induction false} InsertByCmpInds(x: Cand, t: seq<Cand>, cmp: (Cand, Cand) -> real)
    ensures multiset(Inds(InsertByCmp(x, t, cmp))) == multiset(Inds(t)) + multiset{x.ind}
  {
    if t != [] && cmp(x, t[0]) < 0.0 {
      var rest := InsertByCmp(x, t[1..], cmp);
      InsertByCmpInds(x, t[1..], cmp);
      assert InsertByCmp(x, t, cmp) == [t[0]] + rest;
      IndsCons(t[0], rest);
      assert t == [t[0]] + t[1..];
      IndsCons(t[0], t[1..]);
      var a, b := Inds(rest), Inds(t[1..]);
      assert multiset([t[0].ind] + a) == multiset{t[0].ind} + multiset(a);
      assert multiset([t[0].ind] + b) == multiset{t[0].ind} + multiset(b);
    } else {
      assert InsertByCmp(x, t, cmp) == [x] + t;
      IndsCons(x, t);
    }
  }

  lemma IndsCons(c: Cand, t: seq<Cand>)
    ensures Inds([c] + t) == [c.ind] + Inds(t)
  {
  }

  /** Sorting the tagged candidates only reorders the individuals. */
  lemma {:induction false} SortByCmpInds(xs: seq<Cand>, cmp: (Cand, Cand) -> real)
    ensures multiset(Inds(SortByCmpDesc(xs, cmp))) == multiset(Inds(xs))
  {
    if xs != [] {
      SortByCmpInds(xs[1..], cmp);
      InsertByCmpInds(xs[0], SortByCmpDesc(xs[1..], cmp), cmp);
      assert Inds(xs) == [xs[0].ind] + Inds(xs[1..]);
    }
  }

  /**
   * Candidates that fit are returned unchanged; otherwise exactly `nParent`
   * of them are returned, none more often than it occurs among the
   * candidates, as the head of a ranking of all candidates in which each
   * candidate ranks at least as high as the next.
   */
  lemma {:induction false} DiversitySelectionSpec(next: seq<Individual>, last: seq<Individual>, nParent: nat,
                               given: Option<real>, sims: seq<real>)
    requires |sims| == |last| + |next|
    requires |last| + |next| > nParent ==> AllScored(last + next)
    ensures var r := DiversitySelection(next, last, nParent, given, sims);
      && (|last| + |next| <= nParent ==> r == last + next)
      && (|last| + |next| > nParent ==>
            var ranked := Ranked(last + next, sims, given);
            && |r| == nParent
            && multiset(r) <= multiset(last + next)
            && r == Inds(ranked)[..nParent]
            && multiset(ranked) == multiset(Tag(last + next, sims))
            && AdjacentDesc(ranked, CandCmp(Threshold(given, last + next))))
  {
    var cands := last + next;
    if |cands| > nParent {
      var th := Threshold(given, cands);
      var tagged := Tag(cands, sims);
      var ranked := Ranked(cands, sims, given);
      SortByCmpPerm(tagged, CandCmp(th));
      CandCmpAntisymmetric(th);
      SortByCmpAdjacent(tagged, CandCmp(th));
      SortByCmpInds(tagged, CandCmp(th));
      assert Inds(tagged) == cands;
      PrefixSubMultiset(Inds(ranked), nParent);
    }
  }

  lemma PrefixSubMultiset<T>(all: seq<T>, n: nat)
    requires n <= |all|
    ensures multiset(all[..n]) <= multiset(all)
  {
    assert all == all[..n] + all[n..];
  }

  /** A non-increasing adjacent order is a non-increasing order. */
  lemma {:induction false} AdjacentScoresSorted(s: seq<Cand>, i: nat, j: nat)
    requires forall k :: 0 <= k < |s| - 1 ==> s[k].score >= s[k + 1].score
    requires i <= j < |s|
    ensures s[i].score >= s[j].score
    decreases j - i
  {
    if i < j {
      AdjacentScoresSorted(s, i + 1, j);
    }
  }

  /**
   * When no two different scores lie within the threshold of each other, the
   * ranking, and so the selection, is by score, highest first.
   */
  lemma {:induction false} ScoresApartRankByScore(cands: seq<Individual>, sims: seq<real>, given: Option<real>)
    requires |cands| > 0 && |sims| == |cands| && AllScored(cands)
    requires forall i, j :: 0 <= i < |cands| && 0 <= j < |cands| && Score(cands[i]) != Score(cands[j]) ==>
      Abs(Score(cands[i]) - Score(cands[j])) > Threshold(given, cands)
    ensures var ranked := Ranked(cands, sims, given);
      forall i, j :: 0 <= i < j < |ranked| ==> ranked[i].score >= ranked[j].score
  {
    var th := Threshold(given, cands);
    var tagged := Tag(cands, sims);
    var ranked := Ranked(cands, sims, given);
    forall k | 0 <= k < |ranked| - 1 ensures ranked[k].score >= ranked[k + 1].score {
      RankedStep(cands, sims, given, k);
      var a :| 0 <= a < |tagged| && tagged[a] == ranked[k];
      var b :| 0 <= b < |tagged| && tagged[b] == ranked[k + 1];
      assert Score(cands[a]) == ranked[k].score && Score(cands[b]) == ranked[k + 1].score;
    }
    forall i, j | 0 <= i < j < |ranked| ensures ranked[i].score >= ranked[j].score {
      AdjacentScoresSorted(ranked, i, j);
    }
  }

  /**
   * When every two scores lie within the threshold, the ranking is by mean
   * similarity, least similar first.
   */
  lemma {:induction false} ScoresCloseRankBySimilarity(cands: seq<Individual>, sims: seq<real>, given: Option<real>)
    requires |cands| > 0 && |sims| == |cands| && AllScored(cands)
    requires forall i, j :: 0 <= i < |cands| && 0 <= j < |cands| ==>
      Abs(Score(cands[i]) - Score(cands[j])) <= Threshold(given, cands)
    ensures var ranked := Ranked(cands, sims, given);
      forall k :: 0 <= k < |ranked| - 1 ==> ranked[k].sim <= ranked[k + 1].sim
  {
    var th := Threshold(given, cands);
    var tagged := Tag(cands, sims);
    var ranked := Ranked(cands, sims, given);
    forall k | 0 <= k < |ranked| - 1 ensures ranked[k].sim <= ranked[k + 1].sim {
      RankedStep(cands, sims, given, k);
      var a :| 0 <= a < |tagged| && tagged[a] == ranked[k];
      var b :| 0 <= b < |tagged| && tagged[b] == ranked[k + 1];
      assert Abs(Score(cands[a]) - Score(cands[b])) <= th;
    }
  }

  /** Two neighbours in the ranking are tagged candidates, and the first compares at least as high as the second. */
  lemma {:induction false} RankedStep(cands: seq<Individual>, sims: seq<real>, given: Option<real>, k: nat)
    requires |cands| > 0 && |sims| == |cands| && AllScored(cands)
    requires k + 1 < |Ranked(cands, sims, given)|
    ensures var ranked := Ranked(cands, sims, given);
      && ranked[k] in Tag(cands, sims) && ranked[k + 1] in Tag(cands, sims)
      && CandCmp(Threshold(given, cands))(ranked[k], ranked[k + 1]) >= 0.0
  {
    var th := Threshold(given, cands);
    var tagged := Tag(cands, sims);
    var ranked := Ranked(cands, sims, given);
    SortByCmpPerm(tagged, CandCmp(th));
    CandCmpAntisymmetric(th);
    SortByCmpAdjacent(tagged, CandCmp(th));
    assert ranked[k] in multiset(ranked) && ranked[k + 1] in multiset(ranked);
  }

  /**
   * The selection as the source runs it: gather the candidates, rank them,
   * then collect the individuals of the ranking in a loop and cut the list.
   */
  method DiversityAwarenessSelection(next: seq<Individual>, last: seq<Individual>, nParent: nat,
                                     given: Option<real>, sims: seq<real>)
    returns (r: seq<Individual>)
    requires |sims| == |last| + |next|
    requires |last| + |next| > nParent ==> AllScored(last + next)
    ensures r == DiversitySelection(next, last, nParent, given, sims)
  {
    var cands: seq<Individual> := [];
    if |last| > 0 {
      cands := cands + last;
    }
    if |next| > 0 {
      cands := cands + next;
    }
    assert cands == last + next;
    if |cands| <= nParent {
      return cands;
    }
    var threshold := FitnessThreshold(cands, given);
    var tupleCands := SortByCmpDesc(Tag(cands, sims), CandCmp(threshold));
    var sortedCandidates := Unwrap(tupleCands);
    r := sortedCandidates[..nParent];
  }

  /** The fitness threshold: the given one, or the mean absolute deviation of the scores. */
  method FitnessThreshold(cands: seq<Individual>, given: Option<real>) returns (threshold: real)
    requires |cands| > 0 && AllScored(cands)
    ensures threshold == Threshold(given, cands)
  {
    if given.None? {
      var scores := Scores(cands);
      var meanScore := Sum(scores) / |scores| as real;
      var deviations := seq(|cands|, i requires 0 <= i < |cands| => Abs(Score(cands[i]) - meanScore));
      threshold := Sum(deviations) / |deviations| as real;
      assert deviations == Deviations(scores, Mean(scores));
    } else {
      threshold := given.value;
    }
  }

  /** The loop that collects the individual of each ranked tuple, in order. */
  method Unwrap(tupleCands: seq<Cand>) returns (sortedCandidates: seq<Individual>)
    ensures sortedCandidates == Inds(tupleCands)
  {
    sortedCandidates := [];
    for i := 0 to |tupleCands|
      invariant sortedCandidates == Inds(tupleCands[..i])
    {
      sortedCandidates := sortedCandidates + [tupleCands[i].ind];
    }
    assert tupleCands[..|tupleCands|] == tupleCands;
  }
}
