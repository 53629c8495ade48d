/**
 * Helpers of the result plots: the left forward-fill of missing values in a
 * curve (`fill_nan_with_left`; NaN is None) and the shortening of algorithm
 * names for labels (`_shorthand_algo_name`, `_algo_to_name`).
 */
module PlotHelpers {
  import opened Wrappers
  import opened Text

  // ------------------------------------------------------------ NaN fill

  /** The index of the last present entry, or 0 when every entry is missing. */
  function LastPresent(s: seq<Option<real>>): (k: nat)
    ensures (forall j :: 0 <= j < |s| ==> s[j].None?) ==> k == 0
    ensures (exists j :: 0 <= j < |s| && s[j].Some?) ==>
      k < |s| && s[k].Some? && forall j :: k < j < |s| ==> s[j].None?
  {
    if s == [] then 0
    else if s[|s| - 1].Some? then |s| - 1
    else
      var k := LastPresent(s[..|s| - 1]);
      assert forall j :: 0 <= j < |s| - 1 ==> s[..|s| - 1][j] == s[j];
      k
  }

  /** The nearest present entry strictly left of position `i`, or None when there is none. */
  function NearestLeft(s: seq<Option<real>>, i: nat): (r: Option<real>)
    requires i <= |s|
    ensures r.None? <==> forall j :: 0 <= j < i ==> s[j].None?
    ensures r.Some? ==> exists j :: 0 <= j < i && s[j] == r && forall l :: j < l < i ==> s[l].None?
  {
    if i == 0 then None
    else if s[i - 1].Some? then s[i - 1]
    else NearestLeft(s, i - 1)
  }

  /**
   * The filled curve: a present entry is kept; a missing entry strictly left
   * of the last present one takes the nearest present value to its left
   * (staying missing when there is none); the missing tail stays missing.
   */
  function FilledLeft(s: seq<Option<real>>): (r: seq<Option<real>>)
    ensures |r| == |s|
  {
    seq(|s|, i requires 0 <= i < |s| =>
      if s[i].Some? then s[i] else if i < LastPresent(s) then NearestLeft(s, i) else None)
  }

  /**
   * `fill_nan_with_left`: copies the array, finds the last present index by a
   * backward scan (0 when all are missing), then fills forward in place. The
   * input array is not modified.
   */
  method FillNanWithLeft(arr: array<Option<real>>) returns (filled: array<Option<real>>)
    ensures fresh(filled)
    ensures filled[..] == FilledLeft(arr[..])
  {
    filled := new Option<real>[arr.Length](i requires 0 <= i < arr.Length reads arr => arr[i]);
    assert filled[..] == arr[..];
    var lastValidIndex := ScanLastValid(filled);
    FillForward(filled, lastValidIndex);
  }

  /** The backward scan for the last present index of the copy (0 when all are missing). */
  method ScanLastValid(filled: array<Option<real>>) returns (lastValidIndex: nat)
    ensures lastValidIndex == LastPresent(filled[..])
  {
    ghost var s := filled[..];
    lastValidIndex := 0;
    var i := 0;
    while i < filled.Length
      invariant 0 <= i <= filled.Length
      invariant forall j :: filled.Length - i <= j < filled.Length ==> s[j].None?
      invariant lastValidIndex == 0
    {
      var index := filled.Length - i - 1;
      if filled[index].Some? {
        lastValidIndex := index;
        break;
      }
      i := i + 1;
    }
  }

  /** The forward pass: each missing entry before the last present one takes the value last seen. */
  method FillForward(filled: array<Option<real>>, lastValidIndex: nat)
    requires lastValidIndex == LastPresent(filled[..])
    modifies filled
    ensures filled[..] == FilledLeft(old(filled[..]))
  {
    ghost var s := filled[..];
    ghost var f := FilledLeft(s);
    var lastValid: Option<real> := None;
    for k := 0 to filled.Length
      invariant forall j :: k <= j < filled.Length ==> filled[j] == s[j]
      invariant forall j :: 0 <= j < k ==> filled[j] == f[j]
      invariant lastValid == NearestLeft(s, k)
    {
      if filled[k].None? {
        assert NearestLeft(s, k + 1) == lastValid;
        if k < lastValidIndex && lastValid.Some? {
          filled[k] := lastValid;
        } else {
          filled[k] := None;
        }
      } else {
        assert f[k] == s[k];
        lastValid := filled[k];
      }
    }
  }

  /**
   * What the fill promises: present entries are kept; missing entries from
   * the last present one on stay missing, and so do those before the first
   * present one; every other missing entry takes the nearest present value to
   * its left; an all-missing curve stays all missing.
   */
  lemma {:induction false} FilledLeftSpec(s: seq<Option<real>>)
    ensures forall i :: 0 <= i < |s| && s[i].Some? ==> FilledLeft(s)[i] == s[i]
    ensures forall i :: LastPresent(s) <= i < |s| && s[i].None? ==> FilledLeft(s)[i].None?
    ensures forall i :: 0 <= i < |s| && (forall j :: 0 <= j <= i ==> s[j].None?) ==> FilledLeft(s)[i].None?
    ensures forall i :: 0 <= i < LastPresent(s) && s[i].None? && (exists j :: 0 <= j < i && s[j].Some?) ==>
      exists j :: 0 <= j < i && FilledLeft(s)[i] == s[j] && s[j].Some? && forall l :: j < l < i ==> s[l].None?
    ensures (forall i :: 0 <= i < |s| ==> s[i].None?) ==> forall i :: 0 <= i < |s| ==> FilledLeft(s)[i].None?
  {
    forall i | 0 <= i < LastPresent(s) && s[i].None? && (exists j :: 0 <= j < i && s[j].Some?)
      ensures exists j :: 0 <= j < i && FilledLeft(s)[i] == s[j] && s[j].Some? && forall l :: j < l < i ==> s[l].None?
    {
      var r := NearestLeft(s, i);
      assert r.Some?;
      var j :| 0 <= j < i && s[j] == r && forall l :: j < l < i ==> s[l].None?;
      assert FilledLeft(s)[i] == s[j];
    }
  }

  /** Filling a filled curve changes nothing. */
  lemma {:induction false} FilledLeftIdempotent(s: seq<Option<real>>)
    ensures FilledLeft(FilledLeft(s)) == FilledLeft(s)
  {
    var t := FilledLeft(s);
    if forall j :: 0 <= j < |s| ==> s[j].None? {
      assert forall j :: 0 <= j < |t| ==> t[j].None?;
      assert FilledLeft(t) == t;
    } else {
      var p := LastPresent(s);
      assert t[p] == s[p];
      assert forall j :: p < j < |t| ==> t[j].None?;
      assert LastPresent(t) == p;
      forall i | 0 <= i < |t|
        ensures FilledLeft(t)[i] == t[i]
      {
        if t[i].None? && i < p {
          assert NearestLeft(s, i).None?;
          assert forall j :: 0 <= j < i ==> s[j].None?;
          forall j | 0 <= j < i ensures t[j].None? {
            assert forall l :: 0 <= l < j ==> s[l].None?;
            assert NearestLeft(s, j).None?;
          }
          assert NearestLeft(t, i).None?;
        }
      }
    }
  }

  // -------------------------------------------------------- algorithm names

  /** `_shorthand_algo_name`: a known family keyword wins, in fixed priority; else "BL" is removed; else "A_" is removed. */
  function ShorthandAlgoName(algo: string): (r: string)
    ensures Contains(algo, "EvolutionaryBO") ==> r == "TREvol"
    ensures !Contains(algo, "EvolutionaryBO") && Contains(algo, "Optimistic") ==> r == "TROptimistic"
    ensures !Contains(algo, "EvolutionaryBO") && !Contains(algo, "Optimistic") && Contains(algo, "Pareto") ==> r == "TRPareto"
    ensures !Contains(algo, "EvolutionaryBO") && !Contains(algo, "Optimistic") && !Contains(algo, "Pareto") && Contains(algo, "ARM") ==> r == "ARM"
    ensures !Contains(algo, "EvolutionaryBO") && !Contains(algo, "Optimistic") && !Contains(algo, "Pareto") && !Contains(algo, "ARM") && Contains(algo, "MaternVanilla")
      ==> r == "VanillaBO"
  {
    if Contains(algo, "EvolutionaryBO") then "TREvol"
    else if Contains(algo, "Optimistic") then "TROptimistic"
    else if Contains(algo, "Pareto") then "TRPareto"
    else if Contains(algo, "ARM") then "ARM"
    else if Contains(algo, "MaternVanilla") then "VanillaBO"
    else if Contains(algo, "BL") then ReplaceAll(algo, "BL", "")
    else if Contains(algo, "A_") then ReplaceAll(algo, "A_", "")
    else algo
  }

  /** None of the five family keywords occurs in the name. */
  predicate NoKeyword(algo: string) {
    !Contains(algo, "EvolutionaryBO") && !Contains(algo, "Optimistic") && !Contains(algo, "Pareto")
    && !Contains(algo, "ARM") && !Contains(algo, "MaternVanilla")
  }

  /** Deleting every occurrence of a pattern never lengthens a string, and shortens it when the pattern occurs. */
  lemma {:induction false} DeleteShortens(s: string, pat: string)
    requires |pat| > 0
    ensures |ReplaceAll(s, pat, "")| <= |s|
    ensures Contains(s, pat) ==> |ReplaceAll(s, pat, "")| < |s|
    decreases |s|
  {
    if |s| >= |pat| {
      if s[..|pat|] == pat {
        DeleteShortens(s[|pat|..], pat);
      } else {
        DeleteShortens(s[1..], pat);
      }
    }
  }

  /**
   * The rules apply in order: a name with no keyword, "BL" or "A_" is
   * returned unchanged; a "BL" name only loses its "BL"s (an "A_" in it stays
   * untouched) and gets strictly shorter; otherwise an "A_" name loses its
   * "A_"s and gets strictly shorter.
   */
  lemma {:induction false} ShorthandRules(algo: string)
    ensures NoKeyword(algo) && !Contains(algo, "BL") && !Contains(algo, "A_") ==> ShorthandAlgoName(algo) == algo
    ensures NoKeyword(algo) && Contains(algo, "BL") ==>
      ShorthandAlgoName(algo) == ReplaceAll(algo, "BL", "") && |ShorthandAlgoName(algo)| < |algo|
    ensures NoKeyword(algo) && !Contains(algo, "BL") && Contains(algo, "A_") ==>
      ShorthandAlgoName(algo) == ReplaceAll(algo, "A_", "") && |ShorthandAlgoName(algo)| < |algo|
  {
    DeleteShortens(algo, "BL");
    DeleteShortens(algo, "A_");
  }

  /**
   * A single witness, not a general law: the rules are one `replace` pass each,
   * so a removal can create a new "BL": "BBLL" becomes "BL".
   */
  lemma {:induction false} ShorthandOnePass()
    ensures ShorthandAlgoName("BBLL") == "BL"
  {
    assert !Contains("BBLL", "EvolutionaryBO") && !Contains("BBLL", "Optimistic") && !Contains("BBLL", "Pareto");
    assert !Contains("BBLL", "ARM") && !Contains("BBLL", "MaternVanilla");
    assert "BBLL"[1..][..2] == "BL";
    assert Contains("BBLL", "BL");
    assert ReplaceAll("BBLL", "BL", "") == "B" + ReplaceAll("BLL", "BL", "");
    assert ReplaceAll("BLL", "BL", "") == "" + ReplaceAll("L", "BL", "");
  }

  /** `_algo_to_name`: the pair (label, name); a label without "BL" gets the "A_" prefix. */
  function AlgoToName(algo: string): (r: (string, string))
    ensures r.1 == algo
    ensures Contains(algo, "BL") ==> r.0 == algo
    ensures !Contains(algo, "BL") ==> r.0 == "A_" + algo
  {
    if !Contains(algo, "BL") then ("A_" + algo, algo) else (algo, algo)
  }

  /** A pattern without '_' and of length two or more is in "A_" + s exactly when it is in s. */
  lemma {:induction false} ContainsAfterPrefix(s: string, w: string)
    requires |w| >= 2 && '_' !in w
    ensures Contains("A_" + s, w) <==> Contains(s, w)
  {
    var t := "A_" + s;
    assert w[1] in w;
    assert w[0] in w;
    if |t| >= |w| {
      assert t[..|w|][1] == '_';
      assert t[..|w|] != w;
      assert t[1..] == "_" + s;
      if |t[1..]| >= |w| {
        assert t[1..][..|w|][0] == '_';
        assert t[1..][..|w|] != w;
      }
      assert t[1..][1..] == s;
    }
  }

  /**
   * The label of an algorithm named without keywords, "BL" or "A_" gets the
   * "A_" prefix, and shortening the label gives the name back.
   */
  lemma {:induction false} LabelRoundTrip(algo: string)
    requires NoKeyword(algo) && !Contains(algo, "BL") && !Contains(algo, "A_")
    ensures ShorthandAlgoName(AlgoToName(algo).0) == algo
  {
    var tagged := "A_" + algo;
    ContainsAfterPrefix(algo, "EvolutionaryBO");
    ContainsAfterPrefix(algo, "Optimistic");
    ContainsAfterPrefix(algo, "Pareto");
    ContainsAfterPrefix(algo, "ARM");
    ContainsAfterPrefix(algo, "MaternVanilla");
    ContainsAfterPrefix(algo, "BL");
    assert tagged[..2] == "A_" && tagged[2..] == algo;
    assert Contains(tagged, "A_");
    ReplaceAbsent(algo, "A_", "");
  }
}
