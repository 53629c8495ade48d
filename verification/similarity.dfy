/**
 * Code-diff similarity (`_code_diff_similarity` and its inner `code_compare`).
 * The line diff itself is a parameter: `diff(a, b)` is the number of lines a
 * line diff marks as removed ("- ") or added ("+ ").
 */
module CodeSimilarity {
  import opened Wrappers
  import opened Numeric
  import opened Population

  /**
   * What the model relies on about the diff: a code body differs from itself
   * in no line, and every marked line is a line of one of the two bodies.
   */
  ghost predicate ValidDiff(diff: (Lines, Lines) -> nat) {
    (forall a :: diff(a, a) == 0) && (forall a, b :: diff(a, b) <= |a| + |b|)
  }

  /** `code_compare`: the share of unchanged lines, 1 for two empty bodies. */
  function CodeCompare(a: Lines, b: Lines, diff: (Lines, Lines) -> nat): (r: real)
    ensures r <= 1.0
    ensures r == 1.0 <==> (|a| == 0 && |b| == 0) || diff(a, b) == 0
  {
    var total := if |a| >= |b| then |a| else |b|;
    if total == 0 then 1.0 else (total - diff(a, b)) as real / total as real
  }

  /** A code body is fully similar to itself. */
  lemma {:induction false} CompareSelf(a: Lines, diff: (Lines, Lines) -> nat)
    requires ValidDiff(diff)
    ensures CodeCompare(a, a, diff) == 1.0
  {
    var total := |a|;
    assert diff(a, a) == 0;
    if total > 0 {
      assert (total - diff(a, a)) as real == total as real;
      assert total as real / total as real == 1.0;
    }
  }

  lemma {:induction false} DivBounds(x: real, t: real)
    requires t > 0.0 && -t <= x <= t
    ensures -1.0 <= x / t <= 1.0
  {
    var r := x / t;
    assert r * t == x;
  }

  /** Every ratio is at most 1; it is at least -1, and it can be negative. */
  lemma {:induction false} CompareBounds(a: Lines, b: Lines, diff: (Lines, Lines) -> nat)
    requires ValidDiff(diff)
    ensures -1.0 <= CodeCompare(a, b, diff) <= 1.0
  {
    var total := if |a| >= |b| then |a| else |b|;
    if total > 0 {
      assert diff(a, b) <= |a| + |b| <= 2 * total;
      DivBounds((total - diff(a, b)) as real, total as real);
    }
  }

  /**
   * A single witness that the ratio has no lower bound of 0: two one-line
   * bodies whose only lines differ give one removal and one addition, so -1.
   */
  lemma CompareCanBeNegative(diff: (Lines, Lines) -> nat)
    requires diff(["x"], ["y"]) == 2
    ensures CodeCompare(["x"], ["y"], diff) == -1.0
  {
  }

  /**
   * The matrix the nested loop leaves behind: each pair is compared in both
   * orders and the later, mirrored write wins, so entry (p, q) compares the
   * code with the larger index against the one with the smaller index.
   */
  function Entry(codes: seq<Lines>, diff: (Lines, Lines) -> nat, p: nat, q: nat): real
    requires p < |codes| && q < |codes|
  {
    if p >= q then CodeCompare(codes[p], codes[q], diff) else CodeCompare(codes[q], codes[p], diff)
  }

  function SimMatrix(codes: seq<Lines>, diff: (Lines, Lines) -> nat): (m: seq<seq<real>>)
    ensures |m| == |codes| && forall p :: 0 <= p < |codes| ==> |m[p]| == |codes|
  {
    seq(|codes|, p requires 0 <= p < |codes| =>
      seq(|codes|, q requires 0 <= q < |codes| => Entry(codes, diff, p, q)))
  }

  /** `np.mean` of row `i` without its diagonal entry; NaN (None) when nothing is left. */
  function MeanExcluding(row: seq<real>, i: nat): Option<real>
    requires i < |row|
  {
    if |row| == 1 then None else Some(Sum(row[..i] + row[i + 1..]) / (|row| - 1) as real)
  }

  function MeanSimilarity(m: seq<seq<real>>): (r: seq<Option<real>>)
    requires forall p :: 0 <= p < |m| ==> |m[p]| == |m|
    ensures |r| == |m|
  {
    seq(|m|, p requires 0 <= p < |m| => MeanExcluding(m[p], p))
  }

  /** Row `i` of the array, as a sequence. */
  function Row(m: array2<real>, i: nat): (r: seq<real>)
    reads m
    requires i < m.Length0
    ensures |r| == m.Length1
  {
    seq(m.Length1, j reads m requires 0 <= j < m.Length1 => m[i, j])
  }

  /** Entry (p, q) after the loop has handled every pair up to, not including, (i, j). */
  function Partial(codes: seq<Lines>, diff: (Lines, Lines) -> nat, i: nat, j: nat, p: nat, q: nat): real
    requires p < |codes| && q < |codes|
  {
    var hi := if p >= q then p else q;
    var lo := if p >= q then q else p;
    if hi < i || (hi == i && lo < j) then CodeCompare(codes[hi], codes[lo], diff)
    else if lo < i || (lo == i && hi < j) then CodeCompare(codes[lo], codes[hi], diff)
    else 0.0
  }

  /**
   * `_code_diff_similarity`: the n-by-n similarity matrix, filled by the
   * source's nested loop with mirrored writes, and each code's mean similarity
   * to the others. The matrix is symmetric with 1 on the diagonal and entries
   * in [-1, 1]; an empty input gives empty results.
   */
  method CodeDiffSimilarity(codes: seq<Lines>, diff: (Lines, Lines) -> nat)
    returns (mean: seq<Option<real>>, matrix: array2<real>)
    requires ValidDiff(diff)
    ensures fresh(matrix)
    ensures matrix.Length0 == |codes| && matrix.Length1 == |codes| && |mean| == |codes|
    ensures forall p, q :: 0 <= p < |codes| && 0 <= q < |codes| ==> matrix[p, q] == Entry(codes, diff, p, q)
    ensures forall p, q :: 0 <= p < |codes| && 0 <= q < |codes| ==> matrix[p, q] == matrix[q, p]
    ensures forall p :: 0 <= p < |codes| ==> matrix[p, p] == 1.0
    ensures forall p, q :: 0 <= p < |codes| && 0 <= q < |codes| ==> -1.0 <= matrix[p, q] <= 1.0
    ensures forall p :: 0 <= p < |codes| ==> mean[p] == MeanExcluding(Row(matrix, p), p)
  {
    var n := |codes|;
    if n == 0 {
      matrix := new real[0, 0];
      mean := [];
      return;
    }
    matrix := new real[n, n]((_, _) => 0.0);
    for i := 0 to n
      invariant forall p, q :: 0 <= p < n && 0 <= q < n ==> matrix[p, q] == Partial(codes, diff, i, 0, p, q)
    {
      for j := 0 to n
        invariant forall p, q :: 0 <= p < n && 0 <= q < n ==> matrix[p, q] == Partial(codes, diff, i, j, p, q)
      {
        matrix[i, j] := CodeCompare(codes[i], codes[j], diff);
        matrix[j, i] := matrix[i, j];
        forall p, q | 0 <= p < n && 0 <= q < n
          ensures matrix[p, q] == Partial(codes, diff, i, j + 1, p, q)
        {
          PartialStep(codes, diff, i, j, p, q);
        }
      }
      forall p, q | 0 <= p < n && 0 <= q < n
        ensures matrix[p, q] == Partial(codes, diff, i + 1, 0, p, q)
      {
        PartialNextRow(codes, diff, i, p, q);
      }
    }
    forall p, q | 0 <= p < n && 0 <= q < n
      ensures matrix[p, q] == Entry(codes, diff, p, q) && -1.0 <= matrix[p, q] <= 1.0
    {
      if p >= q { CompareBounds(codes[p], codes[q], diff); } else { CompareBounds(codes[q], codes[p], diff); }
    }
    forall p | 0 <= p < n
      ensures matrix[p, p] == 1.0
    {
      CompareSelf(codes[p], diff);
    }
    forall p | 0 <= p < n
      ensures Row(matrix, p) == SimMatrix(codes, diff)[p]
    {
      forall q | 0 <= q < n ensures Row(matrix, p)[q] == SimMatrix(codes, diff)[p][q] {
        SimMatrixAt(codes, diff, p, q);
      }
    }
    mean := MeanSimilarity(SimMatrix(codes, diff));
  }

  lemma PartialStep(codes: seq<Lines>, diff: (Lines, Lines) -> nat, i: nat, j: nat, p: nat, q: nat)
    requires i < |codes| && j < |codes| && p < |codes| && q < |codes|
    ensures Partial(codes, diff, i, j + 1, p, q) ==
      if (p == i && q == j) || (p == j && q == i) then CodeCompare(codes[i], codes[j], diff)
      else Partial(codes, diff, i, j, p, q)
  {
  }

  lemma PartialNextRow(codes: seq<Lines>, diff: (Lines, Lines) -> nat, i: nat, p: nat, q: nat)
    requires p < |codes| && q < |codes|
    ensures Partial(codes, diff, i, |codes|, p, q) == Partial(codes, diff, i + 1, 0, p, q)
  {
  }

  lemma SimMatrixAt(codes: seq<Lines>, diff: (Lines, Lines) -> nat, p: nat, q: nat)
    requires p < |codes| && q < |codes|
    ensures SimMatrix(codes, diff)[p][q] == Entry(codes, diff, p, q)
  {
  }

  /** Copies of one code body (two or more) are all fully similar to one another on average. */
  lemma {:induction false} MeanOfCopies(codes: seq<Lines>, diff: (Lines, Lines) -> nat)
    requires ValidDiff(diff) && |codes| >= 2
    requires forall p :: 0 <= p < |codes| ==> codes[p] == codes[0]
    ensures MeanSimilarity(SimMatrix(codes, diff)) == seq(|codes|, _ => Some(1.0))
  {
    var m := SimMatrix(codes, diff);
    var n := |codes|;
    CompareSelf(codes[0], diff);
    forall p | 0 <= p < n ensures MeanExcluding(m[p], p) == Some(1.0) {
      forall q | 0 <= q < n ensures m[p][q] == 1.0 {
        SimMatrixAt(codes, diff, p, q);
      }
      MeanOfOnes(m[p], p);
    }
  }

  lemma {:induction false} MeanOfOnes(row: seq<real>, i: nat)
    requires i < |row| && |row| >= 2
    requires forall q :: 0 <= q < |row| ==> row[q] == 1.0
    ensures MeanExcluding(row, i) == Some(1.0)
  {
    var rest := row[..i] + row[i + 1..];
    assert |rest| == |row| - 1;
    forall k | 0 <= k < |rest| ensures rest[k] == 1.0 {
      if k < i { assert rest[k] == row[k]; } else { assert rest[k] == row[k + 1]; }
    }
    SumOfOnes(rest);
    var d := (|row| - 1) as real;
    assert Sum(rest) == d && d > 0.0;
    assert Sum(rest) / d == 1.0;
  }

  lemma {:induction false} SumOfOnes(s: seq<real>)
    requires forall k :: 0 <= k < |s| ==> s[k] == 1.0
    ensures Sum(s) == |s| as real
  {
    if s != [] {
      SumOfOnes(s[1..]);
    }
  }
}
