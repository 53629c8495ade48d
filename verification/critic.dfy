/**
 * The bookkeeping of the injected critic: the per-function call profiler,
 * the metric lists padded to the evaluation count, the `ignore_metric`
 * switch, and the injected maximisation flag. Metric values are reals,
 * with NaN as None; the model-quality numbers themselves (r², uncertainty)
 * come from the surrogate model and are parameters here.
 */
module InjectedCritic {
  import opened Wrappers
  import opened Numeric

  // ------------------------------------------------------------ profiler

  /** How a wrapped call ends: it returns a value, or it raises and the exception propagates. */
  datatype Outcome<R> = Returned(value: R) | Raised(error: string)

  /** One line of the profiling report. */
  datatype ReportLine = ReportLine(name: string, callCount: nat, totalTime: real, avgTime: real)

  predicate Distinct(s: seq<string>) {
    forall i, j :: 0 <= i < j < |s| ==> s[i] != s[j]
  }

  /** `total / count if count > 0 else 0`. */
  function Average(total: real, count: nat): (avg: real)
    ensures count > 0 ==> avg * count as real == total
    ensures count == 0 ==> avg == 0.0
  {
    if count > 0 then total / count as real else 0.0
  }

  /** A mean of non-negative durations lies between zero and their largest. */
  lemma {:induction false} AverageBounds(times: seq<real>)
    requires NonNegative(times)
    ensures Average(Sum(times), |times|) >= 0.0
    ensures |times| > 0 ==> Average(Sum(times), |times|) <= MaxOf(times)
  {
    SumNonNegative(times);
    if |times| > 0 {
      var m, n := MaxOf(times), |times| as real;
      SumAtMost(times, m);
      DivBelow(Sum(times), n, m);
    }
  }

  /** For a positive divisor, a non-negative total divided stays non-negative, and below `bound` when the total is below `bound` times the divisor. */
  lemma {:induction false} DivBelow(total: real, n: real, bound: real)
    requires n > 0.0 && 0.0 <= total <= n * bound
    ensures 0.0 <= total / n <= bound
  {
    var q := total / n;
    assert q * n == total;
    if q > bound {
      assert q * n > bound * n;
    }
  }

  lemma {:induction false} SumAtMost(s: seq<real>, bound: real)
    requires forall i :: 0 <= i < |s| ==> s[i] <= bound
    ensures Sum(s) <= |s| as real * bound
  {
    if s != [] {
      SumAtMost(s[1..], bound);
    }
  }

  /** One function's entry of the report. */
  function LineOf(f: string, times: seq<real>, count: nat): (l: ReportLine)
    ensures l.name == f && l.callCount == count && l.totalTime == Sum(times)
    ensures count > 0 ==> l.avgTime * count as real == l.totalTime
    ensures count == 0 ==> l.avgTime == 0.0
  {
    ReportLine(f, count, Sum(times), Average(Sum(times), count))
  }

  /** The report lines of the functions `fs`, in that order. */
  function ReportOf(fs: seq<string>, times: map<string, seq<real>>, counts: map<string, nat>): (lines: seq<ReportLine>)
    requires forall i :: 0 <= i < |fs| ==> fs[i] in times && fs[i] in counts && |times[fs[i]]| == counts[fs[i]]
    ensures |lines| == |fs|
    ensures forall i :: 0 <= i < |lines| ==>
      lines[i].name == fs[i] && lines[i].callCount == |times[fs[i]]| && lines[i].totalTime == Sum(times[fs[i]])
      && (lines[i].callCount > 0 ==> lines[i].avgTime * lines[i].callCount as real == lines[i].totalTime)
      && (lines[i].callCount == 0 ==> lines[i].avgTime == 0.0)
  {
    seq(|fs|, i requires 0 <= i < |fs| => LineOf(fs[i], times[fs[i]], counts[fs[i]]))
  }

  /**
   * The profiler's invariant: both dictionaries have the same keys, each
   * count is the number of recorded durations, and every duration is
   * non-negative (the clock is monotonic).
   */
  ghost predicate Consistent(names: seq<string>, times: map<string, seq<real>>, counts: map<string, nat>) {
    Distinct(names)
    && (forall f :: f in times <==> f in names)
    && times.Keys == counts.Keys
    && (forall f :: f in times ==> |times[f]| == counts[f])
    && forall f :: f in times ==> NonNegative(times[f])
  }

  /** Every duration in `s` is at least zero. */
  predicate NonNegative(s: seq<real>) {
    forall i :: 0 <= i < |s| ==> s[i] >= 0.0
  }

  /** Recording one duration keeps the dictionaries consistent. */
  lemma RecordConsistent(names: seq<string>, times: map<string, seq<real>>, counts: map<string, nat>, f: string, t: real)
    requires Consistent(names, times, counts) && t >= 0.0
    ensures var old_times := if f in times then times[f] else [];
      var old_count := if f in counts then counts[f] else 0;
      Consistent(names + (if f in times then [] else [f]), times[f := old_times + [t]], counts[f := old_count + 1])
  {
    if f !in times {
      assert f !in names;
    }
  }

  /** Every registered name has durations and a count, and the two agree. */
  lemma ConsistentNames(names: seq<string>, times: map<string, seq<real>>, counts: map<string, nat>)
    requires Consistent(names, times, counts)
    ensures forall i :: 0 <= i < |names| ==> names[i] in times && names[i] in counts && |times[names[i]]| == counts[names[i]]
  {
    forall i | 0 <= i < |names| ensures names[i] in times {
      assert names[i] in names;
    }
  }

  /** `FunctionProfiler`: the durations of every call of each profiled function, and the call counts. */
  class FunctionProfiler {
    var name: Option<string>
    /** The dictionary's keys in insertion order, which the report follows. */
    var names: seq<string>
    var executionTimes: map<string, seq<real>>
    var callCounts: map<string, nat>

    /** Both dictionaries have the same keys, each count is the number of recorded durations, and no duration is negative. */
    ghost predicate Valid()
      reads this
    {
      Consistent(names, executionTimes, callCounts)
    }

    constructor ()
      ensures Valid()
      ensures name == None && names == [] && executionTimes == map[] && callCounts == map[]
    {
      name := None;
      names := [];
      executionTimes := map[];
      callCounts := map[];
    }

    /**
     * One call through the `profile` wrapper: the wrapped call's outcome is
     * handed back unchanged. When the call returns, one duration (end minus
     * start, read from the monotonic clock around the call) is appended and
     * the count goes up by one; when it raises, the exception leaves the
     * wrapper before any bookkeeping, so nothing is recorded.
     */
    method Profile<R>(funcName: string, call: () -> Outcome<R>, startTime: real, endTime: real) returns (result: Outcome<R>)
      requires Valid() && startTime <= endTime
      modifies this`names, this`executionTimes, this`callCounts
      ensures Valid()
      ensures result == call()
      ensures result.Raised? ==>
        names == old(names) && executionTimes == old(executionTimes) && callCounts == old(callCounts)
      ensures result.Returned? ==> funcName in executionTimes && funcName in callCounts
      ensures result.Returned? ==> executionTimes == old(executionTimes)[funcName :=
        (if funcName in old(executionTimes) then old(executionTimes)[funcName] else []) + [endTime - startTime]]
      ensures result.Returned? ==> callCounts == old(callCounts)[funcName :=
        (if funcName in old(callCounts) then old(callCounts)[funcName] else 0) + 1]
      ensures result.Returned? ==> names == old(names) + (if funcName in old(executionTimes) then [] else [funcName])
    {
      result := call();
      if result.Raised? {
        return;
      }
      var executionTime := endTime - startTime;
      Record(funcName, executionTime);
    }

    /** The bookkeeping after one call: register the function on its first call, then record the duration. */
    method Record(funcName: string, executionTime: real)
      requires Valid() && executionTime >= 0.0
      modifies this`names, this`executionTimes, this`callCounts
      ensures Valid()
      ensures executionTimes == old(executionTimes)[funcName :=
        (if funcName in old(executionTimes) then old(executionTimes)[funcName] else []) + [executionTime]]
      ensures callCounts == old(callCounts)[funcName :=
        (if funcName in old(callCounts) then old(callCounts)[funcName] else 0) + 1]
      ensures names == old(names) + (if funcName in old(executionTimes) then [] else [funcName])
    {
      var times := if funcName in executionTimes then executionTimes[funcName] else [];
      var count := if funcName in callCounts then callCounts[funcName] else 0;
      RecordConsistent(names, executionTimes, callCounts, funcName, executionTime);
      if funcName !in executionTimes {
        names := names + [funcName];
      }
      executionTimes := executionTimes[funcName := times + [executionTime]];
      callCounts := callCounts[funcName := count + 1];
    }

    /** The figures `print_report` shows, one line per profiled function in insertion order. */
    function Report(): (lines: seq<ReportLine>)
      requires Valid()
      reads this
      ensures |lines| == |names|
      ensures forall i :: 0 <= i < |lines| ==>
        lines[i].name == names[i] && lines[i].callCount == |executionTimes[names[i]]|
        && lines[i].totalTime == Sum(executionTimes[names[i]])
        && (lines[i].callCount > 0 ==> lines[i].avgTime * lines[i].callCount as real == lines[i].totalTime)
        && (lines[i].callCount == 0 ==> lines[i].avgTime == 0.0)
    {
      ConsistentNames(names, executionTimes, callCounts);
      ReportOf(names, executionTimes, callCounts)
    }
  }

  /** Every average in the report is at least zero and at most that function's slowest call. */
  lemma ReportAverageBounds(p: FunctionProfiler)
    requires p.Valid()
    ensures forall i :: 0 <= i < |p.Report()| ==> p.Report()[i].avgTime >= 0.0
    ensures forall i :: 0 <= i < |p.Report()| && p.Report()[i].callCount > 0 ==>
      p.Report()[i].avgTime <= MaxOf(p.executionTimes[p.names[i]])
  {
    var lines := p.Report();
    forall i | 0 <= i < |lines|
      ensures lines[i].avgTime >= 0.0
      ensures lines[i].callCount > 0 ==> lines[i].avgTime <= MaxOf(p.executionTimes[p.names[i]])
    {
      var times := p.executionTimes[p.names[i]];
      assert p.names[i] in p.names;
      AverageBounds(times);
      assert lines[i].avgTime == Average(Sum(times), |times|);
    }
  }

  // -------------------------------------------------------- metric lists

  /** `[nan] * n`; a count of zero or less gives the empty list. */
  function Nans(n: int): (r: seq<Option<real>>)
    ensures |r| == (if n > 0 then n else 0)
    ensures forall i :: 0 <= i < |r| ==> r[i].None?
    decreases if n > 0 then n else 0
  {
    if n <= 0 then [] else [None] + Nans(n - 1)
  }

  /** The list after `_update_r2` / `_update_uncertainty`: padded with NaN up to `nEvals - 1` entries, then the value. */
  function Padded(s: seq<Option<real>>, value: Option<real>, nEvals: int): seq<Option<real>> {
    var nNewPoints := if |s| > 0 then nEvals - |s| else nEvals;
    s + Nans(nNewPoints - 1) + [value]
  }

  /**
   * The old list is kept as a prefix, the value becomes the last entry, the
   * length becomes max(nEvals, old length + 1), and everything in between is NaN.
   */
  lemma {:induction false} PaddedSpec(s: seq<Option<real>>, value: Option<real>, nEvals: int)
    ensures var r := Padded(s, value, nEvals);
      && |r| == (if nEvals > |s| + 1 then nEvals else |s| + 1)
      && r[..|s|] == s
      && r[|r| - 1] == value
      && forall i :: |s| <= i < |r| - 1 ==> r[i].None?
  {
    var r := Padded(s, value, nEvals);
    assert r == s + (Nans(nEvals - |s| - 1) + [value]);
  }

  /** A Python list of metric values, updated in place. */
  class MetricList {
    var values: seq<Option<real>>

    constructor ()
      ensures values == []
    {
      values := [];
    }
  }

  /** `np.mean` of a list of floats: NaN for an empty list or when any entry is NaN. */
  function MeanOf(s: seq<Option<real>>): (r: Option<real>)
    ensures s == [] ==> r.None?
    ensures (exists i :: 0 <= i < |s| && s[i].None?) ==> r.None?
    ensures r.Some? <==> s != [] && forall i :: 0 <= i < |s| ==> s[i].Some?
    ensures r.Some? ==> r.value * |s| as real == Sum(Values(s))
  {
    if s == [] || exists i :: 0 <= i < |s| && s[i].None? then None
    else Some(Sum(Values(s)) / |s| as real)
  }

  function Values(s: seq<Option<real>>): (r: seq<real>)
    requires forall i :: 0 <= i < |s| ==> s[i].Some?
    ensures |r| == |s| && forall i :: 0 <= i < |s| ==> r[i] == s[i].value
  {
    seq(|s|, i requires 0 <= i < |s| requires s[i].Some? => s[i].value)
  }

  /** The mean of equal values is that value. */
  lemma {:induction false} MeanOfConstant(s: seq<Option<real>>, v: real)
    requires |s| > 0 && forall i :: 0 <= i < |s| ==> s[i] == Some(v)
    ensures MeanOf(s) == Some(v)
  {
    SumConstant(Values(s), v);
    assert !exists i :: 0 <= i < |s| && s[i].None?;
    var n := |s| as real;
    assert Sum(Values(s)) == n * v;
    assert (n * v) / n == v;
  }

  /** `AlgorithmCritic`: four metric lists and their per-fit staging lists. */
  class AlgorithmCritic {
    var dim: int
    var nInit: int
    var maximize: bool
    var ignoreMetric: bool
    const r2List: MetricList
    const r2ListOnTrain: MetricList
    const uncertaintyList: MetricList
    const uncertaintyListOnTrain: MetricList
    var tempR2List: seq<Option<real>>
    var tempR2ListOnTrain: seq<Option<real>>
    var tempUncertaintyList: seq<Option<real>>
    var tempUncertaintyListOnTrain: seq<Option<real>>

    /** The four metric lists are four different list objects. */
    predicate Valid()
      reads this
    {
      r2List != r2ListOnTrain && r2List != uncertaintyList && r2List != uncertaintyListOnTrain
      && r2ListOnTrain != uncertaintyList && r2ListOnTrain != uncertaintyListOnTrain
      && uncertaintyList != uncertaintyListOnTrain
    }

    constructor (dim: int)
      ensures Valid()
      ensures this.dim == dim && nInit == 0 && !maximize && !ignoreMetric
      ensures r2List.values == [] && r2ListOnTrain.values == []
      ensures uncertaintyList.values == [] && uncertaintyListOnTrain.values == []
      ensures tempR2List == [] && tempR2ListOnTrain == [] && tempUncertaintyList == [] && tempUncertaintyListOnTrain == []
      ensures fresh(r2List) && fresh(r2ListOnTrain) && fresh(uncertaintyList) && fresh(uncertaintyListOnTrain)
    {
      this.dim := dim;
      nInit := 0;
      maximize := false;
      ignoreMetric := false;
      r2List := new MetricList();
      r2ListOnTrain := new MetricList();
      uncertaintyList := new MetricList();
      uncertaintyListOnTrain := new MetricList();
      tempR2List, tempR2ListOnTrain := [], [];
      tempUncertaintyList, tempUncertaintyListOnTrain := [], [];
    }

    /** `_update_r2(r_squared, n_evals, target_list)`: pads `target` with NaN and appends the value, in place. */
    method UpdateR2(rSquared: Option<real>, nEvals: int, target: MetricList)
      modifies target
      ensures target.values == Padded(old(target.values), rSquared, nEvals)
    {
      var nNewPoints := nEvals;
      if |target.values| > 0 {
        nNewPoints := nEvals - |target.values|;
      }
      var nFill := nNewPoints - 1;
      target.values := target.values + Nans(nFill);
      target.values := target.values + [rSquared];
    }

    /** `_update_uncertainty`: the same padding rule as `_update_r2`. */
    method UpdateUncertainty(uncertainty: Option<real>, nEvals: int, target: MetricList)
      modifies target
      ensures target.values == Padded(old(target.values), uncertainty, nEvals)
    {
      var nNewPoints := nEvals;
      if |target.values| > 0 {
        nNewPoints := nEvals - |target.values|;
      }
      var nFill := nNewPoints - 1;
      target.values := target.values + Nans(nFill);
      target.values := target.values + [uncertainty];
    }

    /**
     * `update_after_model_fit_temp`: stages one fit's four numbers (computed
     * from the surrogate model, which is not part of this model); nothing
     * happens when metrics are ignored.
     */
    method UpdateAfterModelFitTemp(r2: Option<real>, r2OnTrain: Option<real>,
                                   uncertainty: Option<real>, uncertaintyOnTrain: Option<real>)
      modifies this`tempR2List, this`tempR2ListOnTrain, this`tempUncertaintyList, this`tempUncertaintyListOnTrain
      ensures ignoreMetric ==> unchanged(this)
      ensures !ignoreMetric ==>
        && tempR2List == old(tempR2List) + [r2]
        && tempR2ListOnTrain == old(tempR2ListOnTrain) + [r2OnTrain]
        && tempUncertaintyList == old(tempUncertaintyList) + [uncertainty]
        && tempUncertaintyListOnTrain == old(tempUncertaintyListOnTrain) + [uncertaintyOnTrain]
    {
      if ignoreMetric {
        return;
      }
      tempR2List := tempR2List + [r2];
      tempR2ListOnTrain := tempR2ListOnTrain + [r2OnTrain];
      tempUncertaintyList := tempUncertaintyList + [uncertainty];
      tempUncertaintyListOnTrain := tempUncertaintyListOnTrain + [uncertaintyOnTrain];
    }

    /**
     * `update_after_model_fit_with_temp`: each metric list receives the mean
     * of its staging list by the padding rule, and every staging list is
     * emptied; nothing happens when metrics are ignored.
     */
    method UpdateAfterModelFitWithTemp(nEvals: int)
      requires Valid()
      modifies this`tempR2List, this`tempR2ListOnTrain, this`tempUncertaintyList, this`tempUncertaintyListOnTrain
      modifies r2List, r2ListOnTrain, uncertaintyList, uncertaintyListOnTrain
      ensures ignoreMetric ==> unchanged(this, r2List, r2ListOnTrain, uncertaintyList, uncertaintyListOnTrain)
      ensures !ignoreMetric ==>
        && r2List.values == Padded(old(r2List.values), MeanOf(old(tempR2List)), nEvals)
        && r2ListOnTrain.values == Padded(old(r2ListOnTrain.values), MeanOf(old(tempR2ListOnTrain)), nEvals)
        && uncertaintyList.values == Padded(old(uncertaintyList.values), MeanOf(old(tempUncertaintyList)), nEvals)
        && uncertaintyListOnTrain.values ==
           Padded(old(uncertaintyListOnTrain.values), MeanOf(old(tempUncertaintyListOnTrain)), nEvals)
        && tempR2List == [] && tempR2ListOnTrain == [] && tempUncertaintyList == [] && tempUncertaintyListOnTrain == []
    {
      if ignoreMetric {
        return;
      }
      var meanR2 := MeanOf(tempR2List);
      UpdateR2(meanR2, nEvals, r2List);
      tempR2List := [];

      var meanR2OnTrain := MeanOf(tempR2ListOnTrain);
      UpdateR2(meanR2OnTrain, nEvals, r2ListOnTrain);
      tempR2ListOnTrain := [];

      var meanUncertainty := MeanOf(tempUncertaintyList);
      UpdateUncertainty(meanUncertainty, nEvals, uncertaintyList);
      tempUncertaintyList := [];

      var meanUncertaintyOnTrain := MeanOf(tempUncertaintyListOnTrain);
      UpdateUncertainty(meanUncertaintyOnTrain, nEvals, uncertaintyListOnTrain);
      tempUncertaintyListOnTrain := [];
    }

    /**
     * `update_after_model_fit`: the four numbers of one fit go straight into
     * the four metric lists by the padding rule; nothing happens when metrics
     * are ignored.
     */
    method UpdateAfterModelFit(r2OnTrain: Option<real>, r2: Option<real>,
                               uncertainty: Option<real>, uncertaintyOnTrain: Option<real>, nEvals: int)
      requires Valid()
      modifies r2List, r2ListOnTrain, uncertaintyList, uncertaintyListOnTrain
      ensures ignoreMetric ==> unchanged(r2List, r2ListOnTrain, uncertaintyList, uncertaintyListOnTrain)
      ensures !ignoreMetric ==>
        && r2ListOnTrain.values == Padded(old(r2ListOnTrain.values), r2OnTrain, nEvals)
        && r2List.values == Padded(old(r2List.values), r2, nEvals)
        && uncertaintyList.values == Padded(old(uncertaintyList.values), uncertainty, nEvals)
        && uncertaintyListOnTrain.values == Padded(old(uncertaintyListOnTrain.values), uncertaintyOnTrain, nEvals)
    {
      if ignoreMetric {
        return;
      }
      UpdateR2(r2OnTrain, nEvals, r2ListOnTrain);
      UpdateR2(r2, nEvals, r2List);
      UpdateUncertainty(uncertainty, nEvals, uncertaintyList);
      UpdateUncertainty(uncertaintyOnTrain, nEvals, uncertaintyListOnTrain);
    }
  }

  // ------------------------------------------------- injected maximisation

  /**
   * The attributes of an optimiser instance that the flag helpers look at:
   * what its `_is_maximization()` method answers, if it has one, and its
   * `_inject_maximize` attribute, if set.
   */
  class Optimizer {
    const isMaximization: Option<bool>
    var injectMaximize: Option<bool>

    constructor (isMaximization: Option<bool>, injectMaximize: Option<bool>)
      ensures this.isMaximization == isMaximization && this.injectMaximize == injectMaximize
    {
      this.isMaximization := isMaximization;
      this.injectMaximize := injectMaximize;
    }
  }

  /**
   * `get_inject_maximize`: False for no instance; otherwise the instance's own
   * `_is_maximization()` if it has one, else its `_inject_maximize`, else False.
   */
  function GetInjectMaximize(inst: Optimizer?): (r: bool)
    reads inst
    ensures inst == null ==> !r
    ensures inst != null && inst.isMaximization.Some? ==> r == inst.isMaximization.value
    ensures inst != null && inst.isMaximization.None? && inst.injectMaximize.Some? ==> r == inst.injectMaximize.value
    ensures r ==> inst != null && (inst.isMaximization == Some(true) || (inst.isMaximization.None? && inst.injectMaximize == Some(true)))
  {
    if inst == null then false
    else if inst.isMaximization.Some? then inst.isMaximization.value
    else if inst.injectMaximize.Some? then inst.injectMaximize.value
    else false
  }

  /**
   * `set_inject_maximize`: sets `_inject_maximize` on the instance (no
   * instance: nothing happens). Reading the flag back gives the value set,
   * unless the instance answers `_is_maximization()` itself.
   */
  method SetInjectMaximize(inst: Optimizer?, maximize: bool)
    modifies inst
    ensures inst != null ==> inst.injectMaximize == Some(maximize)
    ensures inst != null && inst.isMaximization.None? ==> GetInjectMaximize(inst) == maximize
    ensures inst != null && inst.isMaximization.Some? ==> GetInjectMaximize(inst) == old(GetInjectMaximize(inst))
  {
    if inst == null {
      return;
    }
    inst.injectMaximize := Some(maximize);
  }
}
