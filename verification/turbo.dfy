/**
 * The trust-region state of TuRBO: success and failure counters, the
 * region's side length that doubles after enough successes and halves after
 * enough failures, the best value seen, and the restart flag.
 */
module Turbo {
  import opened Numeric

  /** The fields `update_state` changes. */
  datatype Snapshot = Snapshot(length: real, failureCounter: int, successCounter: int,
                               bestValue: real, restartTriggered: bool)

  /** The fields `update_state` only reads. */
  datatype Limits = Limits(lengthMin: real, lengthMax: real, failureTolerance: int, successTolerance: int)

  /** `ceil(max(4 / batch_size, dim / batch_size))`: at least one for a positive batch size. */
  function FailureTolerance(dim: int, batchSize: int): (t: int)
    requires batchSize > 0
    ensures t >= 1
    ensures t as real - 1.0 < 4.0 / batchSize as real || t as real - 1.0 < dim as real / batchSize as real
    ensures 4.0 / batchSize as real <= t as real && dim as real / batchSize as real <= t as real
  {
    Ceil(MaxReal(4.0 / batchSize as real, dim as real / batchSize as real))
  }

  /** A batch improves on the best value when its maximum beats it by more than 0.1% of its magnitude. */
  predicate Improves(best: real, yMax: real) {
    yMax > best + 0.001 * Abs(best)
  }

  /**
   * The state after one `update_state` with a batch whose largest value is
   * `yMax`. At most one counter is non-zero afterwards; the best value becomes
   * the larger of the old best and `yMax`, so it never decreases; the restart
   * flag is set once the length falls below the minimum and is never cleared.
   */
  function Next(lim: Limits, s: Snapshot, yMax: real): (n: Snapshot)
    ensures n.successCounter == 0 || n.failureCounter == 0
    ensures n.bestValue == MaxReal(s.bestValue, yMax) && n.bestValue >= s.bestValue
    ensures n.restartTriggered <==> s.restartTriggered || n.length < lim.lengthMin
  {
    var sc := if Improves(s.bestValue, yMax) then s.successCounter + 1 else 0;
    var fc := if Improves(s.bestValue, yMax) then 0 else s.failureCounter + 1;
    var expand := sc == lim.successTolerance;
    var shrink := !expand && fc == lim.failureTolerance;
    var length := if expand then MinReal(2.0 * s.length, lim.lengthMax)
                  else if shrink then s.length / 2.0 else s.length;
    Snapshot(length,
             if shrink then 0 else fc,
             if expand then 0 else sc,
             MaxReal(s.bestValue, yMax),
             s.restartTriggered || length < lim.lengthMin)
  }

  /**
   * A success counts up and clears the failures, a failure the reverse;
   * reaching the success tolerance doubles the length (capped at the maximum)
   * and clears the successes; otherwise reaching the failure tolerance halves
   * it and clears the failures; otherwise the length stays. The two never
   * happen in the same update.
   */
  lemma NextSpec(lim: Limits, s: Snapshot, yMax: real)
    requires lim.successTolerance >= 1 && lim.failureTolerance >= 1
    ensures var n := Next(lim, s, yMax);
      && (Improves(s.bestValue, yMax) && s.successCounter + 1 == lim.successTolerance ==>
            n.length == MinReal(2.0 * s.length, lim.lengthMax) && n.successCounter == 0 && n.failureCounter == 0)
      && (Improves(s.bestValue, yMax) && s.successCounter + 1 != lim.successTolerance ==>
            n.length == s.length && n.successCounter == s.successCounter + 1 && n.failureCounter == 0)
      && (!Improves(s.bestValue, yMax) && s.failureCounter + 1 == lim.failureTolerance ==>
            n.length == s.length / 2.0 && n.successCounter == 0 && n.failureCounter == 0)
      && (!Improves(s.bestValue, yMax) && s.failureCounter + 1 != lim.failureTolerance ==>
            n.length == s.length && n.successCounter == 0 && n.failureCounter == s.failureCounter + 1)
  {
  }

  /** The state `TurboState` keeps between updates. */
  predicate Bounded(lim: Limits, s: Snapshot) {
    && 0 <= s.successCounter < lim.successTolerance
    && 0 <= s.failureCounter < lim.failureTolerance
    && 0.0 < s.length <= lim.lengthMax
  }

  /** Counters below their tolerances stay below them, and a length within (0, max] stays within it. */
  lemma NextBounded(lim: Limits, s: Snapshot, yMax: real)
    requires Bounded(lim, s)
    ensures Bounded(lim, Next(lim, s, yMax))
  {
  }

  /** The state after a series of batches, given by their maxima. */
  function Run(lim: Limits, s: Snapshot, maxima: seq<real>): Snapshot
    decreases |maxima|
  {
    if maxima == [] then s else Run(lim, Next(lim, s, maxima[0]), maxima[1..])
  }

  /**
   * Over any series of batches the counters and the length stay bounded,
   * the best value is at least every batch maximum and never below the
   * starting best, and a restart once triggered stays triggered.
   */
  lemma {:induction false} RunInvariant(lim: Limits, s: Snapshot, maxima: seq<real>)
    requires Bounded(lim, s)
    ensures Bounded(lim, Run(lim, s, maxima))
    ensures Run(lim, s, maxima).bestValue >= s.bestValue
    ensures forall i :: 0 <= i < |maxima| ==> Run(lim, s, maxima).bestValue >= maxima[i]
    ensures s.restartTriggered ==> Run(lim, s, maxima).restartTriggered
    decreases |maxima|
  {
    if maxima != [] {
      var n := Next(lim, s, maxima[0]);
      NextBounded(lim, s, maxima[0]);
      RunInvariant(lim, n, maxima[1..]);
      assert forall i :: 1 <= i < |maxima| ==> maxima[i] == maxima[1..][i - 1];
    }
  }

  /** `TurboState`, the dataclass that the optimiser loop updates in place. */
  class TurboState {
    const dim: int
    const batchSize: int
    var length: real
    var lengthMin: real
    var lengthMax: real
    var failureCounter: int
    var failureTolerance: int
    var successCounter: int
    var successTolerance: int
    var bestValue: real
    var restartTriggered: bool

    function State(): Snapshot
      reads this
    {
      Snapshot(length, failureCounter, successCounter, bestValue, restartTriggered)
    }

    function Config(): Limits
      reads this
    {
      Limits(lengthMin, lengthMax, failureTolerance, successTolerance)
    }

    /**
     * `TurboState(dim, batch_size=..., best_value=...)` with the remaining
     * defaults: length 0.8 within [0.5^7, 1.6], zero counters, success
     * tolerance 10, and the failure tolerance set by `__post_init__`.
     */
    constructor (dim: int, batchSize: int, bestValue: real)
      requires batchSize > 0
      ensures this.dim == dim && this.batchSize == batchSize && this.bestValue == bestValue
      ensures length == 0.8 && lengthMin == 0.0078125 && lengthMax == 1.6
      ensures failureCounter == 0 && successCounter == 0 && successTolerance == 10
      ensures failureTolerance == FailureTolerance(dim, batchSize)
      ensures !restartTriggered
      ensures Bounded(Config(), State())
    {
      this.dim := dim;
      this.batchSize := batchSize;
      this.bestValue := bestValue;
      length := 0.8;
      lengthMin := 0.0078125;
      lengthMax := 1.6;
      failureCounter := 0;
      successCounter := 0;
      successTolerance := 10;
      restartTriggered := false;
      failureTolerance := FailureTolerance(dim, batchSize);
    }

    /** `update_state(state, Y_next)` for a non-empty batch of new values. */
    method UpdateState(yNext: seq<real>)
      requires |yNext| > 0
      modifies this
      ensures State() == Next(old(Config()), old(State()), MaxOf(yNext))
      ensures Config() == old(Config())
    {
      var yMax := MaxOf(yNext);
      if yMax > bestValue + 0.001 * Abs(bestValue) {
        successCounter := successCounter + 1;
        failureCounter := 0;
      } else {
        successCounter := 0;
        failureCounter := failureCounter + 1;
      }

      if successCounter == successTolerance {
        length := MinReal(2.0 * length, lengthMax);
        successCounter := 0;
      } else if failureCounter == failureTolerance {
        length := length / 2.0;
        failureCounter := 0;
      }

      bestValue := MaxReal(bestValue, yMax);
      if length < lengthMin {
        restartTriggered := true;
      }
    }
  }
}
