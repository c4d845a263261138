/** The `repeat` driver: it sleeps until the next multiple of the interval
    after its start time, runs the cycle, swallows any Exception the cycle
    raises, and returns after `max_iter + 1` runs when `max_iter` is truthy.
    Time is counted in integer ticks; `clock(i)` is the clock read before the
    i-th sleep and `body(i)` how the i-th run of the cycle ended. */
module Scheduler {
  import opened Wrappers
  import opened Exceptions
  import opened Cycle

  /** `interval_sec - ((time.time() - starttime) % interval_sec)`. Python's `%`
      floors; for a positive divisor that is the same as Dafny's `%`. */
  function SleepFor(interval: int, start: int, now: int): (s: int)
    requires interval > 0
    ensures 0 < s <= interval
    // waking after s ticks lands on start + k * interval
    ensures (now + s - start) % interval == 0
  {
    var s := interval - (now - start) % interval;
    ModOfMultiple(interval, (now - start) / interval + 1, 0);
    assert now + s - start == interval * ((now - start) / interval + 1);
    s
  }

  /** A multiple of n strictly between -n and n is 0. */
  lemma SmallMultipleIsZero(n: int, d: int)
    requires n > 0 && -n < n * d < n
    ensures d == 0
  {
  }

  /** Euclidean division is unique: n * q + r leaves remainder r. */
  lemma ModOfMultiple(n: int, q: int, r: int)
    requires n > 0 && 0 <= r < n
    ensures (n * q + r) % n == r
  {
    var a := n * q + r;
    var d := q - a / n;
    assert n * d == a % n - r;
    SmallMultipleIsZero(n, d);
  }

  /** Two distinct points of the same grid are at least one interval apart. */
  lemma GridGap(interval: int, a: int, b: int)
    requires interval > 0
    requires a % interval == 0 && b % interval == 0 && a < b
    ensures a + interval <= b
  {
    var qa, qb := a / interval, b / interval;
    assert a == interval * qa && b == interval * qb;
    assert qa + 1 <= qb;
    assert interval * (qa + 1) <= interval * qb;
  }

  /** The wake-up is the first grid point strictly after the clock reading:
      no grid point lies between the reading and the wake-up. */
  lemma WakeIsNextGridPoint(interval: int, start: int, now: int, t: int)
    requires interval > 0
    requires now < t && (t - start) % interval == 0
    ensures now + SleepFor(interval, start, now) <= t
  {
    var w := now + SleepFor(interval, start, now);
    if t < w {
      GridGap(interval, t - start, w - start);
    }
  }

  /** No drift: when the next clock reading is not before the previous
      wake-up, the next wake-up is at least one interval after it. */
  lemma NoDrift(interval: int, start: int, now1: int, now2: int)
    requires interval > 0
    requires now2 >= now1 + SleepFor(interval, start, now1)
    ensures now2 + SleepFor(interval, start, now2) >= now1 + SleepFor(interval, start, now1) + interval
  {
    var w1 := now1 + SleepFor(interval, start, now1);
    var w2 := now2 + SleepFor(interval, start, now2);
    GridGap(interval, w1 - start, w2 - start);
  }

  /** `max_iter` is truthy: neither None nor 0. */
  predicate Bounded(maxIter: Option<int>) {
    maxIter.Some? && maxIter.value != 0
  }

  /** How many runs `if max_iter and i >= max_iter: return` allows: the test
      passes after run i = max_iter, or after the first run when max_iter < 0. */
  function Runs(maxIter: Option<int>): nat
    requires Bounded(maxIter)
  {
    if maxIter.value < 0 then 1 else maxIter.value + 1
  }

  /** The outcome is a BaseException that `except Exception` does not catch. */
  predicate Interrupts(o: Outcome) {
    o.Escaped? && !IsException(o.kind)
  }

  /** The sleep before a run: on the grid when the interval is positive, none otherwise. */
  predicate SleepOk(interval: int, start: int, now: int, slept: int) {
    if interval > 0 then 0 < slept <= interval && (now + slept - start) % interval == 0
    else slept == 0
  }

  datatype Iteration = Iteration(slept: int, outcome: Outcome)

  /** Why the observed run ended: `repeat` returned, an exception it does not
      catch left it, or it was still looping after `horizon` runs. */
  datatype Stop = Returned | Propagated(kind: ExcKind) | StillRunning

  /** `repeat`, observed for at most `horizon` runs. */
  method Repeat(interval: int, maxIter: Option<int>, start: int, clock: nat -> int,
                body: nat -> Outcome, horizon: nat)
    returns (log: seq<Iteration>, stop: Stop)
    ensures |log| <= horizon
    ensures forall i :: 0 <= i < |log| ==> log[i].outcome == body(i)
    ensures forall i :: 0 <= i < |log| ==> SleepOk(interval, start, clock(i), log[i].slept)
    // an Exception from the body never ends the loop
    ensures forall i :: 0 <= i < |log| - 1 ==> !Interrupts(body(i))
    ensures stop.Propagated? ==>
      |log| > 0 && Interrupts(body(|log| - 1)) && stop.kind == body(|log| - 1).kind
    // a BaseException outside Exception from the last run made always leaves the loop
    ensures |log| > 0 && Interrupts(body(|log| - 1)) ==> stop == Propagated(body(|log| - 1).kind)
    ensures stop.StillRunning? ==> |log| == horizon
    // a falsy max_iter never returns; a truthy one returns after exactly Runs runs
    ensures stop.Returned? ==> Bounded(maxIter) && |log| == Runs(maxIter)
    ensures Bounded(maxIter) && Runs(maxIter) <= horizon
      && (forall i :: 0 <= i < Runs(maxIter) ==> !Interrupts(body(i)))
      ==> stop == Returned
    ensures !Bounded(maxIter) && (forall i :: 0 <= i < horizon ==> !Interrupts(body(i)))
      ==> stop == StillRunning && |log| == horizon
  {
    log := [];
    var i: nat := 0;
    while i < horizon
      invariant i == |log| <= horizon
      invariant forall k :: 0 <= k < i ==> log[k].outcome == body(k)
      invariant forall k :: 0 <= k < i ==> SleepOk(interval, start, clock(k), log[k].slept)
      invariant forall k :: 0 <= k < i ==> !Interrupts(body(k))
      invariant Bounded(maxIter) ==> i < Runs(maxIter)
    {
      var slept := if interval > 0 then SleepFor(interval, start, clock(i)) else 0;
      var outcome := body(i);
      log := log + [Iteration(slept, outcome)];
      if Interrupts(outcome) {
        stop := Propagated(outcome.kind);
        return;
      }
      if Bounded(maxIter) && i >= maxIter.value {
        stop := Returned;
        return;
      }
      i := i + 1;
    }
    stop := StillRunning;
  }
}
