/**
 * The replay schedule: the steps `startReplay` queues after its immediate
 * jump to index 0. Each step waits `delay` milliseconds after the previous
 * one fired and then moves the position to `target`.
 */
module Schedule {

  datatype Step = Step(delay: real, target: nat)

  /** The floor on a proportional step's delay, in milliseconds. */
  const MinStepMs: real := 10.0

  /** The fixed cadence used when the real span is not positive, in milliseconds. */
  const FallbackCadenceMs: real := 100.0

  function Max(a: real, b: real): real
  {
    if a >= b then a else b
  }

  /** The real time between the first and last snapshot. */
  function Span(ts: seq<int>): int
    requires |ts| >= 1
  {
    ts[|ts| - 1] - ts[0]
  }

  /** A real gap rescaled so that the whole span takes `seconds` seconds, before the floor. */
  function ScaledGap(gap: int, span: int, seconds: real): real
    requires span > 0
  {
    (gap as real / span as real) * (seconds * 1000.0)
  }

  /** The delay of one proportional step: the scaled gap, but never less than the floor. */
  function ProportionalDelay(gap: int, span: int, seconds: real): real
    requires span > 0
  {
    Max(MinStepMs, ScaledGap(gap, span, seconds))
  }

  /** One step per consecutive pair of timestamps, moving to the later one. */
  function ProportionalSchedule(ts: seq<int>, seconds: real): seq<Step>
    requires |ts| >= 2 && Span(ts) > 0
  {
    seq(|ts| - 1, i requires 0 <= i < |ts| - 1 =>
      Step(ProportionalDelay(ts[i + 1] - ts[i], Span(ts), seconds), i + 1))
  }

  /** The fallback: `count - 1` steps at the fixed cadence, moving one index each. */
  function FixedCadenceSchedule(count: nat): seq<Step>
    requires count >= 1
  {
    seq(count - 1, i requires 0 <= i < count - 1 => Step(FallbackCadenceMs, i + 1))
  }

  /** The steps `startReplay` queues for timestamps `ts` and a requested duration of `seconds`. */
  function ReplaySchedule(ts: seq<int>, seconds: real): seq<Step>
    requires |ts| >= 2
  {
    if Span(ts) <= 0 then FixedCadenceSchedule(|ts|) else ProportionalSchedule(ts, seconds)
  }

  /** Each step moves exactly one index past the previous one. */
  ghost predicate Consecutive(steps: seq<Step>)
  {
    forall k :: 0 < k < |steps| ==> steps[k].target == steps[k - 1].target + 1
  }

  /** Every step waits at least the floor, so the replay always makes progress. */
  ghost predicate DelaysAtLeastFloor(steps: seq<Step>)
  {
    forall k :: 0 <= k < |steps| ==> steps[k].delay >= MinStepMs
  }

  /** The summed delays of `steps`. */
  function SumDelays(steps: seq<Step>): real
  {
    if steps == [] then 0.0 else SumDelays(steps[..|steps| - 1]) + steps[|steps| - 1].delay
  }

  /** Milliseconds from the start of the replay until step k fires (delays are chained). */
  function FireTime(steps: seq<Step>, k: nat): real
    requires k < |steps|
  {
    SumDelays(steps[..k + 1])
  }

  /** The targets of the steps, in firing order. */
  function Targets(steps: seq<Step>): (r: seq<nat>)
    ensures |r| == |steps|
    ensures forall k :: 0 <= k < |steps| ==> r[k] == steps[k].target
  {
    if steps == [] then [] else [steps[0].target] + Targets(steps[1..])
  }

  /** 0, 1, ..., n - 1. */
  function Indices(n: nat): seq<nat>
  {
    seq(n, i => i)
  }

  /**
   * Shape of the schedule in both branches: exactly `|ts| - 1` steps to the
   * indices 1 .. |ts| - 1, each one index past the previous.
   */
  lemma ScheduleTargets(ts: seq<int>, seconds: real)
    requires |ts| >= 2
    ensures |ReplaySchedule(ts, seconds)| == |ts| - 1
    ensures forall k :: 0 <= k < |ts| - 1 ==> ReplaySchedule(ts, seconds)[k].target == k + 1
    ensures Consecutive(ReplaySchedule(ts, seconds))
  {
  }

  /**
   * Delays in both branches: the fixed cadence in the fallback, the floored
   * scaled gap otherwise; never less than the floor.
   */
  lemma ScheduleDelays(ts: seq<int>, seconds: real)
    requires |ts| >= 2
    ensures DelaysAtLeastFloor(ReplaySchedule(ts, seconds))
    ensures Span(ts) <= 0 ==> forall k :: 0 <= k < |ts| - 1 ==> ReplaySchedule(ts, seconds)[k].delay == FallbackCadenceMs
    ensures Span(ts) > 0 ==> forall k :: 0 <= k < |ts| - 1 ==>
              ReplaySchedule(ts, seconds)[k].delay == ProportionalDelay(ts[k + 1] - ts[k], Span(ts), seconds)
  {
  }

  /**
   * Counting the immediate jump to index 0, a replay visits every index
   * exactly once and in order, and ends at the last one.
   */
  lemma ReplayVisitsEveryIndex(ts: seq<int>, seconds: real)
    requires |ts| >= 2
    ensures [0] + Targets(ReplaySchedule(ts, seconds)) == Indices(|ts|)
    ensures ReplaySchedule(ts, seconds)[|ts| - 2].target == |ts| - 1
  {
    ScheduleTargets(ts, seconds);
    StepsToSuccessorsVisitAll(ReplaySchedule(ts, seconds));
  }

  lemma StepsToSuccessorsVisitAll(steps: seq<Step>)
    requires forall k :: 0 <= k < |steps| ==> steps[k].target == k + 1
    ensures [0] + Targets(steps) == Indices(|steps| + 1)
  {
    var visited := [0] + Targets(steps);
    assert |visited| == |steps| + 1;
    forall k | 0 <= k < |visited| ensures visited[k] == k {
      if k > 0 {
        assert visited[k] == Targets(steps)[k - 1];
      }
    }
  }

  /** The fallback schedule ignores the requested duration. */
  lemma FallbackIgnoresDuration(ts: seq<int>, seconds1: real, seconds2: real)
    requires |ts| >= 2 && Span(ts) <= 0
    ensures ReplaySchedule(ts, seconds1) == ReplaySchedule(ts, seconds2) == FixedCadenceSchedule(|ts|)
  {
  }

  lemma {:induction false} SumDelaysPrefixStep(steps: seq<Step>, k: nat)
    requires k < |steps|
    ensures SumDelays(steps[..k + 1]) == SumDelays(steps[..k]) + steps[k].delay
  {
    assert steps[..k + 1][..k] == steps[..k];
  }

  /** In the fallback, step k fires (k + 1) cadences after the start. */
  lemma {:induction false} FallbackFireTimes(ts: seq<int>, seconds: real, k: nat)
    requires |ts| >= 2 && Span(ts) <= 0 && k < |ts| - 1
    ensures FireTime(ReplaySchedule(ts, seconds), k) == (k + 1) as real * FallbackCadenceMs
  {
    var steps := ReplaySchedule(ts, seconds);
    SumDelaysPrefixStep(steps, k);
    if k == 0 {
      assert steps[..0] == [];
    } else {
      FallbackFireTimes(ts, seconds, k - 1);
    }
  }

  lemma ScaledGapAdds(x: int, y: int, span: int, seconds: real)
    requires span > 0
    ensures ScaledGap(x, span, seconds) + ScaledGap(y, span, seconds) == ScaledGap(x + y, span, seconds)
  {
    var s := span as real;
    var d := seconds * 1000.0;
    assert (x as real / s) + (y as real / s) == (x + y) as real / s;
    assert (x as real / s) * d + (y as real / s) * d == ((x as real / s) + (y as real / s)) * d;
  }

  /** No step's scaled gap falls below the floor, so no delay is clamped. */
  ghost predicate Unclamped(ts: seq<int>, seconds: real)
    requires |ts| >= 2 && Span(ts) > 0
  {
    forall i :: 0 <= i < |ts| - 1 ==> ScaledGap(ts[i + 1] - ts[i], Span(ts), seconds) >= MinStepMs
  }

  /** Delays equal to the floored scaled gaps accumulate to at least the scaled offset. */
  lemma {:induction false} AccumulatedScaledGaps(steps: seq<Step>, ts: seq<int>, seconds: real, k: nat)
    requires |ts| >= 2 && Span(ts) > 0 && |steps| == |ts| - 1 && k < |steps|
    requires forall i :: 0 <= i < |steps| ==> steps[i].delay == ProportionalDelay(ts[i + 1] - ts[i], Span(ts), seconds)
    ensures FireTime(steps, k) >= ScaledGap(ts[k + 1] - ts[0], Span(ts), seconds)
    ensures Unclamped(ts, seconds) ==> FireTime(steps, k) == ScaledGap(ts[k + 1] - ts[0], Span(ts), seconds)
  {
    SumDelaysPrefixStep(steps, k);
    if k == 0 {
      assert steps[..0] == [];
    } else {
      AccumulatedScaledGaps(steps, ts, seconds, k - 1);
      ScaledGapAdds(ts[k] - ts[0], ts[k + 1] - ts[k], Span(ts), seconds);
    }
  }

  /**
   * Relative timing is preserved: in the proportional case step k (the move
   * to index k + 1) fires no earlier than that snapshot's real offset from
   * the first, rescaled to the requested duration, and exactly then when
   * no delay is clamped.
   */
  lemma ProportionalFireTimes(ts: seq<int>, seconds: real, k: nat)
    requires |ts| >= 2 && Span(ts) > 0 && k < |ts| - 1
    ensures FireTime(ReplaySchedule(ts, seconds), k) >= ScaledGap(ts[k + 1] - ts[0], Span(ts), seconds)
    ensures Unclamped(ts, seconds) ==>
              FireTime(ReplaySchedule(ts, seconds), k) == ScaledGap(ts[k + 1] - ts[0], Span(ts), seconds)
  {
    ScheduleDelays(ts, seconds);
    AccumulatedScaledGaps(ReplaySchedule(ts, seconds), ts, seconds, k);
  }

  /**
   * In the proportional case the replay takes at least the requested
   * duration, and exactly that long when no delay is clamped.
   */
  lemma ProportionalTotal(ts: seq<int>, seconds: real)
    requires |ts| >= 2 && Span(ts) > 0
    ensures SumDelays(ReplaySchedule(ts, seconds)) >= seconds * 1000.0
    ensures Unclamped(ts, seconds) ==> SumDelays(ReplaySchedule(ts, seconds)) == seconds * 1000.0
  {
    ProportionalFireTimes(ts, seconds, |ts| - 2);
    LastFireTimeIsTotal(ReplaySchedule(ts, seconds));
    FullSpanScalesToDuration(Span(ts), seconds);
  }

  lemma LastFireTimeIsTotal(steps: seq<Step>)
    requires |steps| >= 1
    ensures FireTime(steps, |steps| - 1) == SumDelays(steps)
  {
    assert steps[..|steps|] == steps;
  }

  lemma FullSpanScalesToDuration(span: int, seconds: real)
    requires span > 0
    ensures ScaledGap(span, span, seconds) == seconds * 1000.0
  {
    assert span as real / span as real == 1.0;
  }

  /**
   * Timestamps 0, 100 and 400 ms replayed over 4 seconds: index 1 fires
   * after 1000 ms and index 2 after 4000 ms.
   */
  lemma ExampleProportional()
    ensures ReplaySchedule([0, 100, 400], 4.0) == [Step(1000.0, 1), Step(3000.0, 2)]
    ensures FireTime(ReplaySchedule([0, 100, 400], 4.0), 0) == 1000.0
    ensures FireTime(ReplaySchedule([0, 100, 400], 4.0), 1) == 4000.0
  {
    var steps := ReplaySchedule([0, 100, 400], 4.0);
    assert steps[0] == Step(1000.0, 1);
    assert steps[1] == Step(3000.0, 2);
    assert steps[..1] == [steps[0]] && steps[..1][..0] == [];
    assert steps[..2] == steps && steps[..2][..1] == [steps[0]];
  }

  /** Three equal timestamps: two steps at the fixed cadence, whatever the requested duration. */
  lemma ExampleFallback(seconds: real)
    ensures ReplaySchedule([5, 5, 5], seconds) == [Step(FallbackCadenceMs, 1), Step(FallbackCadenceMs, 2)]
  {
  }

  /** The loop of `startReplay` that builds one timed step per consecutive pair. */
  method BuildProportionalSchedule(ts: seq<int>, seconds: real) returns (steps: seq<Step>)
    requires |ts| >= 2 && Span(ts) > 0
    ensures steps == ProportionalSchedule(ts, seconds)
    ensures |steps| == |ts| - 1
    ensures forall k :: 0 <= k < |steps| ==> steps[k].target == k + 1 && steps[k].delay >= MinStepMs
  {
    var span := ts[|ts| - 1] - ts[0];
    steps := [];
    for i := 0 to |ts| - 1
      invariant steps == ProportionalSchedule(ts, seconds)[..i]
    {
      var gap := ts[i + 1] - ts[i];
      var delay := Max(MinStepMs, (gap as real / span as real) * (seconds * 1000.0));
      assert ProportionalSchedule(ts, seconds)[i] == Step(delay, i + 1);
      assert ProportionalSchedule(ts, seconds)[..i + 1] == ProportionalSchedule(ts, seconds)[..i] + [Step(delay, i + 1)];
      steps := steps + [Step(delay, i + 1)];
    }
  }
}
