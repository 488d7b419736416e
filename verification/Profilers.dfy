/** firmware/diagnostics/runtime_profiler.c and firmware/diagnostics/timing_profiler.c: the
    counters as folds of the whole history of records. */
module Profilers {
  import opened Bytes

  const TASK_COUNT := 4
  const TICKS_PER_MS := 2000
  const WRAP := 0x1_0000_0000

  /** A call of `runtime_profiler_record_execution`, or of `timing_profiler_record` when the
      period does not matter. */
  datatype Execution = Execution(task: nat, ticks: nat, periodMs: nat)

  predicate FitsC(e: Execution) {
    e.task <= UINT8_MAX && e.ticks <= UINT16_MAX && e.periodMs <= UINT16_MAX
  }

  predicate IsOverrun(e: Execution, task: nat) {
    e.task == task && e.ticks > e.periodMs * TICKS_PER_MS
  }

  /** The true sum of ticks, unbounded, over the valid task numbers. */
  function TotalTicks(h: seq<Execution>): nat {
    if |h| == 0 then 0
    else TotalTicks(h[..|h| - 1]) + (if h[|h| - 1].task < TASK_COUNT then h[|h| - 1].ticks else 0)
  }

  /** The true number of overruns of a task. */
  function Overruns(h: seq<Execution>, task: nat): nat {
    if |h| == 0 then 0
    else Overruns(h[..|h| - 1], task) + (if IsOverrun(h[|h| - 1], task) then 1 else 0)
  }

  /** Those executions of the task that took more than 2000 ticks for each ms of their period. */
  ghost function OverrunsIn(h: seq<Execution>, task: nat): set<nat> {
    set i: nat | i < |h| && h[i].task == task && h[i].ticks > 2000 * h[i].periodMs
  }

  lemma {:induction false} OverrunsAreCounted(h: seq<Execution>, task: nat)
    ensures Overruns(h, task) == |OverrunsIn(h, task)|
  {
    if |h| == 0 {
      assert OverrunsIn(h, task) == {};
    } else {
      var n, rest := |h| - 1, h[..|h| - 1];
      OverrunsAreCounted(rest, task);
      assert OverrunsIn(h, task)
        == OverrunsIn(rest, task) + (if IsOverrun(h[n], task) then {n} else {});
    }
  }

  /** Every record of tasks 0 to 3 adds its ticks, and no other does. */
  lemma {:induction false} TicksAddUp(h: seq<Execution>, more: seq<Execution>)
    ensures TotalTicks(h + more) == TotalTicks(h) + TotalTicks(more)
    ensures |more| == 1 ==> TotalTicks(more) == if more[0].task <= 3 then more[0].ticks else 0
    decreases |more|
  {
    if |more| == 0 {
      assert h + more == h;
    } else {
      var n := |more| - 1;
      assert (h + more)[..|h| + n] == h + more[..n];
      TicksAddUp(h, more[..n]);
      assert |more| == 1 ==> TotalTicks(more[..n]) == 0;
    }
  }

  class RuntimeProfiler {
    var busyTicks: nat
    var startMs: nat
    const overrunCount: array<nat>
    ghost var history: seq<Execution>

    /** Saturation commutes with the whole history: what is kept is the true sum and the true
        counts, cut off at the top of their widths. */
    ghost predicate Valid()
      reads this, overrunCount
    {
      && overrunCount.Length == TASK_COUNT
      && busyTicks == Min(0xFFFF_FFFF, TotalTicks(history))
      && forall k :: 0 <= k < TASK_COUNT ==>
           overrunCount[k] == Min(65535, Overruns(history, k))
    }

    /** `runtime_profiler_init`. */
    constructor (nowMs: nat)
      ensures Valid() && history == [] && startMs == nowMs && fresh(overrunCount)
    {
      busyTicks, startMs := 0, nowMs;
      overrunCount := new nat[TASK_COUNT](_ => 0);
      history := [];
    }

    /** `runtime_profiler_record_execution`. */
    method RecordExecution(e: Execution)
      requires Valid() && FitsC(e)
      modifies `busyTicks, `history, overrunCount
      ensures Valid() && history == old(history) + [e]
    {
      history := history + [e];
      assert history[..|history| - 1] == old(history);
      var periodTicks := e.periodMs * TICKS_PER_MS;
      if e.task >= TASK_COUNT {
        return;
      }
      if UINT32_MAX - busyTicks < e.ticks {
        busyTicks := UINT32_MAX;
      } else {
        busyTicks := busyTicks + e.ticks;
      }
      if e.ticks > periodTicks && overrunCount[e.task] != UINT16_MAX {
        overrunCount[e.task] := overrunCount[e.task] + 1;
      }
    }

    /** `runtime_profiler_get_elapsed_ms`: exact for a run shorter than the clock's turn. */
    method ElapsedMs(now: nat, ghost start: nat) returns (ms: nat)
      requires startMs == start % WRAP && start <= now
      ensures now - start < WRAP ==> ms == now - start
    {
      ms := Sub32(now % WRAP, startMs);
      if now - start < WRAP {
        Sub32OfWrapped(now, start);
      }
    }
  }

  // ----- timing_profiler.c -----

  /** A call of `timing_profiler_record_start`, at unwrapped time `time`. */
  datatype Start = Start(task: nat, time: nat, periodMs: nat)

  /** The largest recorded execution time of a task. */
  ghost predicate IsLargestTicks(h: seq<Execution>, task: nat, most: nat) {
    && (forall i :: 0 <= i < |h| && h[i].task == task ==> h[i].ticks <= most)
    && (most == 0 || exists i :: 0 <= i < |h| && h[i].task == task && h[i].ticks == most)
  }

  /** The previous start of the same task, if any. */
  function Previous(h: seq<Start>, task: nat): Option<Start> {
    if |h| == 0 then None
    else if h[|h| - 1].task == task then Some(h[|h| - 1])
    else Previous(h[..|h| - 1], task)
  }

  /** The distance of an interval from its period. */
  function Jitter(interval: int, periodMs: nat): nat {
    if interval >= periodMs then interval - periodMs else periodMs - interval
  }

  function Larger(a: nat, b: nat): nat {
    if b > a then b else a
  }

  /** The largest distance of an interval between consecutive starts of the task from the
      period, with intervals read from the wrapping clock; 0 with fewer than two starts. */
  function WorstJitter(h: seq<Start>, task: nat): nat {
    if |h| == 0 then 0
    else
      var rest, last := h[..|h| - 1], h[|h| - 1];
      var before := WorstJitter(rest, task);
      if last.task != task || Previous(rest, task).None? then before
      else
        Larger(before, Jitter(Sub32(last.time % WRAP, Previous(rest, task).value.time % WRAP),
                              last.periodMs))
  }

  /** Starts `j` and `i` are consecutive starts of the task. */
  ghost predicate IsInterval(h: seq<Start>, task: nat, j: nat, i: nat) {
    && j < i < |h| && h[j].task == task && h[i].task == task
    && forall k :: j < k < i ==> h[k].task != task
  }

  /** Consecutive starts of the task are in order and less than a turn of the clock apart. */
  ghost predicate WithinTurn(h: seq<Start>, task: nat) {
    forall j: nat, i: nat :: IsInterval(h, task, j, i) ==> h[j].time <= h[i].time < h[j].time + WRAP
  }

  /** The interval from `j` to `i`, in true time, is `d` longer or shorter than its period. */
  ghost predicate HasJitter(h: seq<Start>, task: nat, j: nat, i: nat, d: nat) {
    && IsInterval(h, task, j, i)
    && (h[i].time - h[j].time == h[i].periodMs + d || h[i].time - h[j].time == h[i].periodMs - d)
  }

  lemma {:induction false} PreviousIs(h: seq<Start>, task: nat)
    ensures Previous(h, task).None? ==> forall k :: 0 <= k < |h| ==> h[k].task != task
    ensures Previous(h, task).Some? ==>
      exists j: nat :: j < |h| && h[j] == Previous(h, task).value && h[j].task == task
                       && forall k :: j < k < |h| ==> h[k].task != task
  {
    if |h| > 0 {
      var n, rest := |h| - 1, h[..|h| - 1];
      if h[n].task == task {
        assert h[n] == Previous(h, task).value;
      } else {
        PreviousIs(rest, task);
        if Previous(rest, task).Some? {
          var j: nat :| j < n && rest[j] == Previous(rest, task).value && rest[j].task == task
            && forall k :: j < k < n ==> rest[k].task != task;
          assert h[j] == rest[j];
        }
      }
    }
  }

  /** The interval that the last start of a history ends. */
  lemma LastInterval(h: seq<Start>, task: nat) returns (j: nat)
    requires |h| > 0 && h[|h| - 1].task == task
    ensures var n, before := |h| - 1, Previous(h[..|h| - 1], task);
      && (before.Some? ==> IsInterval(h, task, j, n) && h[j] == before.value)
      && forall k: nat :: IsInterval(h, task, k, n) ==> before.Some? && k == j
  {
    var n, rest := |h| - 1, h[..|h| - 1];
    PreviousIs(rest, task);
    j := 0;
    if Previous(rest, task).Some? {
      j :| j < n && rest[j] == Previous(rest, task).value && rest[j].task == task
        && forall k :: j < k < n ==> rest[k].task != task;
      assert forall k: nat :: IsInterval(h, task, k, n) ==> k == j;
    }
  }

  lemma EarlierIntervals(h: seq<Start>, task: nat, n: nat)
    requires n <= |h|
    ensures forall j: nat, i: nat ::
      IsInterval(h[..n], task, j, i) <==> i < n && IsInterval(h, task, j, i)
  {
  }

  /** In a history within turns the worst jitter is the true maximum: no interval is further
      from its period, and some interval is that far unless it is 0. */
  lemma {:induction false} WorstJitterIsMaximum(h: seq<Start>, task: nat)
    requires WithinTurn(h, task)
    ensures forall j: nat, i: nat, d: nat :: HasJitter(h, task, j, i, d) ==> d <= WorstJitter(h, task)
    ensures WorstJitter(h, task) == 0
      || exists j: nat, i: nat :: HasJitter(h, task, j, i, WorstJitter(h, task))
  {
    hide IsInterval, Previous;
    IntervalsEnd(h, task);
    if |h| > 0 {
      var n := |h| - 1;
      var rest, before := h[..n], WorstJitter(h[..n], task);
      IntervalsEnd(rest, task);
      EarlierIntervals(h, task, n);
      assert WithinTurn(rest, task);
      WorstJitterIsMaximum(rest, task);
      forall j: nat, i: nat, d: nat | i < n
        ensures HasJitter(h, task, j, i, d) == HasJitter(rest, task, j, i, d)
      {
      }
      if before != 0 {
        var j: nat, i: nat :| HasJitter(rest, task, j, i, before);
        assert HasJitter(h, task, j, i, before);
      }
      if h[n].task == task {
        LastJitter(h, task);
      }
    }
  }

  /** The distance of the last interval is what is compared. */
  lemma LastJitter(h: seq<Start>, task: nat)
    requires |h| > 0 && h[|h| - 1].task == task && WithinTurn(h, task)
    ensures var n := |h| - 1; var before, worst := WorstJitter(h[..n], task), WorstJitter(h, task);
      && (forall j: nat, d: nat :: HasJitter(h, task, j, n, d) ==> d <= worst)
      && before <= worst
      && (worst == before || exists j: nat :: HasJitter(h, task, j, n, worst))
  {
    hide Previous;
    var n := |h| - 1;
    var k := LastInterval(h, task);
    if Previous(h[..n], task).Some? {
      Sub32OfWrapped(h[n].time, h[k].time);
      assert HasJitter(h, task, k, n, Jitter(h[n].time - h[k].time, h[n].periodMs));
    }
  }

  lemma IntervalsEnd(h: seq<Start>, task: nat)
    ensures forall j: nat, i: nat :: IsInterval(h, task, j, i) ==>
      j < i < |h| && h[i].task == task
  {
  }

  class TimingProfiler {
    const maxTicks: array<nat>
    const lastStartMs: array<nat>
    const maxJitterMs: array<nat>
    const hasStartSample: array<bool>
    ghost var executions: seq<Execution>
    ghost var starts: seq<Start>

    ghost predicate Apart()
      reads this
    {
      && maxTicks.Length == lastStartMs.Length == maxJitterMs.Length == TASK_COUNT
      && hasStartSample.Length == TASK_COUNT
      && maxTicks != lastStartMs && maxTicks != maxJitterMs && lastStartMs != maxJitterMs
    }

    /** What is kept about task `k` is the maximum of its whole history, the jitter cut off
        at 65535. */
    ghost predicate Kept(k: nat)
      requires Apart() && k < TASK_COUNT
      reads this, maxTicks, lastStartMs, maxJitterMs, hasStartSample
    {
      && IsLargestTicks(executions, k, maxTicks[k])
      && maxJitterMs[k] == Min(65535, WorstJitter(starts, k))
      && hasStartSample[k] == Previous(starts, k).Some?
      && (hasStartSample[k] ==> lastStartMs[k] == Previous(starts, k).value.time % WRAP)
    }

    ghost predicate Valid()
      reads this, maxTicks, lastStartMs, maxJitterMs, hasStartSample
    {
      Apart() && forall k: nat :: k < TASK_COUNT ==> Kept(k)
    }

    /** `timing_profiler_init`. */
    constructor ()
      ensures Valid() && executions == [] && starts == []
      ensures fresh(maxTicks) && fresh(lastStartMs) && fresh(maxJitterMs) && fresh(hasStartSample)
    {
      maxTicks := new nat[TASK_COUNT](_ => 0);
      lastStartMs := new nat[TASK_COUNT](_ => 0);
      maxJitterMs := new nat[TASK_COUNT](_ => 0);
      hasStartSample := new bool[TASK_COUNT](_ => false);
      executions, starts := [], [];
    }

    /** `timing_profiler_record`. */
    method Record(e: Execution)
      requires Valid() && FitsC(e)
      modifies `executions, maxTicks
      ensures Valid() && executions == old(executions) + [e]
    {
      ghost var was := maxTicks[..];
      executions := executions + [e];
      if e.task < TASK_COUNT && e.ticks > maxTicks[e.task] {
        maxTicks[e.task] := e.ticks;
      }
      forall k: nat | k < TASK_COUNT ensures Kept(k) {
        assert old(Kept(k));
        OneMoreExecution(old(executions), e, k, was[k]);
      }
    }

    /** `timing_profiler_record_start`. */
    method RecordStart(e: Start)
      requires Valid() && e.periodMs <= UINT16_MAX
      modifies `starts, lastStartMs, maxJitterMs, hasStartSample
      ensures Valid() && starts == old(starts) + [e]
    {
      starts := starts + [e];
      assert starts[..|starts| - 1] == old(starts);
      if e.task < TASK_COUNT {
        assert old(Kept(e.task));
        Sample(e.task, e.time % WRAP, e.periodMs);
      }
      forall k: nat | k < TASK_COUNT ensures Kept(k) {
        assert old(Kept(k));
      }
    }

    /** The part of `timing_profiler_record_start` for a valid task number. */
    method Sample(task: nat, nowMs: nat, periodMs: nat)
      requires Apart() && task < TASK_COUNT && maxJitterMs[task] <= UINT16_MAX
      modifies lastStartMs, maxJitterMs, hasStartSample
      ensures forall k :: 0 <= k < TASK_COUNT && k != task ==>
        && lastStartMs[k] == old(lastStartMs[k]) && maxJitterMs[k] == old(maxJitterMs[k])
        && hasStartSample[k] == old(hasStartSample[k])
      ensures hasStartSample[task] && lastStartMs[task] == nowMs
      ensures maxJitterMs[task] ==
        if old(hasStartSample[task])
        then Min(UINT16_MAX, Larger(old(maxJitterMs[task]),
                                    Jitter(Sub32(nowMs, old(lastStartMs[task])), periodMs)))
        else old(maxJitterMs[task])
    {
      if !hasStartSample[task] {
        lastStartMs[task] := nowMs;
        hasStartSample[task] := true;
        return;
      }
      var actualIntervalMs := Sub32(nowMs, lastStartMs[task]);
      var jitterMs := if actualIntervalMs >= periodMs then actualIntervalMs - periodMs
                      else periodMs - actualIntervalMs;
      var boundedJitterMs := if jitterMs > UINT16_MAX then UINT16_MAX else jitterMs;
      if boundedJitterMs > maxJitterMs[task] {
        maxJitterMs[task] := boundedJitterMs;
      }
      lastStartMs[task] := nowMs;
    }
  }

  lemma OneMoreExecution(h: seq<Execution>, e: Execution, task: nat, most: nat)
    requires IsLargestTicks(h, task, most)
    ensures IsLargestTicks(h + [e], task, if e.task == task then Larger(most, e.ticks) else most)
  {
    var longer := h + [e];
    assert longer[|h|] == e;
    if most != 0 {
      var i :| 0 <= i < |h| && h[i].task == task && h[i].ticks == most;
      assert longer[i] == h[i];
    }
  }
}
