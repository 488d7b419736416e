/** firmware/scheduler/scheduler.c: a static table of periodic tasks, dispatched by a
    32-bit millisecond clock that wraps, over unbounded time. */
module Scheduler {
  import opened Bytes

  const MAX_TASKS := 4
  const WRAP := 0x1_0000_0000

  /** A `scheduler_task_t`; a task function is known by its number. */
  datatype Entry = Entry(task: Option<nat>, period: nat, lastRun: nat, active: bool)

  const FREE := Entry(None, 0, 0, false)

  predicate Due(e: Entry, now: nat) {
    e.active && Sub32(now, e.lastRun) >= e.period
  }

  /** The slots that a pass at `now` dispatches, among the first `n`. */
  function DueSlots(table: seq<Entry>, now: nat, n: nat): seq<nat>
    requires n <= |table|
  {
    if n == 0 then []
    else DueSlots(table, now, n - 1) + (if Due(table[n - 1], now) then [n - 1] else [])
  }

  /** The table after the first `n` slots of a pass. */
  function Ticked(table: seq<Entry>, now: nat, n: nat): (r: seq<Entry>)
    requires n <= |table|
    ensures |r| == |table|
    ensures forall k :: 0 <= k < n ==>
      r[k] == if Due(table[k], now) then table[k].(lastRun := now) else table[k]
    ensures r[n..] == table[n..]
  {
    if n == 0 then table
    else
      var r := Ticked(table, now, n - 1);
      if Due(table[n - 1], now) then r[n - 1 := table[n - 1].(lastRun := now)] else r
  }

  /** A pass dispatches exactly the due slots, once each, in registration order. */
  lemma {:induction false} OnceInOrder(table: seq<Entry>, now: nat, n: nat)
    requires n <= |table|
    ensures var order := DueSlots(table, now, n);
      && (forall k :: k in order <==> 0 <= k < n && Due(table[k], now))
      && (forall i, j :: 0 <= i < j < |order| ==> order[i] < order[j])
  {
    if n > 0 {
      OnceInOrder(table, now, n - 1);
      var before := DueSlots(table, now, n - 1);
      assert forall i :: 0 <= i < |before| ==> before[i] in before;
    }
  }

  predicate IsFirstFree(table: seq<Entry>, k: nat) {
    k < |table| && !table[k].active && forall j :: 0 <= j < k ==> table[j].active
  }

  class Scheduler {
    const tasks: array<Entry>

    ghost predicate Valid()
      reads this, tasks
    {
      && tasks.Length == MAX_TASKS
      && forall k :: 0 <= k < MAX_TASKS && tasks[k].active ==>
           tasks[k].task.Some? && 0 < tasks[k].period < WRAP && tasks[k].lastRun < WRAP
    }

    /** `scheduler_init`. */
    constructor ()
      ensures Valid() && fresh(tasks) && tasks[..] == [FREE, FREE, FREE, FREE]
    {
      tasks := new Entry[MAX_TASKS](_ => FREE);
    }

    /** `scheduler_add_task` at clock reading `now`. */
    method AddTask(task: Option<nat>, period: nat, now: nat) returns (added: bool)
      requires Valid() && period < WRAP && now < WRAP
      modifies tasks
      ensures Valid()
      ensures added <==> task.Some? && period != 0
                         && exists k :: 0 <= k < MAX_TASKS && !old(tasks[k].active)
      ensures !added ==> tasks[..] == old(tasks[..])
      ensures added ==> exists k: nat :: k < MAX_TASKS && IsFirstFree(old(tasks[..]), k)
                          && tasks[..] == old(tasks[..])[k := Entry(task, period, now, true)]
    {
      if task.None? || period == 0 {
        return false;
      }
      for index := 0 to MAX_TASKS
        invariant tasks[..] == old(tasks[..])
        invariant forall j :: 0 <= j < index ==> old(tasks[j].active)
      {
        if !tasks[index].active {
          tasks[index] := Entry(task, period, now, true);
          assert IsFirstFree(old(tasks[..]), index);
          assert tasks[..] == old(tasks[..])[index := Entry(task, period, now, true)];
          return true;
        }
      }
      added := false;
    }

    /** `scheduler_run`; the calls it makes are the slots in `order`. */
    method Run(now: nat) returns (order: seq<nat>)
      requires Valid() && now < WRAP
      modifies tasks
      ensures Valid()
      ensures order == DueSlots(old(tasks[..]), now, MAX_TASKS)
      ensures tasks[..] == Ticked(old(tasks[..]), now, MAX_TASKS)
    {
      hide Ticked;
      order := [];
      for index := 0 to MAX_TASKS
        invariant order == DueSlots(old(tasks[..]), now, index)
        invariant forall k :: 0 <= k < index ==>
          tasks[k] == if Due(old(tasks[..])[k], now) then old(tasks[k]).(lastRun := now)
                      else old(tasks[k])
        invariant forall k :: index <= k < MAX_TASKS ==> tasks[k] == old(tasks[k])
      {
        if tasks[index].active && Sub32(now, tasks[index].lastRun) >= tasks[index].period {
          tasks[index] := tasks[index].(lastRun := now);
          order := order + [index];
        }
      }
    }
  }

  // ----- unbounded time -----

  /** Pass times never go back and are at most `g` apart, from `from` on. */
  predicate Paced(from: nat, passes: seq<nat>, g: nat)
    decreases |passes|
  {
    |passes| > 0 ==> from <= passes[0] <= from + g && Paced(passes[0], passes[1..], g)
  }

  function End(from: nat, passes: seq<nat>): nat {
    if |passes| == 0 then from else passes[|passes| - 1]
  }

  /** The times of the passes that dispatch slot `k`. */
  function TimesOf(table: seq<Entry>, passes: seq<nat>, k: nat): seq<nat>
    decreases |passes|
  {
    if |passes| == 0 then []
    else
      var now := passes[0] % WRAP;
      (if k in DueSlots(table, now, |table|) then [passes[0]] else [])
        + TimesOf(Ticked(table, now, |table|), passes[1..], k)
  }

  /** What the wrapped comparison is meant to compute: dispatch as soon as a pass is a whole
      period after the last dispatch. */
  function Dispatches(last: nat, period: nat, passes: seq<nat>): seq<nat>
    decreases |passes|
  {
    if |passes| == 0 then []
    else if passes[0] - last >= period then
      [passes[0]] + Dispatches(passes[0], period, passes[1..])
    else Dispatches(last, period, passes[1..])
  }

  /** The wrapping clock does not show, however long the run. */
  lemma {:induction false} WrapIsInvisible(table: seq<Entry>, k: nat, last: nat, from: nat,
                                           passes: seq<nat>, g: nat)
    requires k < |table| && table[k].active && table[k].lastRun == last % WRAP
    requires 0 < table[k].period && table[k].period + g <= WRAP
    requires last <= from < last + table[k].period && Paced(from, passes, g)
    ensures TimesOf(table, passes, k) == Dispatches(last, table[k].period, passes)
    decreases |passes|
  {
    if |passes| > 0 {
      var t := passes[0];
      Sub32OfWrapped(t, last);
      OnceInOrder(table, t % WRAP, |table|);
      var next := Ticked(table, t % WRAP, |table|);
      if t - last >= table[k].period {
        WrapIsInvisible(next, k, t, t, passes[1..], g);
      } else {
        WrapIsInvisible(next, k, last, t, passes[1..], g);
      }
    }
  }

  /** Consecutive entries of `[last] + times` are between `lo` and `hi` apart. */
  ghost predicate Spaced(last: nat, times: seq<nat>, lo: nat, hi: nat) {
    forall i :: 0 <= i < |times| ==> lo <= Gap(last, times, i) <= hi
  }

  function Gap(last: nat, times: seq<nat>, i: nat): int
    requires i < |times|
  {
    times[i] - (if i == 0 then last else times[i - 1])
  }

  lemma {:induction false} DispatchesAreSpaced(last: nat, period: nat, from: nat,
                                               passes: seq<nat>, g: nat)
    requires 0 < period && last <= from < last + period && Paced(from, passes, g)
    ensures Spaced(last, Dispatches(last, period, passes), period, period + g - 1)
    ensures End(from, passes) < End(last, Dispatches(last, period, passes)) + period
    decreases |passes|
  {
    if |passes| > 0 {
      var t, rest := passes[0], passes[1..];
      if t - last >= period {
        DispatchesAreSpaced(t, period, t, rest, g);
        var later := Dispatches(t, period, rest);
        var all := Dispatches(last, period, passes);
        assert all == [t] + later;
        forall i | 0 <= i < |all| ensures period <= Gap(last, all, i) <= period + g - 1 {
          if i > 0 {
            assert Gap(last, all, i) == Gap(t, later, i - 1);
          }
        }
      } else {
        DispatchesAreSpaced(last, period, t, rest, g);
      }
    }
  }

  /** With passes at most `g` ms apart, a task of period `p` is dispatched every `p` to
      `p + g - 1` ms, for ever, and is never a whole period overdue after a pass. */
  lemma PeriodIsKept(table: seq<Entry>, k: nat, last: nat, passes: seq<nat>, g: nat)
    requires k < |table| && table[k].active && table[k].lastRun == last % WRAP
    requires 0 < table[k].period && table[k].period + g <= WRAP && Paced(last, passes, g)
    ensures var p, times := table[k].period, TimesOf(table, passes, k);
      Spaced(last, times, p, p + g - 1) && End(last, passes) < End(last, times) + p
  {
    WrapIsInvisible(table, k, last, last, passes, g);
    DispatchesAreSpaced(last, table[k].period, last, passes, g);
  }

  /** With a pass in every millisecond, dispatch times are exactly `last + (i + 1) * p`. */
  lemma {:induction false} ExactAtFullRate(table: seq<Entry>, k: nat, last: nat,
                                           passes: seq<nat>, i: nat)
    requires k < |table| && table[k].active && table[k].lastRun == last % WRAP
    requires 0 < table[k].period < WRAP && Paced(last, passes, 1)
    requires i < |TimesOf(table, passes, k)|
    ensures TimesOf(table, passes, k)[i] == last + (i + 1) * table[k].period
    decreases i
  {
    PeriodIsKept(table, k, last, passes, 1);
    var p, times := table[k].period, TimesOf(table, passes, k);
    assert p <= Gap(last, times, i) <= p + 1 - 1;
    if i > 0 {
      ExactAtFullRate(table, k, last, passes, i - 1);
      assert (i + 1) * p == i * p + p;
    }
  }

  /** The bound on the gap is sharp: a pass that comes a whole wrap after the last dispatch
      reads a difference of 0 and dispatches nothing. */
  lemma LateByAWrap(e: Entry, last: nat)
    requires e.active && 0 < e.period < WRAP && e.lastRun == last % WRAP
    ensures Due(e, (last + WRAP - 1) % WRAP) && !Due(e, (last + WRAP) % WRAP)
  {
    assert (last + WRAP) % WRAP == last % WRAP;
    Sub32OfWrapped(last + WRAP - 1, last);
  }
}
