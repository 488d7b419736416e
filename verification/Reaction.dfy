/** The main loop of firmware/main.c over time: scheduler passes that run the due tasks, and
    the time from an obstacle to safe outputs. */
module Reaction {
  import opened Bytes
  import opened Scheduler
  import opened Safety

  const TASKS := 4
  const ACTUATOR := 0
  const CONTROL := 1
  const SENSOR := 2
  const COMMUNICATION := 3

  /** Task periods in registration order. */
  function Period(k: nat): nat
    requires k < TASKS
  {
    if k == ACTUATOR then 1 else if k == SENSOR then 30 else 10
  }

  /** The machine, the pass in which the measurement in hand was started, and the unwrapped
      time of each task's last dispatch. */
  datatype System = System(m: Machine, started: Option<nat>, last: Dispatched)
  type Dispatched = s: seq<nat> | |s| == TASKS witness [0, 0, 0, 0]

  /** A pass: its unwrapped time, the clock as its tasks read it, the button, and what the
      driver would hand over for the measurement in hand. */
  datatype Pass = Pass(time: nat, clock: nat, pressed: bool, reading: Option<nat>)

  /** The scheduler's table. */
  function Table(last: Dispatched): (t: seq<Entry>)
    ensures |t| == TASKS
  {
    seq(TASKS, k requires 0 <= k < TASKS => Entry(Some(k), Period(k), last[k] % WRAP, true))
  }

  function Order(s: System, p: Pass): seq<nat> {
    DueSlots(Table(s.last), p.time % WRAP, TASKS)
  }

  function CallOf(k: nat, p: Pass, measuring: bool): seq<Call> {
    if k == ACTUATOR then [Actuator(p.clock)]
    else if k == CONTROL then [Control(p.pressed, p.clock)]
    else if k == SENSOR then [Sensor(if measuring then p.reading else None)]
    else []
  }

  function CallsOf(order: seq<nat>, p: Pass, measuring: bool): seq<Call> {
    if |order| == 0 then []
    else
      var n := |order| - 1;
      CallsOf(order[..n], p, measuring) + CallOf(order[n], p, measuring)
  }

  /** One turn of the main loop. */
  function DoPass(s: System, p: Pass): System {
    var order := Order(s, p);
    System(
      Run(s.m, CallsOf(order, p, s.started.Some?)),
      if SENSOR in order then (if s.started.Some? then None else Some(p.time)) else s.started,
      LastAfter(s, p))
  }

  function LastAfter(s: System, p: Pass): Dispatched {
    var order := Order(s, p);
    seq(TASKS, k requires 0 <= k < TASKS => if k in order then p.time else s.last[k])
  }

  /** No task is a period overdue. */
  predicate OnTime(s: System, now: nat) {
    forall k :: 0 <= k < TASKS ==> s.last[k] <= now < s.last[k] + Period(k)
  }

  /** The scheduler calls task `k` in this pass. */
  predicate IsCalled(s: System, p: Pass, k: nat)
    requires k < TASKS
  {
    Due(Table(s.last)[k], p.time % WRAP)
  }

  /** A whole period has gone by, in unwrapped time. */
  predicate IsDue(s: System, p: Pass, k: nat)
    requires k < TASKS
  {
    p.time - s.last[k] >= Period(k)
  }

  lemma DueInTable(s: System, p: Pass, from: nat, g: nat, k: nat)
    requires OnTime(s, from) && from <= p.time <= from + g && 30 + g <= WRAP && k < TASKS
    ensures IsCalled(s, p, k) == IsDue(s, p, k)
  {
    Sub32OfWrapped(p.time, s.last[k]);
  }

  lemma OrderIsCalls(s: System, p: Pass)
    ensures forall k :: k in Order(s, p) <==> 0 <= k < TASKS && IsCalled(s, p, k)
  {
    OnceInOrder(Table(s.last), p.time % WRAP, TASKS);
  }

  /** One task of a pass. */
  function Task(m: Machine, k: nat, p: Pass, measuring: bool): Machine {
    if k == ACTUATOR then Do(m, Actuator(p.clock))
    else if k == CONTROL then Do(m, Control(p.pressed, p.clock))
    else if k == SENSOR then Do(m, Sensor(if measuring then p.reading else None))
    else m
  }

  /** The first `n` tasks of a pass, those that are called. */
  function Tasks(s: System, p: Pass, n: nat): Machine
    requires n <= TASKS
  {
    if n == 0 then s.m
    else
      var m := Tasks(s, p, n - 1);
      if IsCalled(s, p, n - 1) then Task(m, n - 1, p, s.started.Some?) else m
  }

  lemma OneMoreDue(s: System, p: Pass, k: nat)
    requires k < TASKS
    ensures var before := DueSlots(Table(s.last), p.time % WRAP, k);
      DueSlots(Table(s.last), p.time % WRAP, k + 1)
        == if IsCalled(s, p, k) then before + [k] else before
  {
    hide Table, Due;
  }

  lemma OneMoreCall(order: seq<nat>, k: nat, p: Pass, measuring: bool)
    ensures CallsOf(order + [k], p, measuring)
         == CallsOf(order, p, measuring) + CallOf(k, p, measuring)
  {
    hide CallOf;
    assert (order + [k])[..|order|] == order;
  }

  lemma {:induction false} RunTasks(s: System, p: Pass, n: nat)
    requires n <= TASKS
    ensures Run(s.m, CallsOf(DueSlots(Table(s.last), p.time % WRAP, n), p, s.started.Some?))
         == Tasks(s, p, n)
  {
    hide Due, CallOf, Task, IsCalled, Table;
    if n == 0 {
      NoTasks(s, p);
    } else {
      hide DueSlots, Run, CallsOf;
      var k, measuring := n - 1, s.started.Some?;
      var before := DueSlots(Table(s.last), p.time % WRAP, k);
      RunTasks(s, p, k);
      OneMoreDue(s, p, k);
      if IsCalled(s, p, k) {
        OneMoreCall(before, k, p, measuring);
        RunConcat(s.m, CallsOf(before, p, measuring), CallOf(k, p, measuring));
        RunCall(Tasks(s, p, k), k, p, measuring);
      }
    }
  }

  lemma NoTasks(s: System, p: Pass)
    ensures Run(s.m, CallsOf(DueSlots(Table(s.last), p.time % WRAP, 0), p, s.started.Some?)) == s.m
  {
  }

  lemma RunCall(m: Machine, k: nat, p: Pass, measuring: bool)
    ensures Run(m, CallOf(k, p, measuring)) == Task(m, k, p, measuring)
  {
    hide Do;
    var calls := CallOf(k, p, measuring);
    if calls != [] {
      RunOne(m, calls[0]);
      assert calls == [calls[0]];
    }
  }

  /** A pass of the real scheduler does what plain arithmetic on unwrapped times says, keeps
      every task on time, and leaves the table that stands for the new times. */
  lemma PassByTime(s: System, p: Pass, from: nat, g: nat)
    requires OnTime(s, from) && from <= p.time <= from + g && 30 + g <= WRAP
    ensures var r := DoPass(s, p);
      && r.m == Tasks(s, p, TASKS)
      && r.started == (if !IsDue(s, p, SENSOR) then s.started
                       else if s.started.Some? then None else Some(p.time))
      && (forall k :: 0 <= k < TASKS ==> r.last[k] == if IsDue(s, p, k) then p.time else s.last[k])
      && OnTime(r, p.time)
      && (forall k :: 0 <= k < TASKS ==> IsCalled(s, p, k) == IsDue(s, p, k))
  {
    hide Do, Run, Tasks, Table, IsCalled;
    OrderIsCalls(s, p);
    RunTasks(s, p, TASKS);
    forall k | 0 <= k < TASKS ensures IsCalled(s, p, k) == IsDue(s, p, k) {
      DueInTable(s, p, from, g, k);
    }
  }

  /** The scheduler's table after a pass stands for the new dispatch times. */
  lemma TableAfterPass(s: System, p: Pass)
    ensures Table(LastAfter(s, p)) == Ticked(Table(s.last), p.time % WRAP, TASKS)
  {
    OrderIsCalls(s, p);
  }

  // ----- how often each task is called -----

  /** The times of the passes of a run that call task `k`. */
  function CallTimes(s: System, passes: seq<Pass>, k: nat): seq<nat>
    requires k < TASKS
    decreases |passes|
  {
    if |passes| == 0 then []
    else
      (if IsCalled(s, passes[0], k) then [passes[0].time] else [])
        + CallTimes(DoPass(s, passes[0]), passes[1..], k)
  }

  lemma {:induction false} CallTimesByTable(s: System, passes: seq<Pass>, k: nat)
    requires k < TASKS
    ensures CallTimes(s, passes, k) == TimesOf(Table(s.last), Times(passes), k)
    decreases |passes|
  {
    hide Run, IsCalled, Table, CallsOf;
    if |passes| > 0 {
      var p := passes[0];
      assert Times(passes)[1..] == Times(passes[1..]);
      CallTimesByTable(DoPass(s, p), passes[1..], k);
      TableAfterPass(s, p);
      OrderIsCalls(s, p);
    }
  }

  /** Calls of task `k` are `lo` to `hi` ms apart, from its last dispatch on, and at the end of
      the run the last is less than `lo` ms ago. */
  ghost predicate IsCalledEvery(s: System, passes: seq<Pass>, from: nat, k: nat, lo: nat, hi: nat)
    requires k < TASKS
  {
    var times := CallTimes(s, passes, k);
    && Spaced(s.last[k], times, lo, hi)
    && End(from, Times(passes)) < End(s.last[k], times) + lo
  }

  /** The actuator task is called every millisecond, the control and communication tasks every
      10 ms and the sensor task every 30 ms, never early, and late by less than the `g` ms that
      passes may be apart. */
  ghost predicate AreCalledInTime(s: System, passes: seq<Pass>, from: nat, g: nat)
    requires 0 < g
  {
    && IsCalledEvery(s, passes, from, 0, 1, g)
    && IsCalledEvery(s, passes, from, 1, 10, 9 + g)
    && IsCalledEvery(s, passes, from, 2, 30, 29 + g)
    && IsCalledEvery(s, passes, from, 3, 10, 9 + g)
  }

  lemma CalledEvery(s: System, passes: seq<Pass>, from: nat, g: nat, k: nat)
    requires OnTime(s, from) && Paced(from, Times(passes), g) && 0 < g && 30 + g <= WRAP && k < TASKS
    ensures IsCalledEvery(s, passes, from, k, Period(k), Period(k) + g - 1)
  {
    hide Spaced, Due, Paced, Table, CallTimes, TimesOf, Dispatches, End, DoPass, IsCalled;
    CallTimesByTable(s, passes, k);
    EntryOf(s, k);
    WrapIsInvisible(Table(s.last), k, s.last[k], from, Times(passes), g);
    DispatchesAreSpaced(s.last[k], Period(k), from, Times(passes), g);
  }

  lemma EntryOf(s: System, k: nat)
    requires k < TASKS
    ensures Table(s.last)[k] == Entry(Some(k), Period(k), s.last[k] % WRAP, true)
  {
  }

  lemma TasksKeepTheirPeriods(s: System, passes: seq<Pass>, from: nat, g: nat)
    requires OnTime(s, from) && Paced(from, Times(passes), g) && 0 < g && 30 + g <= WRAP
    ensures AreCalledInTime(s, passes, from, g)
  {
    hide IsCalledEvery, OnTime, Paced;
    CalledEvery(s, passes, from, g, 0);
    CalledEvery(s, passes, from, g, 1);
    CalledEvery(s, passes, from, g, 2);
    CalledEvery(s, passes, from, g, 3);
  }

  // ----- from the obstacle to safe outputs -----

  /** The relay, motor and servo are commanded safe, in SAFE_STATE. */
  predicate IsSafe(s: System) {
    s.m.state == SafeState && OutputsAreSafe(s.m)
  }

  /** The button is not pressed, and a measurement started in a pass at or after `t0`, once
      evaluated, is a critical pulse. */
  predicate SeesObstacle(s: System, p: Pass, t0: nat) {
    && !p.pressed
    && (IsCalled(s, p, SENSOR) && s.started.Some? && s.started.value >= t0
        ==> p.reading.Some? && PulseIsCritical(p.reading.value))
  }

  /** An upper bound on the time of safe outputs: the sensor dispatches and the control
      dispatch still to come, each at most `period - 1 + g` after the one before. */
  function Deadline(s: System, t0: nat, g: nat): nat {
    if s.m.state == SafeState then s.last[CONTROL] + 9 + g
    else
      s.last[SENSOR] + 9 + g
        + (29 + g) * (if s.started.None? then 2 else if s.started.value >= t0 then 1 else 3)
  }

  /** On the way: the obstacle is there, the outputs are not safe yet. */
  predicate OnTheWay(s: System, from: nat) {
    && OnTime(s, from) && Inv(s.m) && !IsSafe(s)
    && (s.m.state == Active || s.m.state == SafeState)
  }

  /** A pass either makes the outputs safe or does not move the deadline, which is at least a
      whole gap away. */
  lemma DeadlineHolds(s: System, p: Pass, t0: nat, from: nat, g: nat)
    requires OnTheWay(s, from) && SeesObstacle(s, p, t0)
    requires from <= p.time <= from + g && t0 <= p.time && 30 + g <= WRAP
    ensures var r := DoPass(s, p);
      IsSafe(r) || (OnTheWay(r, p.time) && Deadline(r, t0, g) <= Deadline(s, t0, g))
    ensures from + g <= Deadline(s, t0, g)
  {
    PassByTime(s, p, from, g);
    ActivePass(s, p);
  }

  predicate Detects(s: System, p: Pass) {
    && IsCalled(s, p, SENSOR) && s.started.Some?
    && p.reading.Some? && PulseIsCritical(p.reading.value)
  }

  /** What the calls of a pass do on the way. */
  lemma ActivePass(s: System, p: Pass)
    requires Inv(s.m) && !IsSafe(s) && !p.pressed && (s.m.state == Active || s.m.state == SafeState)
    ensures var m := Tasks(s, p, TASKS);
      && Inv(m) && (m.state == Active || m.state == SafeState)
      && (s.m.state == SafeState ==> m.state == SafeState && (IsCalled(s, p, CONTROL) ==> OutputsAreSafe(m)))
      && (s.m.state == Active && Detects(s, p) ==> m.state == SafeState)
      && (s.m.state == Active && m.state == SafeState ==> IsCalled(s, p, SENSOR) && s.started.Some?)
  {
    hide Do, PulseIsCritical, IsCalled;
    var n0, n1, n2, n3 := 0, 1, 2, 3;
    var m1, m2, m3 := Tasks(s, p, n1), Tasks(s, p, n2), Tasks(s, p, n3);
    assert Tasks(s, p, n0) == s.m;
    assert m1 == if IsCalled(s, p, ACTUATOR) then Do(s.m, Actuator(p.clock)) else s.m;
    OneCall(s.m, Actuator(p.clock));
    ActiveCall(s.m, Actuator(p.clock));
    assert m2 == if IsCalled(s, p, CONTROL) then Do(m1, Control(p.pressed, p.clock)) else m1;
    OneCall(m1, Control(p.pressed, p.clock));
    ActiveCall(m1, Control(p.pressed, p.clock));
    var c := Sensor(if s.started.Some? then p.reading else None);
    OneCall(m2, c);
    ActiveCall(m2, c);
    assert m3 == if IsCalled(s, p, SENSOR) then Do(m2, c) else m2;
    assert Tasks(s, p, TASKS) == m3;
  }

  lemma ActiveCall(m: Machine, c: Call)
    requires c.Control? ==> !c.pressed
    ensures var fault := c.Sensor? && c.reading.Some? && PulseIsCritical(c.reading.value);
      m.state == Active ==> Do(m, c).state == if fault then SafeState else Active
  {
    hide PulseIsCritical, SafeStateLed;
  }

  function DoPasses(s: System, passes: seq<Pass>): System
    decreases |passes|
  {
    if |passes| == 0 then s else DoPasses(DoPass(s, passes[0]), passes[1..])
  }

  function Times(passes: seq<Pass>): (times: seq<nat>)
    ensures |times| == |passes|
  {
    seq(|passes|, i requires 0 <= i < |passes| => passes[i].time)
  }

  /** The obstacle is there in every pass of the run. */
  predicate ObstacleStays(s: System, passes: seq<Pass>, t0: nat)
    decreases |passes|
  {
    |passes| > 0 ==>
      && t0 <= passes[0].time && SeesObstacle(s, passes[0], t0)
      && ObstacleStays(DoPass(s, passes[0]), passes[1..], t0)
  }

  /** By time `bound` some pass has left the outputs safe. */
  ghost predicate SafeBy(s: System, passes: seq<Pass>, bound: nat) {
    exists n: nat :: n < |passes| && passes[n].time <= bound && IsSafe(DoPasses(s, passes[..n + 1]))
  }

  lemma {:induction false} SafeByDeadline(s: System, passes: seq<Pass>, t0: nat, from: nat, g: nat,
                                          bound: nat)
    requires OnTheWay(s, from) && Paced(from, Times(passes), g) && 0 < g && 30 + g <= WRAP
    requires ObstacleStays(s, passes, t0)
    requires Deadline(s, t0, g) <= bound <= End(from, Times(passes))
    ensures SafeBy(s, passes, bound)
    decreases |passes|
  {
    hide DoPass, SeesObstacle, IsSafe, Deadline, OnTheWay;
    if |passes| == 0 {
      SlackLeft(s, t0, from, g);
      assert false;
    } else {
      var p, rest := passes[0], passes[1..];
      var next := DoPass(s, p);
      assert Times(passes)[1..] == Times(rest);
      DeadlineHolds(s, p, t0, from, g);
      if IsSafe(next) {
        assert passes[..1][1..] == [] && passes[..1][0] == p;
        assert DoPasses(s, passes[..1]) == next;
      } else {
        SafeByDeadline(next, rest, t0, p.time, g, bound);
        var n: nat :| n < |rest| && rest[n].time <= bound && IsSafe(DoPasses(next, rest[..n + 1]));
        assert passes[..n + 2][1..] == rest[..n + 1] && passes[n + 1] == rest[n];
        assert DoPasses(s, passes[..n + 2]) == DoPasses(next, rest[..n + 1]);
      }
    }
  }

  lemma SlackLeft(s: System, t0: nat, from: nat, g: nat)
    requires OnTheWay(s, from)
    ensures from + g <= Deadline(s, t0, g)
  {
  }

  /** The reaction bound. The state is ACTIVE when an obstacle appears at `t0`, shortly after
      the pass at `from`; from then on the button is not pressed and what is measured is
      critical. With passes at most `g` ms apart, by `t0 + 95 + 4 * g` the state is SAFE_STATE
      and relay, motor and servo are commanded safe: 99 ms with a pass in every ms. */
  lemma ReactionBound(s: System, passes: seq<Pass>, t0: nat, from: nat, g: nat)
    requires OnTime(s, from) && Inv(s.m) && s.m.state == Active
    requires from < t0 && Paced(from, Times(passes), g) && 0 < g && 30 + g <= WRAP
    requires ObstacleStays(s, passes, t0) && t0 + 95 + 4 * g <= End(from, Times(passes))
    ensures SafeBy(s, passes, t0 + 95 + 4 * g)
  {
    SafeByDeadline(s, passes, t0, from, g, t0 + 95 + 4 * g);
  }

  /** Every run of the main loop from start-up keeps its tasks on time and its invariant, so
      the bound applies at any moment. `boot` is when the tasks were registered. */
  lemma {:induction false} LoopIsOnTime(s: System, passes: seq<Pass>, from: nat, g: nat)
    requires OnTime(s, from) && Inv(s.m) && Paced(from, Times(passes), g) && 30 + g <= WRAP
    ensures var r := DoPasses(s, passes);
      OnTime(r, End(from, Times(passes))) && Inv(r.m)
    decreases |passes|
  {
    hide DoPass, OnTime, Safety.Inv;
    if |passes| > 0 {
      var p := passes[0];
      assert Times(passes)[1..] == Times(passes[1..]);
      PassByTime(s, p, from, g);
      InvAfterPass(s, p);
      LoopIsOnTime(DoPass(s, p), passes[1..], p.time, g);
    }
  }

  lemma InvAfterPass(s: System, p: Pass)
    requires Inv(s.m)
    ensures Inv(DoPass(s, p).m)
  {
    InvIsKept(s.m, CallsOf(Order(s, p), p, s.started.Some?));
  }

  /** Safe outputs stay safe for the rest of the run. */
  lemma {:induction false} StaysSafe(s: System, passes: seq<Pass>)
    requires IsSafe(s) && Inv(s.m)
    ensures IsSafe(DoPasses(s, passes)) && DoPasses(s, passes).m.steps == s.m.steps
    decreases |passes|
  {
    hide Safety.Inv, Do;
    if |passes| > 0 {
      var p := passes[0];
      InvAfterPass(s, p);
      SafeStateIsLatched(s.m, CallsOf(Order(s, p), p, s.started.Some?));
      StaysSafe(DoPass(s, p), passes[1..]);
    }
  }

  // ----- the bound is attained -----

  /** Only a control task that runs after the pass of the fault makes the outputs safe. */
  lemma OnlyControlMakesSafe(s: System, p: Pass)
    requires Inv(s.m) && !IsSafe(s) && !p.pressed && (s.m.state == Active || s.m.state == SafeState)
    requires s.m.state == Active || !IsCalled(s, p, CONTROL)
    ensures var m := Tasks(s, p, TASKS); m.relay && (m.state == Active || m.state == SafeState)
    ensures s.m.state == Active && !Detects(s, p) ==> Tasks(s, p, TASKS).state == Active
  {
    hide Do, PulseIsCritical, IsCalled;
    var n0, n1, n2, n3 := 0, 1, 2, 3;
    var m1, m2 := Tasks(s, p, n1), Tasks(s, p, n2);
    assert Tasks(s, p, n0) == s.m;
    assert m1 == if IsCalled(s, p, ACTUATOR) then Do(s.m, Actuator(p.clock)) else s.m;
    OneCall(s.m, Actuator(p.clock));
    ActiveCall(s.m, Actuator(p.clock));
    assert m2 == if IsCalled(s, p, CONTROL) then Do(m1, Control(p.pressed, p.clock)) else m1;
    OneCall(m1, Control(p.pressed, p.clock));
    ActiveCall(m1, Control(p.pressed, p.clock));
    var c := Sensor(if s.started.Some? then p.reading else None);
    OneCall(m2, c);
    ActiveCall(m2, c);
    assert Tasks(s, p, n3) == if IsCalled(s, p, SENSOR) then Do(m2, c) else m2;
    assert Tasks(s, p, TASKS) == Tasks(s, p, n3);
  }

  /** A pass at `t`, with an echo of 10 cm or none. */
  function At(t: nat, near: bool): Pass {
    Pass(t, t % WRAP, false, if near then Some(1160) else None)
  }

  /** The obstacle comes at 1, just after a start at 0, whose measurement misses it. */
  const WORST: seq<Pass> :=
    [At(29, true), At(59, false), At(88, true), At(118, true),
     At(147, true), At(177, true), At(186, true), At(216, true)]

  const JUST_STARTED: System :=
    System(START.(state := Active, relay := true, motor := true, servoMs := 2, led := true),
           Some(0), [0, 0, 0, 0])

  /** One pass of the worst case, by arithmetic. */
  lemma WorstPass(s: System, from: nat, p: Pass)
    requires OnTime(s, from) && from <= p.time <= from + 30 && !p.pressed && Inv(s.m) && s.m.relay
    requires s.m.state == Active || (s.m.state == SafeState && !IsDue(s, p, CONTROL))
    ensures var r := DoPass(s, p);
      && OnTime(r, p.time) && Inv(r.m) && r.m.relay && !IsSafe(r)
      && (r.m.state == Active || r.m.state == SafeState)
      && (s.m.state == Active && !Detects(s, p) ==> r.m.state == Active)
      && IsCalled(s, p, SENSOR) == IsDue(s, p, SENSOR)
      && (forall k :: 0 <= k < TASKS ==> r.last[k] == if IsDue(s, p, k) then p.time else s.last[k])
      && r.started == (if !IsDue(s, p, SENSOR) then s.started
                       else if s.started.Some? then None else Some(p.time))
  {
    hide Do;
    PassByTime(s, p, from, 30);
    OnlyControlMakesSafe(s, p);
    InvAfterPass(s, p);
  }

  lemma {:induction false} OnePassMore(s: System, passes: seq<Pass>, n: nat)
    requires n < |passes|
    ensures DoPasses(s, passes[..n + 1]) == DoPass(DoPasses(s, passes[..n]), passes[n])
    decreases n
  {
    hide DoPass;
    if n == 0 {
      assert passes[..1][1..] == [];
    } else {
      assert passes[..n + 1][1..] == passes[1..][..n] && passes[..n][1..] == passes[1..][..n - 1];
      OnePassMore(DoPass(s, passes[0]), passes[1..], n - 1);
    }
  }

  /** Where the worst case is after `n` passes: dispatch times of control and sensor. */
  ghost predicate WorstAt(n: nat, s: System, control: nat, sensor: nat, started: Option<nat>)
    requires n <= |WORST|
  {
    && s == DoPasses(JUST_STARTED, WORST[..n])
    && OnTime(s, if n == 0 then 0 else WORST[n - 1].time)
    && Inv(s.m) && s.m.relay && !IsSafe(s)
    && s.last[CONTROL] == control && s.last[SENSOR] == sensor && s.started == started
    && (n <= 5 ==> s.m.state == Active) && (s.m.state == Active || s.m.state == SafeState)
  }

  lemma WorstStep(n: nat, s: System, control: nat, sensor: nat, started: Option<nat>)
    returns (r: System)
    requires n < 7 && WorstAt(n, s, control, sensor, started)
    requires n == 6 ==> control == 177
    requires n < 5 && WORST[n].reading.Some? && WORST[n].time - sensor >= 30 ==> started.None?
    ensures var t := WORST[n].time;
      WorstAt(n + 1, r, if t - control >= 10 then t else control,
              if t - sensor >= 30 then t else sensor,
              if t - sensor < 30 then started else if started.Some? then None else Some(t))
  {
    hide DoPass, DoPasses, OnTime, Safety.Inv, IsSafe, IsCalled;
    OnePassMore(JUST_STARTED, WORST, n);
    r := DoPass(s, WORST[n]);
    WorstPass(s, if n == 0 then 0 else WORST[n - 1].time, WORST[n]);
  }

  lemma {:induction false} PacedByIndex(from: nat, times: seq<nat>, g: nat)
    requires forall i :: 0 <= i < |times| ==> 0 <= Gap(from, times, i) <= g
    ensures Paced(from, times, g)
    decreases |times|
  {
    if |times| > 0 {
      assert Gap(from, times, 0) == times[0] - from;
      forall i | 0 <= i < |times| - 1 ensures 0 <= Gap(times[0], times[1..], i) <= g {
        assert Gap(times[0], times[1..], i) == Gap(from, times, i + 1);
      }
      PacedByIndex(times[0], times[1..], g);
    }
  }

  lemma {:induction false} ObstacleByIndex(s: System, passes: seq<Pass>, t0: nat)
    requires forall i: nat :: i < |passes| ==>
      t0 <= passes[i].time && SeesObstacle(DoPasses(s, passes[..i]), passes[i], t0)
    ensures ObstacleStays(s, passes, t0)
    decreases |passes|
  {
    hide DoPass, SeesObstacle;
    if |passes| > 0 {
      var next, rest := DoPass(s, passes[0]), passes[1..];
      assert passes[..0] == [];
      forall i: nat | i < |rest|
        ensures t0 <= rest[i].time && SeesObstacle(DoPasses(next, rest[..i]), rest[i], t0)
      {
        assert passes[..i + 1][1..] == rest[..i] && rest[i] == passes[i + 1];
      }
      ObstacleByIndex(next, rest, t0);
    }
  }

  lemma WorstObstacle()
    ensures ObstacleStays(JUST_STARTED, WORST, 1)
  {
    hide DoPass, DoPasses, IsCalled;
    NoPass(JUST_STARTED);
    var s1 := WorstStep(0, JUST_STARTED, 0, 0, Some(0));
    ObstacleByIndex(JUST_STARTED, WORST, 1);
  }

  lemma WorstIsUnsafe(n: nat)
    requires n <= 7
    ensures !IsSafe(DoPasses(JUST_STARTED, WORST[..n]))
  {
    hide DoPass, DoPasses, IsCalled, OnTime, IsSafe, Safety.Inv;
    var s0 := JUST_STARTED;
    StartsWorst();
    var s1 := WorstStep(0, s0, 0, 0, Some(0));
    var s2 := WorstStep(1, s1, 29, 0, Some(0));
    var s3 := WorstStep(2, s2, 59, 59, None);
    var s4 := WorstStep(3, s3, 88, 59, None);
    var s5 := WorstStep(4, s4, 118, 118, Some(118));
    var s6 := WorstStep(5, s5, 147, 118, Some(118));
    var s7 := WorstStep(6, s6, 177, 177, None);
  }

  lemma StartsWorst()
    ensures WorstAt(0, JUST_STARTED, 0, 0, Some(0))
  {
    NoPass(JUST_STARTED);
  }

  /** Passes at most 30 ms apart, an obstacle from 1 on, and at 215, one short of the bound,
      the outputs are still on. */
  lemma BoundIsAttained()
    ensures Paced(0, Times(WORST), 30) && ObstacleStays(JUST_STARTED, WORST, 1)
    ensures OnTime(JUST_STARTED, 0) && Inv(JUST_STARTED.m) && JUST_STARTED.m.state == Active
    ensures !SafeBy(JUST_STARTED, WORST, 1 + 95 + 4 * 30 - 1)
  {
    hide DoPass, DoPasses, IsCalled, IsSafe;
    PacedByIndex(0, Times(WORST), 30);
    WorstObstacle();
    forall n: nat | n < |WORST| && WORST[n].time <= 215
      ensures !IsSafe(DoPasses(JUST_STARTED, WORST[..n + 1]))
    {
      WorstIsUnsafe(n + 1);
    }
  }

  lemma NoPass(s: System)
    ensures DoPasses(s, WORST[..0]) == s
  {
    assert WORST[..0] == [];
  }
}
