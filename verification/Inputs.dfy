/** What the outside supplies to a run of the main loop, pass by pass, and what follows from it
    alone: when each task is called, and what the echo line has shown to a measurement. */
module Inputs {
  import opened Bytes
  import opened Reaction
  import S = Scheduler
  import C = Capture
  import F = RxTiming
  import Status

  /** One pass: the unwrapped time at which the scheduler reads the clock, the clock as the
      tasks read it, the button, the profilers' readings, what happens on the echo line and to
      its interrupt, and the CPU cycles at which the pass begins and ends. */
  datatype Tick = Tick(time: nat, clock: nat, pressed: bool, others: seq<Status.Report>,
                       echo: seq<C.Stimulus>, begin: nat, end: nat)

  function TickTimes(ticks: seq<Tick>): (times: seq<nat>)
    ensures |times| == |ticks|
  {
    seq(|ticks|, i requires 0 <= i < |ticks| => ticks[i].time)
  }

  function TimeBefore(ticks: seq<Tick>, from: nat, i: nat): nat
    requires i <= |ticks|
  {
    if i == 0 then from else ticks[i - 1].time
  }

  /** Pass times never go back and are at most `g` ms apart, from `from` on. */
  predicate ArePaced(ticks: seq<Tick>, from: nat, g: nat) {
    forall i :: 0 <= i < |ticks| ==>
      TimeBefore(ticks, from, i) <= ticks[i].time <= TimeBefore(ticks, from, i) + g
  }

  lemma PacedTimes(ticks: seq<Tick>, from: nat, g: nat)
    requires ArePaced(ticks, from, g)
    ensures S.Paced(from, TickTimes(ticks), g)
    ensures S.End(from, TickTimes(ticks)) == TimeBefore(ticks, from, |ticks|)
  {
    var times := TickTimes(ticks);
    forall i | 0 <= i < |times| ensures 0 <= S.Gap(from, times, i) <= g {
      assert TimeBefore(ticks, from, i) <= ticks[i].time <= TimeBefore(ticks, from, i) + g;
    }
    PacedByIndex(from, times, g);
  }

  lemma FirstArePaced(ticks: seq<Tick>, n: nat, g: nat)
    requires ArePaced(ticks, 0, g) && n <= |ticks|
    ensures ArePaced(ticks[..n], 0, g)
  {
    forall i | 0 <= i < n
      ensures TimeBefore(ticks[..n], 0, i) <= ticks[i].time <= TimeBefore(ticks[..n], 0, i) + g
    {
      assert TimeBefore(ticks[..n], 0, i) == TimeBefore(ticks, 0, i);
    }
  }

  function EndBefore(ticks: seq<Tick>, from: nat, i: nat): nat
    requires i <= |ticks|
  {
    if i == 0 then from else ticks[i - 1].end
  }

  /** Passes do not overlap, from cycle `from` on. */
  predicate AreOrdered(ticks: seq<Tick>, from: nat) {
    forall i :: 0 <= i < |ticks| ==> EndBefore(ticks, from, i) <= ticks[i].begin <= ticks[i].end
  }

  /** The clock counts cycles, 16,000 a millisecond, and a pass takes at most `busy` of them. */
  predicate IsOnClock(t: Tick, busy: nat) {
    && 16000 * t.time <= t.begin < 16000 * (t.time + 1)
    && t.end <= t.begin + busy
  }

  /** Between two calls of the communication task the ring cannot fill up: the calls are less
      than 10 + g ms apart. */
  predicate InTime(g: nat, busy: nat) {
    16000 * (10 + g) + busy <= 515840
  }

  predicate KeepsPace(ticks: seq<Tick>, from: nat, g: nat, busy: nat) {
    && ArePaced(ticks, from, g) && InTime(g, busy)
    && forall i :: 0 <= i < |ticks| ==> IsOnClock(ticks[i], busy)
  }

  // ----- when tasks are called -----

  predicate Calls(last: Dispatched, time: nat, k: nat)
    requires k < TASKS
  {
    S.Due(Table(last)[k], time % S.WRAP)
  }

  function NextLast(last: Dispatched, time: nat): Dispatched {
    seq(TASKS, k requires 0 <= k < TASKS => if Calls(last, time, k) then time else last[k])
  }

  function NextStarted(started: Option<nat>, last: Dispatched, time: nat): Option<nat> {
    if !Calls(last, time, SENSOR) then started
    else if started.Some? then None
    else Some(time)
  }

  /** The schedule of a pass does not depend on what its tasks do. */
  lemma ScheduleOfPass(s: System, p: Pass)
    ensures DoPass(s, p).last == NextLast(s.last, p.time)
    ensures DoPass(s, p).started == NextStarted(s.started, s.last, p.time)
    ensures forall k :: 0 <= k < TASKS ==> IsCalled(s, p, k) == Calls(s.last, p.time, k)
  {
    hide Table, S.Due, CallsOf;
    OrderIsCalls(s, p);
  }

  lemma StaysOnTime(s: System, time: nat, from: nat, g: nat)
    requires OnTime(s, from) && from <= time <= from + g && 30 + g <= S.WRAP
    ensures OnTime(s.(last := NextLast(s.last, time)), time)
  {
    hide DoPass, NextLast;
    var p := Pass(time, 0, false, None);
    PassByTime(s, p, from, g);
    ScheduleOfPass(s, p);
  }

  // ----- how the receive ring is drained -----

  /** Since its `n`th event the ring has been found empty at cycle `from` or later. */
  ghost predicate EmptiedSince(log: seq<F.Event>, n: nat, from: nat) {
    exists i: nat :: n <= i < |log| && log[i].FoundEmpty? && log[i].t >= from
  }

  /** The ring has been drained in time, and been found empty since the pass of the last call of
      the communication task. */
  ghost predicate KeepsUp(last: Dispatched, log: seq<F.Event>) {
    F.Drained(log, 0) && 16000 * last[COMMUNICATION] <= F.LastEmpty(log, 0)
  }

  /** The ring is still drained in time after a pass of a loop that keeps its pace. */
  lemma KeepUp(s: System, before: seq<F.Event>, log: seq<F.Event>, cycle: nat, t: Tick,
               from: nat, g: nat, busy: nat)
    requires before <= log && F.IsRun(F.Fill(0, 0), log, 0) && F.LastTime(log, 0) <= cycle <= t.end
    requires OnTime(s, from) && KeepsUp(s.last, before)
    requires Calls(s.last, t.time, COMMUNICATION) ==> EmptiedSince(log, |before|, t.begin)
    requires from <= t.time <= from + g && IsOnClock(t, busy) && InTime(g, busy)
    ensures OnTime(s.(last := NextLast(s.last, t.time)), t.time)
    ensures KeepsUp(NextLast(s.last, t.time), log)
  {
    hide F.IsRun, F.Drained, F.LastEmpty, F.LastTime, Calls;
    var n := |before|;
    assert log[..n] == before;
    StaysOnTime(s, t.time, from, g);
    F.StillDrained(log, n, cycle);
    F.LastEmptyGrows(F.Fill(0, 0), log, 0, n);
    if Calls(s.last, t.time, COMMUNICATION) {
      var i: nat :| n <= i < |log| && log[i].FoundEmpty? && log[i].t >= t.begin;
      F.LastIsLatest(F.Fill(0, 0), log, 0, i);
    }
  }

  // ----- what a measurement hears -----

  /** The level of the echo line, and when `known`, the level at the start of the measurement in
      hand and what has happened since. */
  datatype Hearing = Hearing(known: bool, startedLow: bool, since: seq<C.Stimulus>, level: bool)

  datatype Watch = Watch(started: Option<nat>, last: Dispatched, hearing: Hearing)

  /** A measurement is known from its start when the echo line is quiet during that pass. */
  function Hear(w: Watch, t: Tick): Hearing {
    var h, level := w.hearing, C.LevelAfter(w.hearing.level, t.echo);
    if !Calls(w.last, t.time, SENSOR) then h.(since := h.since + t.echo, level := level)
    else if w.started.None? && t.echo == [] then Hearing(true, !h.level, [], h.level)
    else Hearing(false, false, [], level)
  }

  function Next(w: Watch, t: Tick): Watch {
    Watch(NextStarted(w.started, w.last, t.time), NextLast(w.last, t.time), Hear(w, t))
  }

  function WatchAt(w: Watch, ticks: seq<Tick>, n: nat): Watch
    requires n <= |ticks|
  {
    if n == 0 then w else Next(WatchAt(w, ticks, n - 1), ticks[n - 1])
  }

  /** A whole echo of 116 to 2435 ticks, each edge served before the next. */
  predicate HeardNear(h: Hearing) {
    && h.known && h.startedLow
    && C.Follow(h.since).phase == 4 && 116 <= C.Follow(h.since).width <= 2435
  }

  /** This pass evaluates a measurement that was started at or after `t0`. */
  predicate Evaluates(w: Watch, t: Tick, t0: nat) {
    Calls(w.last, t.time, SENSOR) && w.started.Some? && w.started.value >= t0
  }

  /** The obstacle: every evaluation of a measurement started at or after `t0` has heard it. */
  predicate ObstacleEchoes(w: Watch, ticks: seq<Tick>, t0: nat) {
    forall i :: 0 <= i < |ticks| && Evaluates(WatchAt(w, ticks, i), ticks[i], t0) ==>
      HeardNear(WatchAt(w, ticks, i).hearing)
  }

  predicate IsStart(w: Watch, t: Tick) {
    Calls(w.last, t.time, SENSOR) && w.started.None?
  }

  /** A whole echo, each edge served before the next. */
  function Echo(width: nat): seq<C.Stimulus> {
    [C.EdgeAfter(0), C.Serve, C.EdgeAfter(width), C.Serve]
  }

  /** The echo of every measurement comes in the pass after its start. */
  predicate EchoesNext(w: Watch, ticks: seq<Tick>, width: nat) {
    forall i :: 0 <= i < |ticks| ==>
      ticks[i].echo == if JustStarted(w, ticks, i) then Echo(width) else []
  }

  predicate JustStarted(w: Watch, ticks: seq<Tick>, i: nat)
    requires i <= |ticks|
  {
    i > 0 && IsStart(WatchAt(w, ticks, i - 1), ticks[i - 1])
  }

  lemma EchoIsWhole(width: nat)
    ensures C.Follow(Echo(width)) == C.Progress(4, width) && !C.LevelAfter(false, Echo(width))
  {
    var e := Echo(width);
    assert e[..3] == [C.EdgeAfter(0), C.Serve, C.EdgeAfter(width)] && e[..3][..2] == [C.EdgeAfter(0), C.Serve];
    assert e[..3][..2][..1] == [C.EdgeAfter(0)];
    assert C.Follow(e[..3][..2][..1]) == C.Progress(1, 0);
    assert C.Follow(e[..3][..2]) == C.Progress(2, 0);
    assert C.Follow(e[..3]) == C.Progress(3, width);
    assert e[1..] == [C.Serve, C.EdgeAfter(width), C.Serve];
    assert e[1..][1..] == [C.EdgeAfter(width), C.Serve] && e[1..][1..][1..] == [C.Serve];
    assert C.EdgeCount(e[1..][1..][1..]) == 0;
    assert C.EdgeCount(e[1..][1..]) == 1 && C.EdgeCount(e[1..]) == 1;
  }

  /** What a measurement started at or after `t0` has heard of such echoes, when it was or was
      not started in the pass before. */
  ghost predicate HeardSoFar(at: Watch, just: bool, t0: nat, width: nat) {
    && !at.hearing.level && (just ==> at.started.Some?)
    && (at.started.Some? && at.started.value >= t0 ==>
          && at.hearing.known && at.hearing.startedLow
          && at.hearing.since == if just then [] else Echo(width))
  }

  lemma EchoStep(at: Watch, t: Tick, just: bool, t0: nat, width: nat)
    requires HeardSoFar(at, just, t0, width) && t.echo == if just then Echo(width) else []
    ensures HeardSoFar(Next(at, t), IsStart(at, t), t0, width)
    ensures IsStart(at, t) ==> Next(at, t).last[SENSOR] == t.time
  {
    hide Calls, C.LevelAfter, C.Follow, Echo;
    C.LevelStep(false, []);
    EchoIsWhole(width);
    assert at.hearing.since + [] == at.hearing.since && [] + t.echo == t.echo;
  }

  lemma {:induction false} EchoesSoFar(w: Watch, ticks: seq<Tick>, i: nat, t0: nat, width: nat)
    requires EchoesNext(w, ticks, width) && i <= |ticks|
    requires !w.hearing.level && (w.started.Some? ==> w.started.value < t0)
    ensures HeardSoFar(WatchAt(w, ticks, i), JustStarted(w, ticks, i), t0, width)
    ensures JustStarted(w, ticks, i) ==> WatchAt(w, ticks, i).last[SENSOR] == ticks[i - 1].time
  {
    hide HeardSoFar, Next, IsStart, Echo;
    if i > 0 {
      EchoesSoFar(w, ticks, i - 1, t0, width);
      EchoStep(WatchAt(w, ticks, i - 1), ticks[i - 1], JustStarted(w, ticks, i - 1), t0, width);
    } else {
      NothingSoFar(w, t0, width);
    }
  }

  lemma NothingSoFar(w: Watch, t0: nat, width: nat)
    requires !w.hearing.level && (w.started.Some? ==> w.started.value < t0)
    ensures HeardSoFar(w, false, t0, width)
  {
  }

  /** An obstacle that echoes in the pass after every start is heard in time by every evaluation
      of a measurement started at or after `t0`. */
  lemma EchoesAreHeard(w: Watch, ticks: seq<Tick>, from: nat, g: nat, t0: nat, width: nat)
    requires EchoesNext(w, ticks, width) && 116 <= width <= 2435
    requires !w.hearing.level && (w.started.Some? ==> w.started.value < t0)
    requires ArePaced(ticks, from, g) && g < 30
    ensures ObstacleEchoes(w, ticks, t0)
  {
    hide C.Follow, Echo, WatchAt, C.LevelAfter;
    EchoIsWhole(width);
    forall i | 0 <= i < |ticks| && Evaluates(WatchAt(w, ticks, i), ticks[i], t0)
      ensures HeardNear(WatchAt(w, ticks, i).hearing)
    {
      EchoesSoFar(w, ticks, i, t0, width);
      if JustStarted(w, ticks, i) {
        NotDueAgain(WatchAt(w, ticks, i).last, ticks[i].time, SENSOR);
      }
    }
  }

  lemma NotDueAgain(last: Dispatched, time: nat, k: nat)
    requires k < TASKS && last[k] <= time < last[k] + Period(k)
    ensures !Calls(last, time, k)
  {
    Sub32OfWrapped(time, last[k]);
  }

  // ----- the calls of the communication task -----

  /** The first `n` passes that call it. */
  function CommTicks(w: Watch, ticks: seq<Tick>, n: nat): seq<Tick>
    requires n <= |ticks|
  {
    if n == 0 then []
    else
      CommTicks(w, ticks, n - 1)
        + (if Calls(WatchAt(w, ticks, n - 1).last, ticks[n - 1].time, COMMUNICATION)
           then [ticks[n - 1]] else [])
  }
}
