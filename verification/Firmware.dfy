/** `main` of firmware/main.c: the scheduler, the application, the parser and the UART as
    one object, and its endless loop. */
module Firmware {
  import opened Bytes
  import opened Safety
  import opened Reaction
  import opened Inputs
  import S = Scheduler
  import A = Application
  import C = Capture
  import V = Servo
  import P = Protocol
  import U = Uart
  import F = RxTiming
  import M = Communication
  import T = ParserTiming
  import opened Frames
  import Status
  import Ring
  import L = Slots

  class Firmware {
    const scheduler: S.Scheduler
    const app: A.Application
    const protocol: P.Protocol
    const uart: U.Uart
    var halted: bool

    // The pass that started the measurement in hand, and each task's last dispatch.
    ghost var started: Option<nat>
    ghost var last: Dispatched

    // The calls of the communication task that have returned, and what the one that has not
    // has heard.
    ghost var turns: seq<M.Turn>
    ghost var final: seq<T.Event>

    ghost predicate Apart()
      reads this, scheduler, app, protocol, uart
    {
      var ofScheduler: set<object>, ofApp: set<object> :=
        {scheduler, scheduler.tasks}, {app, app.servo, app.sensor};
      var ofProtocol: set<object>, ofUart: set<object> :=
        {protocol, protocol.framePayload, protocol.pendingPayload}, {uart, uart.rxBuffer, uart.txBuffer};
      && this !in ofScheduler && this !in ofApp && this !in ofProtocol && this !in ofUart
      && ofScheduler !! ofApp && ofScheduler !! ofProtocol && ofScheduler !! ofUart
      && ofApp !! ofProtocol && ofApp !! ofUart && ofProtocol !! ofUart
    }

    /** Holds between passes: all that was to happen on the echo line has happened. */
    ghost predicate Valid()
      reads this, scheduler, scheduler.tasks, app, app.servo, app.sensor
      reads protocol, protocol.framePayload, protocol.pendingPayload
      reads uart, uart.rxBuffer, uart.txBuffer
    {
      Parts() && app.sensor.script == []
    }

    /** Holds between the tasks of a pass. */
    ghost predicate Parts()
      reads this, scheduler, scheduler.tasks, app, app.servo, app.sensor
      reads protocol, protocol.framePayload, protocol.pendingPayload
      reads uart, uart.rxBuffer, uart.txBuffer
    {
      && Apart() && scheduler.Valid() && app.Valid() && protocol.Valid() && uart.Valid()
      && scheduler.tasks[..] == Table(last)
      && started.Some? == app.sensor.measurementActive && Wired()
    }

    /** Parser and slots are where the calls of the communication task have taken them, the
        bytes read are those that the calls have heard, and what was accepted for transmission
        since power-up is what they sent. A halt comes of a block that the last call heard. */
    ghost predicate Wired()
      requires protocol.Valid()
      reads `turns, `halted, `final
      reads protocol, protocol.framePayload, protocol.pendingPayload, uart
    {
      && M.AreTurns(turns) && M.AllFair(M.BOOT, turns)
      && uart.accepted == EncodeAll(M.AllSent(M.BOOT, turns))
      && uart.delivered == T.BytesOf(M.AllEvents(turns)) + T.BytesOf(final)
      && (!halted ==> && M.NodeOf(protocol) == M.AfterTurns(M.BOOT, turns) && final == []
                      && !protocol.watchdogBlockPending)
      && (halted ==> M.EndsInBlock(M.BOOT, turns, final))
    }

    ghost function Abstract(): System
      reads this, app, app.servo
    {
      System(app.Abstract(), started, last)
    }

    /** What was accepted for transmission are the frames of the communication task's calls, of
        which a prefix has been sent; in each slot they answer the accepted requests in order.
        A halted firmware has received a frame that asks for it. */
    ghost predicate Answers()
      reads this, uart
    {
      && M.AreTurns(turns) && uart.accepted == EncodeAll(M.AllSent(M.BOOT, turns))
      && uart.sent <= uart.accepted && (forall i: L.Slot :: M.AnswersInOrder(turns, i))
      && (halted ==> M.HasBlock(uart.delivered))
    }

    lemma HasAnswered()
      requires Parts()
      ensures Answers()
    {
      hide Apart, S.Scheduler.Valid, A.Application.Valid, P.Protocol.Valid;
      hide M.AfterTurns, M.AllSent, M.AllEvents, M.AllFair, EncodeAll, T.BytesOf, Table, M.IsTurn;
      hide M.AnswersInOrder, Ring.Contents, M.HasBlock, M.EndsInBlock;
      uart.HistoriesAreFifo();
      if halted {
        M.BlockWasReceived(turns, final);
      }
      forall i: L.Slot ensures M.AnswersInOrder(turns, i) {
        M.EveryRequestOnce(turns, i);
      }
    }

    ghost predicate IsSafelyHalted()
      reads this, app, app.servo
    {
      OutputsAreSafe(Abstract().m) && !Abstract().m.driven && !Abstract().m.led
    }

    // ----- the echo line and the driver -----

    /** The sensor is in a measurement that has heard `h`, between passes. */
    ghost predicate Tied(h: Hearing)
      reads app.sensor
    {
      && app.sensor.level == h.level
      && (h.known && app.sensor.measurementActive ==>
            app.sensor.played == h.since && app.sensor.startedLow == h.startedLow)
    }

    /** The same in a pass, while `echo` is to happen. */
    ghost predicate Hears(h: Hearing, echo: seq<C.Stimulus>)
      reads app.sensor
    {
      && |app.sensor.script| <= |echo|
      && C.LevelAfter(app.sensor.level, app.sensor.script) == C.LevelAfter(h.level, echo)
      && (h.known && app.sensor.measurementActive ==>
            && app.sensor.played + app.sensor.script == h.since + echo
            && app.sensor.startedLow == h.startedLow)
    }

    ghost function HearingNow(): Hearing
      reads app.sensor
    {
      Hearing(app.sensor.measurementActive, app.sensor.startedLow, app.sensor.played, app.sensor.level)
    }

    ghost function WatchNow(): Watch
      reads `started, `last, app.sensor
    {
      Watch(started, last, HearingNow())
    }

    /** Just powered up: nothing has happened yet. */
    ghost predicate IsNew(wire: seq<Octet>)
      reads this, scheduler, scheduler.tasks, app, app.servo, app.sensor
      reads protocol, protocol.framePayload, protocol.pendingPayload
      reads uart, uart.rxBuffer, uart.txBuffer
    {
      && Valid() && !halted && turns == [] && Abstract() == BOOT_SYSTEM
      && uart.rxLog == [] && uart.seen == [] && uart.line == wire && uart.cycle == 0
      && !app.sensor.measurementActive && !app.sensor.level
    }

    /** `main` up to its loop: the drivers, then the four tasks at clock 0. Registration never
        fails, so the safe halt that `main` has for that case is not taken. */
    constructor (timer1: nat, wire: seq<Octet>)
      ensures IsNew(wire)
      ensures fresh(scheduler) && fresh(app) && fresh(protocol) && fresh(uart)
      ensures fresh(scheduler.tasks) && fresh(app.servo) && fresh(app.sensor)
      ensures fresh(protocol.framePayload) && fresh(protocol.pendingPayload)
      ensures fresh(uart.rxBuffer) && fresh(uart.txBuffer)
    {
      hide P.Protocol.Valid, U.Uart.Valid, Table, S.Scheduler.Valid, A.Application.Valid;
      var s, a, p, u := PowerUp(timer1, wire);
      RegisterTasks(s);
      scheduler, app, protocol, uart := s, a, p, u;
      halted, started, last, turns, final := false, None, [0, 0, 0, 0], [], [];
      M.NoTurns(M.BOOT);
      M.NoBytes();
    }

    /** A call of one of the first three tasks. */
    method CallTask(k: nat, t: Tick) returns (ghost reading: Option<nat>)
      requires Apart() && app.Valid() && k < COMMUNICATION
      modifies app, app.servo, app.sensor
      ensures app.Valid()
      ensures app.Abstract() == Task(old(app.Abstract()), k,
        Reaction.Pass(t.time, t.clock, t.pressed, reading), old(app.sensor.measurementActive))
      ensures app.sensor.measurementActive
           == (if k == SENSOR then !old(app.sensor.measurementActive)
               else old(app.sensor.measurementActive))
      ensures k != SENSOR ==> app.sensor.OnlyInterrupts()
      ensures k == SENSOR ==>
        && (reading.Some? ==> app.sensor.HasResult() && reading.value == app.sensor.pulseTicks
                              && !app.sensor.measurementActive)
        && (old(app.sensor.measurementActive && app.sensor.HasEcho(116, 2435)) ==>
              reading.Some? && PulseIsCritical(reading.value))
        && (!old(app.sensor.measurementActive) && old(app.sensor.script) == [] ==>
              app.sensor.played == [] && app.sensor.startedLow == !old(app.sensor.level))
        && |app.sensor.script| <= |old(app.sensor.script)|
        && C.LevelAfter(app.sensor.level, app.sensor.script)
           == old(C.LevelAfter(app.sensor.level, app.sensor.script))
    {
      hide P.Protocol.Valid, U.Uart.Valid, S.Scheduler.Valid, Table;
      hide C.Capture.Inv, C.Capture.HasResult, C.Capture.HasEcho, C.LevelAfter, PulseIsCritical;
      hide ActuatorTask, ControlTask, SensorTask;
      reading := None;
      if k == ACTUATOR {
        app.ActuatorServiceTask(t.clock);
      } else if k == CONTROL {
        app.ControlTask(t.pressed, t.clock);
      } else {
        reading := app.SensorSafetyTask();
      }
    }

    /** `scheduler_run`, up to its calls. */
    method Schedule(t: Tick, ghost s: System, ghost any: Reaction.Pass) returns (order: seq<nat>)
      requires scheduler.Valid() && scheduler.tasks[..] == Table(s.last) && any.time == t.time
      modifies scheduler.tasks
      ensures scheduler.Valid() && scheduler.tasks[..] == Table(LastAfter(s, any))
      ensures order == Order(s, any)
    {
      hide Table, LastAfter, S.DueSlots, S.Ticked;
      order := scheduler.Run(t.time % S.WRAP);
      TableAfterPass(s, any);
    }

    /** What the sensor task's call makes of what has been heard. */
    ghost predicate HeardNext(h: Hearing, t: Tick, called: bool, wasStarted: bool)
      reads app.sensor
    {
      && |app.sensor.script| <= |t.echo|
      && C.LevelAfter(app.sensor.level, app.sensor.script) == C.LevelAfter(h.level, t.echo)
      && (!called ==> Hears(h, t.echo))
      && (called && !wasStarted && t.echo == [] ==>
            app.sensor.played == [] && app.sensor.startedLow == !h.level)
    }

    /** The calls of the first two tasks and of the sensor task, in registration order. */
    method CallTasks(order: seq<nat>, t: Tick, ghost s: System, ghost h: Hearing)
      returns (ghost pass: Reaction.Pass)
      requires Apart() && app.Valid() && s.m == app.Abstract() && Hears(h, t.echo)
      requires s.started.Some? == app.sensor.measurementActive
      requires order == Order(s, Reaction.Pass(t.time, t.clock, t.pressed, None))
      modifies app, app.servo, app.sensor
      ensures app.Valid() && Meets(pass, t)
      ensures app.Abstract() == Tasks(s, pass, COMMUNICATION)
      ensures app.sensor.measurementActive
           == (if SENSOR in order then s.started.None? else s.started.Some?)
      ensures HeardNext(h, t, SENSOR in order, s.started.Some?)
      ensures pass.reading.Some? ==>
        && app.sensor.HasResult() && pass.reading.value == app.sensor.pulseTicks
        && !app.sensor.measurementActive
      ensures SENSOR in order && s.started.Some? && HeardNear(h) ==>
        pass.reading.Some? && PulseIsCritical(pass.reading.value)
    {
      hide Table, Order, A.Application.Valid, Do, S.Due, C.LevelAfter, HeardNear, PulseIsCritical;
      hide C.Capture.HasResult, C.Capture.HasEcho;
      OrderIsCalls(s, Reaction.Pass(t.time, t.clock, t.pressed, None));
      CallEarly(order, t, h);
      ghost var reading := None;
      if SENSOR in order {
        NearIsHeard(h, t.echo);
        LevelIsQuiet(h, t.echo);
        reading := CallTask(SENSOR, t);
      }
      pass := Reaction.Pass(t.time, t.clock, t.pressed, reading);
      ThreeTasks(s, pass);
    }

    /** The actuator and control tasks. */
    method CallEarly(order: seq<nat>, t: Tick, ghost h: Hearing)
      requires Apart() && app.Valid() && Hears(h, t.echo)
      modifies app, app.servo, app.sensor
      ensures app.Valid() && Hears(h, t.echo)
      ensures app.sensor.measurementActive == old(app.sensor.measurementActive)
      ensures var p, measuring := Reaction.Pass(t.time, t.clock, t.pressed, None),
                old(app.sensor.measurementActive);
        var m1 := if ACTUATOR in order then Task(old(app.Abstract()), ACTUATOR, p, measuring)
                  else old(app.Abstract());
        app.Abstract() == if CONTROL in order then Task(m1, CONTROL, p, measuring) else m1
    {
      hide A.Application.Valid, Do, C.LevelAfter;
      ghost var r;
      if ACTUATOR in order {
        r := CallTask(ACTUATOR, t);
      }
      if CONTROL in order {
        r := CallTask(CONTROL, t);
      }
    }

    /** What was near before the pass still is when the sensor task is called. */
    lemma NearIsHeard(h: Hearing, echo: seq<C.Stimulus>)
      requires Hears(h, echo)
      ensures app.sensor.measurementActive && HeardNear(h) ==> app.sensor.HasEcho(116, 2435)
    {
      hide C.LevelAfter, C.Follow;
      if app.sensor.measurementActive && HeardNear(h) {
        var played, script := app.sensor.played, app.sensor.script;
        assert |played| >= |h.since|;
        assert played == (played + script)[..|played|] == h.since + echo[..|played| - |h.since|];
        EchoStays(h.since, echo[..|played| - |h.since|]);
      }
    }

    /** The start of a pass: the echo line and the UART's clock move on. */
    method Open(t: Tick, ghost h: Hearing)
      requires Valid() && Tied(h) && uart.cycle <= t.begin <= t.end
      modifies app.sensor`script, uart, uart.rxBuffer
      ensures Parts() && Hears(h, t.echo) && Abstract() == old(Abstract())
      ensures app.sensor.measurementActive == old(app.sensor.measurementActive)
      ensures uart.Extended() && uart.cycle == t.begin && uart.horizon == Some(t.end)
      ensures uart.accepted == old(uart.accepted) && uart.delivered == old(uart.delivered)
    {
      hide S.Scheduler.Valid, A.Application.Valid, P.Protocol.Valid, U.Uart.Valid, Wired, Table;
      FeedSensor(t, h);
      RunUart(t);
    }

    method FeedSensor(t: Tick, ghost h: Hearing)
      requires Valid() && Tied(h)
      modifies app.sensor`script
      ensures Parts() && Hears(h, t.echo) && Abstract() == old(Abstract())
    {
      hide S.Scheduler.Valid, P.Protocol.Valid, U.Uart.Valid, Wired, Table, V.Servo.Valid;
      hide C.LevelAfter, C.Capture.Inv;
      app.sensor.Feed(t.echo);
      assert app.sensor.script == t.echo;
    }

    method RunUart(t: Tick)
      requires Parts() && uart.cycle <= t.begin <= t.end
      modifies uart, uart.rxBuffer
      ensures Parts() && Abstract() == old(Abstract())
      ensures uart.Extended() && uart.cycle == t.begin && uart.horizon == Some(t.end)
      ensures uart.accepted == old(uart.accepted) && uart.delivered == old(uart.delivered)
    {
      hide S.Scheduler.Valid, A.Application.Valid, P.Protocol.Valid, U.Uart.Valid, Table;
      hide M.AfterTurns, M.AllSent, M.AllEvents, M.AllFair, M.AreTurns, M.EndsInBlock;
      hide EncodeAll, T.BytesOf;
      uart.RunUntil(t.begin);
      uart.Allow(t.end);
    }

    /** A pass up to the communication task, which is the last in order. */
    method PassOfThree(t: Tick, ghost h: Hearing) returns (ghost pass: Reaction.Pass, order: seq<nat>)
      requires Parts() && Hears(h, t.echo)
      modifies `last, `started, scheduler.tasks, app, app.servo, app.sensor
      ensures Parts() && Meets(pass, t) && Abstract() == DoPass(old(Abstract()), pass)
      ensures order == Order(old(Abstract()), pass)
      ensures HeardNext(h, t, SENSOR in order, old(started).Some?)
      ensures pass.reading.Some? ==>
        && app.sensor.HasResult() && pass.reading.value == app.sensor.pulseTicks
        && !app.sensor.measurementActive
      ensures SENSOR in order && old(started).Some? && HeardNear(h) ==>
        pass.reading.Some? && PulseIsCritical(pass.reading.value)
    {
      hide S.Scheduler.Valid, A.Application.Valid, P.Protocol.Valid, U.Uart.Valid;
      hide Table, Tasks, DoPass, LastAfter, Order, M.OtherReports, Wired, HeardNext, PulseIsCritical;
      hide C.Capture.HasResult, HeardNear, Hears;
      ghost var s := Abstract();
      ghost var any := Reaction.Pass(t.time, t.clock, t.pressed, None);
      order := Schedule(t, s, any);
      pass := CallTasks(order, t, s, h);
      last := LastAfter(s, any);
      if SENSOR in order {
        started := if started.Some? then None else Some(t.time);
      }
      PassInParts(s, pass, any);
    }

    /** `communication_task`: the run of its calls is one longer, or it does not return. */
    method CallCommunication(t: Tick)
      requires Apart() && protocol.Valid() && uart.Valid() && M.OtherReports(t.others)
      requires Wired() && !halted
      modifies `turns, `final, `halted, protocol, protocol.framePayload, protocol.pendingPayload
      modifies uart, uart.rxBuffer, uart.txBuffer
      ensures protocol.Valid() && uart.Valid() && uart.Grown() && uart.WasEmptied()
      ensures old(uart.line) == [] ==> uart.kept == uart.delivered
      ensures Wired() && HasCalled(old(turns), t, old(uart.Unsent()))
    {
      hide P.Protocol.Valid, U.Uart.Valid, M.OtherReports, M.GoodReports, M.CountersRead, M.IsTurn;
      hide M.AfterTurns, M.AllSent, M.AllEvents, M.AllFair, M.AfterTurn, M.Sent, M.IsFair;
      hide EncodeAll, T.BytesOf, M.AreTurns, M.AsksForBlock, P.Protocol.HandleLog, T.RunAll;
      M.NoBytes();
      ghost var turn;
      ghost var before := M.NodeOf(protocol);
      halted, turn := M.CommunicationTask(protocol, uart, t.clock, t.others);
      M.BlockIsAskedFor(before.slots, T.RunAll(before.timed, turn.events).log);
      if !halted {
        M.BlockStays(before, turn);
        M.OneMoreTurn(M.BOOT, turns, turn);
        turns := turns + [turn];
      } else {
        final := turn.events;
      }
    }

    /** After the calls `before`, the task has been called once more, with the clock and the
        readings of `t` and at most `unsent` bytes waiting to be sent. */
    ghost predicate HasCalled(before: seq<M.Turn>, t: Tick, unsent: int)
      reads `turns, `final, `halted
    {
      if halted then turns == before && M.IsCallAt(final, t.clock)
      else |turns| == |before| + 1 && before <= turns
           && M.IsCallWith(turns[|before|], InputOf(t)) && turns[|before|].backlog <= unsent
    }

    /** The end of a pass: the communication task when it is due, and the halt that a watchdog
        block asks for. */
    method Finish(t: Tick, order: seq<nat>)
      requires Parts() && !halted && M.OtherReports(t.others)
      modifies `turns, `final, `halted, app, app.servo
      modifies protocol, protocol.framePayload, protocol.pendingPayload
      modifies uart, uart.rxBuffer, uart.txBuffer
      ensures Parts() && uart.Grown()
      ensures if COMMUNICATION in order
              then HasCalled(old(turns), t, old(uart.Unsent())) && uart.WasEmptied()
                   && (old(uart.line) == [] ==> uart.kept == uart.delivered)
              else !halted && turns == old(turns) && uart.delivered == old(uart.delivered)
                   && uart.accepted == old(uart.accepted)
      ensures !halted ==> Abstract() == old(Abstract())
      ensures halted ==> Abstract() == old(Abstract()).(m := SafeOutputs(old(Abstract()).m))
    {
      hide Parts, M.OtherReports, HasCalled;
      if COMMUNICATION in order {
        Communicate(t);
        if halted {
          Halt();
        }
      }
    }

    method Communicate(t: Tick)
      requires Parts() && !halted && M.OtherReports(t.others)
      modifies `turns, `final, `halted, protocol, protocol.framePayload, protocol.pendingPayload
      modifies uart, uart.rxBuffer, uart.txBuffer
      ensures Parts() && uart.Grown() && Abstract() == old(Abstract()) && uart.WasEmptied()
      ensures HasCalled(old(turns), t, old(uart.Unsent()))
      ensures old(uart.line) == [] ==> uart.kept == uart.delivered
    {
      hide S.Scheduler.Valid, A.Application.Valid, P.Protocol.Valid, U.Uart.Valid;
      hide Table, M.OtherReports, Wired, HasCalled;
      CallCommunication(t);
    }

    /** `set_safe_outputs` before the endless loop that ends `communication_task`. */
    method Halt()
      requires Parts()
      modifies app, app.servo
      ensures Parts() && Abstract() == old(Abstract()).(m := SafeOutputs(old(Abstract()).m))
    {
      hide S.Scheduler.Valid, A.Application.Valid, P.Protocol.Valid, U.Uart.Valid;
      hide Table, Wired;
      app.SetSafeOutputs();
    }

    /** What is left of the pass on the echo line. */
    method Close(t: Tick, ghost w: Watch)
      requires Parts() && HeardNext(w.hearing, t, Calls(w.last, t.time, SENSOR), w.started.Some?)
      modifies app.sensor
      ensures Valid() && Tied(Hear(w, t)) && Abstract() == old(Abstract())
      ensures old(!app.sensor.measurementActive && app.sensor.HasResult()) ==>
        app.sensor.HasResult() && app.sensor.pulseTicks == old(app.sensor.pulseTicks)
    {
      hide S.Scheduler.Valid, P.Protocol.Valid, U.Uart.Valid, V.Servo.Valid, Wired, Table;
      hide C.LevelAfter, C.Capture.Inv, Calls, C.Capture.HasResult;
      app.sensor.Settle();
      C.LevelStep(app.sensor.level, []);
      C.LevelStep(w.hearing.level, []);
      assert app.sensor.played + [] == app.sensor.played;
      if old(!app.sensor.measurementActive && app.sensor.HasResult()) {
        app.sensor.ResultStays();
      }
    }

    /** The tasks due in a pass of the scheduler, each called once in order: a pass of the model
        of `Reaction`, whose reading is the pulse measured by the driver and is critical when the
        measurement has heard a near echo. The communication task is called exactly when it is
        due, with the clock of the pass, and empties the receive ring; if it does not return,
        the outputs are left safe. */
    method Pass(t: Tick, ghost h: Hearing) returns (ghost pass: Reaction.Pass)
      requires Valid() && !halted && M.OtherReports(t.others) && Tied(h)
      requires uart.cycle <= t.begin <= t.end
      modifies this, scheduler.tasks, app, app.servo, app.sensor
      modifies protocol, protocol.framePayload, protocol.pendingPayload
      modifies uart, uart.rxBuffer, uart.txBuffer
      ensures Valid() && Meets(pass, t) && Tied(Hear(old(Watch(started, last, h)), t))
      ensures uart.Extended() && uart.cycle <= t.end
      ensures started == NextStarted(old(started), old(last), t.time)
      ensures last == NextLast(old(last), t.time)
      ensures !halted ==> Abstract() == DoPass(old(Abstract()), pass)
      ensures halted ==> Abstract().m == SafeOutputs(DoPass(old(Abstract()), pass).m)
      ensures pass.reading.Some? ==>
        app.sensor.HasResult() && pass.reading.value == app.sensor.pulseTicks
      ensures Evaluates(old(Watch(started, last, h)), t, 0) && HeardNear(h) ==>
        pass.reading.Some? && PulseIsCritical(pass.reading.value)
      ensures if Calls(old(last), t.time, COMMUNICATION)
              then HasCalled(old(turns), t, old(uart.Unsent()))
                   && EmptiedSince(uart.rxLog, |old(uart.rxLog)|, t.begin)
                   && (old(uart.line) == [] ==> uart.kept == uart.delivered)
              else !halted && turns == old(turns) && uart.delivered == old(uart.delivered)
                   && uart.accepted == old(uart.accepted)
    {
      hide Valid, Parts, DoPass, HeardNext, HeardNear, PulseIsCritical, Hears, Tied, Calls, M.IsCallWith;
      hide M.OtherReports, C.Capture.HasResult, Order, Hear, U.Uart.Valid, EmptiedSince;
      ghost var w, s := Watch(started, last, h), Abstract();
      Apartness();
      Open(t, h);
      var order;
      pass, order := PassOfThree(t, h);
      ScheduleOfPass(s, pass);
      OrderIsCalls(s, pass);
      StillApart();
      EndPass(t, order, w, |old(uart.rxLog)|);
    }

    /** A pass from the communication task on; the receive ring had `n` events before it. */
    method EndPass(t: Tick, order: seq<nat>, ghost w: Watch, ghost n: nat)
      requires Parts() && !halted && M.OtherReports(t.others)
      requires HeardNext(w.hearing, t, Calls(w.last, t.time, SENSOR), w.started.Some?)
      requires n <= |uart.rxLog| && uart.cycle == t.begin && uart.horizon == Some(t.end)
      modifies `turns, `final, `halted, app, app.servo, app.sensor
      modifies protocol, protocol.framePayload, protocol.pendingPayload
      modifies uart, uart.rxBuffer, uart.txBuffer
      ensures Valid() && Tied(Hear(w, t)) && uart.Extended() && uart.cycle <= t.end
      ensures !halted ==> Abstract() == old(Abstract())
      ensures halted ==> Abstract() == old(Abstract()).(m := SafeOutputs(old(Abstract()).m))
      ensures old(!app.sensor.measurementActive && app.sensor.HasResult()) ==>
        app.sensor.HasResult() && app.sensor.pulseTicks == old(app.sensor.pulseTicks)
      ensures if COMMUNICATION in order
              then HasCalled(old(turns), t, old(uart.Unsent())) && EmptiedSince(uart.rxLog, n, t.begin)
                   && (old(uart.line) == [] ==> uart.kept == uart.delivered)
              else !halted && turns == old(turns) && uart.delivered == old(uart.delivered)
                   && uart.accepted == old(uart.accepted)
    {
      hide Valid, Parts, HasCalled, HeardNext, Tied, Calls;
      hide M.OtherReports, C.Capture.HasResult, Hear, U.Uart.Valid;
      StillApart();
      Finish(t, order);
      assert COMMUNICATION in order ==> uart.WasEmptied();
      Close(t, w);
      Bounded();
    }

    // ----- runs of passes -----

    /** Schedule and echo line are where `w` says. */
    ghost predicate Knows(w: Watch)
      reads `started, `last, app.sensor
    {
      started == w.started && last == w.last && Tied(w.hearing)
    }

    /** What passes over the first of `ticks` have done, from `s` and the calls `before`. */
    ghost predicate Ran(s: System, before: seq<M.Turn>, w: Watch, ticks: seq<Tick>,
                        passes: seq<Reaction.Pass>)
      reads this, app, app.servo, app.sensor
    {
      && |passes| <= |ticks| && (forall i :: 0 <= i < |passes| ==> Meets(passes[i], ticks[i]))
      && NearIsRead(w, ticks, passes) && Knows(WatchAt(w, ticks, |passes|))
      && AreCalls(before, turns, halted, final, CommTicks(w, ticks, |passes|))
      && (!halted ==> Abstract() == DoPasses(s, passes))
      && (halted ==> Abstract().m == SafeOutputs(DoPasses(s, passes).m))
    }

    lemma NothingRan(s: System, w: Watch, ticks: seq<Tick>)
      requires Knows(w) && s == Abstract() && !halted
      ensures Ran(s, turns, w, ticks, [])
    {
      hide Tied;
      NoPasses(s);
    }

    /** Pass `i` of a run. */
    method Turn(ticks: seq<Tick>, i: nat, ghost s: System, ghost before: seq<M.Turn>, ghost w: Watch,
                ghost passes: seq<Reaction.Pass>) returns (ghost longer: seq<Reaction.Pass>)
      requires Valid() && !halted && i == |passes| < |ticks| && Ran(s, before, w, ticks, passes)
      requires M.OtherReports(ticks[i].others) && uart.cycle <= ticks[i].begin <= ticks[i].end
      modifies this, scheduler.tasks, app, app.servo, app.sensor
      modifies protocol, protocol.framePayload, protocol.pendingPayload
      modifies uart, uart.rxBuffer, uart.txBuffer
      ensures Valid() && |longer| == i + 1 && Ran(s, before, w, ticks, longer)
      ensures uart.Extended() && uart.cycle <= ticks[i].end
      ensures last == NextLast(old(last), ticks[i].time)
      ensures Calls(old(last), ticks[i].time, COMMUNICATION) ==>
        EmptiedSince(uart.rxLog, |old(uart.rxLog)|, ticks[i].begin)
    {
      hide Valid, Tied, HeardNear, PulseIsCritical, Calls, M.OtherReports, EmptiedSince;
      hide C.Capture.HasResult, DoPass, DoPasses, NextLast, NextStarted, Hear, CommTicks, NearIsRead;
      hide M.IsCallWith, M.IsCallAt;
      ghost var at := WatchAt(w, ticks, i);
      ghost var pass;
      pass := Pass(ticks[i], at.hearing);
      longer := passes + [pass];
      OnePassMore(s, longer, i);
      assert longer[..i] == passes && longer[..i + 1] == longer;
      OneMoreRead(w, ticks, passes, pass);
      CallIsAdded(before, old(turns), w, ticks, i, turns, halted, final);
    }

    /** The same in a loop that keeps its pace. */
    method PacedTurn(ticks: seq<Tick>, i: nat, ghost s: System, ghost before: seq<M.Turn>,
                     ghost w: Watch, ghost passes: seq<Reaction.Pass>,
                     ghost from: nat, ghost g: nat, ghost busy: nat)
      returns (ghost longer: seq<Reaction.Pass>)
      requires Valid() && !halted && i == |passes| < |ticks| && Ran(s, before, w, ticks, passes)
      requires M.OtherReports(ticks[i].others) && uart.cycle <= ticks[i].begin <= ticks[i].end
      modifies this, scheduler.tasks, app, app.servo, app.sensor
      modifies protocol, protocol.framePayload, protocol.pendingPayload
      modifies uart, uart.rxBuffer, uart.txBuffer
      ensures Valid() && |longer| == i + 1 && Ran(s, before, w, ticks, longer)
      ensures uart.Extended() && uart.cycle <= ticks[i].end
      ensures KeepsPace(ticks, from, g, busy) && old(OnTime(Abstract(), TimeBefore(ticks, from, i)))
              && old(KeepsUp(last, uart.rxLog)) ==>
        OnTime(Abstract(), ticks[i].time) && KeepsUp(last, uart.rxLog)
    {
      hide Valid, Ran, KeepsUp, M.OtherReports, EmptiedSince, Calls, NextLast, F.IsRun, F.LastTime;
      ghost var was, log, now := Abstract(), uart.rxLog, TimeBefore(ticks, from, i);
      longer := Turn(ticks, i, s, before, w, passes);
      if KeepsPace(ticks, from, g, busy) && OnTime(was, now) && KeepsUp(was.last, log) {
        Bounded();
        assert now <= ticks[i].time <= now + g && IsOnClock(ticks[i], busy);
        KeepUp(was, log, uart.rxLog, uart.cycle, ticks[i], now, g, busy);
      }
    }

    /** The endless loop of `main`, for as many turns as there are ticks or until it halts. Its
        passes meet the ticks, the communication task is called with those that are due, and
        with passes at most `g` ms apart that take at most `busy` cycles the receive ring is
        drained in time. */
    method Loop(ticks: seq<Tick>, ghost w: Watch, ghost from: nat, ghost g: nat, ghost busy: nat)
      returns (ghost passes: seq<Reaction.Pass>)
      requires Valid() && !halted && Knows(w) && AreOrdered(ticks, uart.cycle)
      requires forall i :: 0 <= i < |ticks| ==> M.OtherReports(ticks[i].others)
      modifies this, scheduler.tasks, app, app.servo, app.sensor
      modifies protocol, protocol.framePayload, protocol.pendingPayload
      modifies uart, uart.rxBuffer, uart.txBuffer
      ensures Valid() && uart.Extended() && Ran(old(Abstract()), old(turns), w, ticks, passes)
      ensures !halted ==> |passes| == |ticks|
      ensures KeepsPace(ticks, from, g, busy)
              && old(OnTime(Abstract(), from) && KeepsUp(last, uart.rxLog)) ==>
        OnTime(Abstract(), TimeBefore(ticks, from, |passes|)) && KeepsUp(last, uart.rxLog)
    {
      hide Valid, Ran, KeepsUp, OnTime, M.OtherReports, KeepsPace;
      ghost var s, before := Abstract(), turns;
      ghost var paced := KeepsPace(ticks, from, g, busy)
                         && OnTime(Abstract(), from) && KeepsUp(last, uart.rxLog);
      passes := [];
      NothingRan(s, w, ticks);
      assert EndBefore(ticks, uart.cycle, 0) == uart.cycle;
      for i := 0 to |ticks|
        invariant Valid() && !halted && uart.Extended() && |passes| == i
        invariant Ran(s, before, w, ticks, passes)
        invariant uart.cycle <= EndBefore(ticks, old(uart.cycle), i)
        invariant paced ==>
          OnTime(Abstract(), TimeBefore(ticks, from, i)) && KeepsUp(last, uart.rxLog)
      {
        assert EndBefore(ticks, old(uart.cycle), i) <= ticks[i].begin <= ticks[i].end;
        passes := PacedTurn(ticks, i, s, before, w, passes, from, g, busy);
        if halted {
          return;
        }
      }
    }

    /** The reaction bound for the real objects. In ACTIVE, with an obstacle from `t0` on, the
        button released and passes at most `g` ms apart: if every pass that evaluates a
        measurement started at or after `t0` does so when a near echo has come and its edges
        have been served, then by `t0 + 95 + 4 * g` relay, motor and servo are commanded safe
        in SAFE_STATE, unless a frame that asks for a watchdog block has been received and has
        stopped the loop with safe outputs. */
    method React(ticks: seq<Tick>, ghost w: Watch, ghost t0: nat, ghost from: nat, ghost g: nat)
      returns (ghost passes: seq<Reaction.Pass>)
      requires Valid() && !halted && Knows(w) && AreOrdered(ticks, uart.cycle)
      requires Abstract().m.state == Active && OnTime(Abstract(), from) && Inv(Abstract().m)
      requires from < t0 && ArePaced(ticks, from, g) && 0 < g && 30 + g <= S.WRAP
      requires t0 + 95 + 4 * g <= TimeBefore(ticks, from, |ticks|)
      requires ObstacleEchoes(w, ticks, t0)
      requires forall i :: 0 <= i < |ticks| ==>
        !ticks[i].pressed && t0 <= ticks[i].time && M.OtherReports(ticks[i].others)
      modifies this, scheduler.tasks, app, app.servo, app.sensor
      modifies protocol, protocol.framePayload, protocol.pendingPayload
      modifies uart, uart.rxBuffer, uart.txBuffer
      ensures Valid() && uart.Extended() && Ran(old(Abstract()), old(turns), w, ticks, passes)
      ensures halted ==> M.HasBlock(uart.delivered) && OutputsAreSafe(Abstract().m)
      ensures !halted ==> |passes| == |ticks| && SafeBy(old(Abstract()), passes, t0 + 95 + 4 * g)
    {
      hide Valid, DoPasses, M.OtherReports, SafeBy, ObstacleStays, M.HasBlock, NearIsRead;
      hide ObstacleEchoes, S.Paced, OnTime, Safety.Inv, AreCalls, Knows;
      ghost var s := Abstract();
      SameSchedule(w);
      passes := Loop(ticks, w, from, g, 0);
      if halted {
        BlockCame();
      } else {
        assert Times(passes) == TickTimes(ticks);
        PacedTimes(ticks, from, g);
        ObstacleIsSeen(s, w, ticks, passes, t0);
        ReactionBound(s, passes, t0, from, g);
      }
    }

    lemma SameSchedule(w: Watch)
      requires Knows(w)
      ensures Abstract().started == w.started && Abstract().last == w.last
    {
    }

    lemma BlockCame()
      requires Valid() && halted
      ensures M.HasBlock(uart.delivered)
    {
      hide Valid, M.HasBlock, M.AnswersInOrder, EncodeAll, M.AllSent;
      Answered();
    }

    lemma Answered()
      requires Valid()
      ensures Answers()
    {
      hide Parts, Answers;
      HasAnswered();
    }

    lemma JustStarted(wire: seq<Octet>)
      requires IsNew(wire)
      ensures Knows(BOOT_WATCH) && KeepsUp(last, uart.rxLog)
    {
    }

    lemma RunIsOnTime(ticks: seq<Tick>, passes: seq<Reaction.Pass>, g: nat)
      requires Ran(BOOT_SYSTEM, [], BOOT_WATCH, ticks, passes)
      requires ArePaced(ticks, 0, g) && 30 + g <= S.WRAP
      ensures !halted && |passes| == |ticks| ==>
        OnTime(Abstract(), TimeBefore(ticks, 0, |ticks|)) && Inv(Abstract().m)
      ensures halted ==> IsSafelyHalted()
      ensures 0 < g ==> AreCalledInTime(BOOT_SYSTEM, passes, 0, g)
    {
      hide DoPasses, OnTime, Safety.Inv, S.Paced, Knows, AreCalls, NearIsRead, AreCalledInTime;
      var part := ticks[..|passes|];
      BootIsOnTime();
      assert Times(passes) == TickTimes(part);
      FirstArePaced(ticks, |passes|, g);
      PacedTimes(part, 0, g);
      if !halted && |passes| == |ticks| {
        assert part == ticks;
        LoopIsOnTime(BOOT_SYSTEM, passes, 0, g);
      }
      if 0 < g {
        TasksKeepTheirPeriods(BOOT_SYSTEM, passes, 0, g);
      }
    }

    lemma AllIsKept()
      requires Valid() && KeepsUp(last, uart.rxLog) && F.Spaced(uart.rxLog, None)
      ensures uart.dropped == 0 && uart.seen == uart.kept
    {
      hide S.Scheduler.Valid, A.Application.Valid, P.Protocol.Valid, Wired, F.Spaced, Ring.Contents;
      uart.NothingIsLost();
    }

    lemma Apartness()
      requires Valid()
      ensures Apart() && Parts()
    {
      hide S.Scheduler.Valid, A.Application.Valid, P.Protocol.Valid, U.Uart.Valid, Wired;
    }

    lemma StillApart()
      requires Parts()
      ensures Apart()
    {
      hide S.Scheduler.Valid, A.Application.Valid, P.Protocol.Valid, U.Uart.Valid, Wired;
    }

    lemma Bounded()
      requires Valid()
      ensures uart.horizon.Some? ==> uart.cycle <= uart.horizon.value
      ensures F.IsRun(F.Fill(0, 0), uart.rxLog, 0) && F.LastTime(uart.rxLog, 0) <= uart.cycle
    {
      hide S.Scheduler.Valid, A.Application.Valid, P.Protocol.Valid, Wired, Apart, F.IsRun;
      uart.InTime();
    }

    twostate lemma QuietLine()
      requires old(Valid()) && Valid() && uart.Extended()
      ensures old(uart.line) == [] ==> uart.line == [] && uart.kept == old(uart.kept)
    {
      hide S.Scheduler.Valid, A.Application.Valid, P.Protocol.Valid, U.Uart.Valid, Wired;
      uart.NothingCame();
    }

    lemma LevelIsQuiet(h: Hearing, echo: seq<C.Stimulus>)
      requires Hears(h, echo)
      ensures echo == [] ==> app.sensor.script == [] && app.sensor.level == h.level
    {
      hide C.LevelAfter;
      C.LevelStep(h.level, []);
      C.LevelStep(app.sensor.level, []);
    }
  }

  /** A pass took its inputs from the tick. */
  predicate Meets(p: Reaction.Pass, t: Tick) {
    p.time == t.time && p.clock == t.clock && p.pressed == t.pressed
  }

  function InputOf(t: Tick): M.Input {
    M.Input(t.clock, t.others)
  }

  /** Since the calls `before`, the communication task has been called once with each of
      `calls`; of a halted firmware the last of these has not returned. */
  ghost predicate AreCalls(before: seq<M.Turn>, turns: seq<M.Turn>, halted: bool,
                           final: seq<T.Event>, calls: seq<Tick>)
  {
    && before <= turns && |turns| + (if halted then 1 else 0) == |before| + |calls|
    && (forall i :: |before| <= i < |turns| ==> M.IsCallWith(turns[i], InputOf(calls[i - |before|])))
    && (halted ==> M.IsCallAt(final, calls[|calls| - 1].clock))
  }

  lemma CallIsAdded(before: seq<M.Turn>, turns: seq<M.Turn>, w: Watch, ticks: seq<Tick>, i: nat,
                    longer: seq<M.Turn>, halted: bool, final: seq<T.Event>)
    requires i < |ticks| && AreCalls(before, turns, false, [], CommTicks(w, ticks, i))
    requires Calls(WatchAt(w, ticks, i).last, ticks[i].time, COMMUNICATION) ==>
      if halted then longer == turns && M.IsCallAt(final, ticks[i].clock)
      else |longer| == |turns| + 1 && turns <= longer
           && M.IsCallWith(longer[|turns|], InputOf(ticks[i]))
    requires !Calls(WatchAt(w, ticks, i).last, ticks[i].time, COMMUNICATION) ==>
      !halted && longer == turns
    ensures AreCalls(before, longer, halted, final, CommTicks(w, ticks, i + 1))
  {
    hide Calls, M.IsCallWith, M.IsCallAt, WatchAt;
    if longer != turns {
      assert forall k :: 0 <= k < |turns| ==> longer[k] == turns[k];
    }
  }

  /** A pass that evaluates a measurement which has heard a near echo has read it. */
  predicate NearIsRead(w: Watch, ticks: seq<Tick>, passes: seq<Reaction.Pass>)
    requires |passes| <= |ticks|
  {
    forall i :: 0 <= i < |passes| && Evaluates(WatchAt(w, ticks, i), ticks[i], 0)
                && HeardNear(WatchAt(w, ticks, i).hearing) ==>
      passes[i].reading.Some? && PulseIsCritical(passes[i].reading.value)
  }

  lemma OneMoreRead(w: Watch, ticks: seq<Tick>, passes: seq<Reaction.Pass>, p: Reaction.Pass)
    requires |passes| < |ticks| && NearIsRead(w, ticks, passes)
    requires var at := WatchAt(w, ticks, |passes|);
      Evaluates(at, ticks[|passes|], 0) && HeardNear(at.hearing) ==>
        p.reading.Some? && PulseIsCritical(p.reading.value)
    ensures NearIsRead(w, ticks, passes + [p])
  {
    hide Evaluates, HeardNear, PulseIsCritical, WatchAt;
  }

  /** The machine is scheduled as the inputs say. */
  lemma {:induction false} FollowsWatch(s: System, w: Watch, ticks: seq<Tick>,
                                        passes: seq<Reaction.Pass>, i: nat)
    requires s.started == w.started && s.last == w.last && i <= |passes| <= |ticks|
    requires forall j :: 0 <= j < |passes| ==> Meets(passes[j], ticks[j])
    ensures var r, at := DoPasses(s, passes[..i]), WatchAt(w, ticks, i);
      r.started == at.started && r.last == at.last
  {
    hide DoPass, NextLast, NextStarted, Hear;
    if i > 0 {
      FollowsWatch(s, w, ticks, passes, i - 1);
      OnePassMore(s, passes, i - 1);
      ScheduleOfPass(DoPasses(s, passes[..i - 1]), passes[i - 1]);
    }
  }

  /** An obstacle that echoes is seen. */
  lemma ObstacleIsSeen(s: System, w: Watch, ticks: seq<Tick>, passes: seq<Reaction.Pass>, t0: nat)
    requires s.started == w.started && s.last == w.last && |passes| == |ticks|
    requires forall i :: 0 <= i < |passes| ==>
      Meets(passes[i], ticks[i]) && !ticks[i].pressed && t0 <= ticks[i].time
    requires ObstacleEchoes(w, ticks, t0) && NearIsRead(w, ticks, passes)
    ensures ObstacleStays(s, passes, t0)
  {
    hide DoPass, DoPasses, Calls, IsCalled, HeardNear, PulseIsCritical, WatchAt, ObstacleStays;
    forall i: nat | i < |passes|
      ensures t0 <= passes[i].time && SeesObstacle(DoPasses(s, passes[..i]), passes[i], t0)
    {
      FollowsWatch(s, w, ticks, passes, i);
      ScheduleOfPass(DoPasses(s, passes[..i]), passes[i]);
      assert t0 <= ticks[i].time;
    }
    ObstacleByIndex(s, passes, t0);
  }

  const BOOT_SYSTEM := System(START, None, [0, 0, 0, 0])
  const BOOT_WATCH := Watch(None, [0, 0, 0, 0], Hearing(false, false, [], false))

  /** `main`: start-up and loop. Whatever the wire, the button and the echoes do, with passes at
      most `g` ms apart: every pass takes its inputs from its tick, every task is called in time,
      and the communication task once with every tick at which it is due. A firmware that has not
      halted is where the timed machine is after its passes: no task overdue, outputs as the state
      demands, and once in SAFE_STATE with its fault recorded. One that has halted has received a
      frame that asks for it, and has safe outputs. The bytes accepted for transmission are the frames of
      the communication task's calls, and in each slot these answer the accepted requests once
      each, in order; what has been sent is a prefix. When bytes come at least a byte time apart
      and passes are short enough, no byte of the wire is ever lost. */
  method RunFirmware(timer1: nat, wire: seq<Octet>, ticks: seq<Tick>, ghost g: nat, ghost busy: nat)
    returns (f: Firmware, ghost passes: seq<Reaction.Pass>)
    requires forall i :: 0 <= i < |ticks| ==> M.OtherReports(ticks[i].others)
    requires AreOrdered(ticks, 0) && ArePaced(ticks, 0, g) && 30 + g <= S.WRAP
    ensures fresh(f) && f.Valid() && f.Answers() && f.uart.seen + f.uart.line == wire
    ensures f.Ran(BOOT_SYSTEM, [], BOOT_WATCH, ticks, passes)
    ensures !f.halted ==>
      |passes| == |ticks| && OnTime(f.Abstract(), TimeBefore(ticks, 0, |ticks|)) && Inv(f.Abstract().m)
    ensures f.halted ==> f.IsSafelyHalted()
    ensures 0 < g ==> AreCalledInTime(BOOT_SYSTEM, passes, 0, g)
    ensures KeepsPace(ticks, 0, g, busy) ==> KeepsUp(f.last, f.uart.rxLog)
    ensures KeepsPace(ticks, 0, g, busy) && F.Spaced(f.uart.rxLog, None) ==>
      f.uart.dropped == 0 && f.uart.seen == f.uart.kept
  {
    hide Firmware.Valid, Firmware.Ran, KeepsUp, Firmware.Answers, OnTime, M.OtherReports;
    hide DoPasses, Safety.Inv, S.Paced, F.Spaced, AreCalledInTime;
    f := new Firmware(timer1, wire);
    BootIsOnTime();
    f.JustStarted(wire);
    passes := f.Loop(ticks, BOOT_WATCH, 0, g, busy);
    f.RunIsOnTime(ticks, passes, g);
    if KeepsPace(ticks, 0, g, busy) && F.Spaced(f.uart.rxLog, None) {
      f.AllIsKept();
    }
    f.Answered();
  }

  lemma BootIsOnTime()
    ensures OnTime(BOOT_SYSTEM, 0) && Inv(START)
  {
  }

  lemma NoPasses(s: System)
    ensures DoPasses(s, []) == s
  {
  }

  /** An echo that is complete stays so, whatever follows. */
  lemma {:induction false} EchoStays(s: seq<C.Stimulus>, more: seq<C.Stimulus>)
    requires C.Follow(s).phase == 4
    ensures C.Follow(s + more) == C.Follow(s)
    decreases |more|
  {
    if |more| == 0 {
      assert s + more == s;
    } else {
      var n := |more| - 1;
      EchoStays(s, more[..n]);
      assert s + more == (s + more[..n]) + [more[n]];
      C.FollowStep(s + more[..n], more[n]);
    }
  }

  /** The static state of the four modules, each with its own arrays and drivers. */
  method PowerUp(timer1: nat, wire: seq<Octet>)
    returns (s: S.Scheduler, a: A.Application, p: P.Protocol, u: U.Uart)
    ensures fresh(s) && fresh(s.tasks) && fresh(a) && fresh(a.servo) && fresh(a.sensor)
    ensures fresh(p) && fresh(p.framePayload) && fresh(p.pendingPayload)
    ensures fresh(u) && fresh(u.rxBuffer) && fresh(u.txBuffer)
    ensures s.Valid() && s.tasks[..] == [S.FREE, S.FREE, S.FREE, S.FREE]
    ensures a.Valid() && a.Abstract() == START && !a.sensor.measurementActive
    ensures p.Valid() && u.Valid()
    ensures M.NodeOf(p) == M.BOOT && u.accepted == u.delivered == []
    ensures u.rxLog == [] && u.seen == [] && u.line == wire && u.cycle == 0
    ensures a.sensor.script == [] && !a.sensor.level
    ensures var ofScheduler: set<object>, ofApp: set<object> := {s, s.tasks}, {a, a.servo, a.sensor};
      var ofProtocol: set<object>, ofUart: set<object> :=
        {p, p.framePayload, p.pendingPayload}, {u, u.rxBuffer, u.txBuffer};
      && ofScheduler !! ofApp && ofScheduler !! ofProtocol && ofScheduler !! ofUart
      && ofApp !! ofProtocol && ofApp !! ofUart && ofProtocol !! ofUart
  {
    hide P.Protocol.Valid, U.Uart.Valid, S.Scheduler.Valid, A.Application.Valid;
    s := new S.Scheduler();
    ghost var ofScheduler: set<object> := {s, s.tasks};
    a := new A.Application(timer1);
    ghost var ofApp: set<object> := {a, a.servo, a.sensor};
    assert ofScheduler !! ofApp;
    p := new P.Protocol();
    ghost var ofProtocol: set<object> := {p, p.framePayload, p.pendingPayload};
    assert ofScheduler !! ofProtocol && ofApp !! ofProtocol;
    u := new U.Uart(wire);
  }

  lemma PassInParts(s: System, p: Reaction.Pass, any: Reaction.Pass)
    requires any.time == p.time
    ensures var started := if SENSOR in Order(s, any) then
                             (if s.started.Some? then None else Some(p.time))
                           else s.started;
      DoPass(s, p) == System(Tasks(s, p, COMMUNICATION), started, LastAfter(s, any))
    ensures Order(s, p) == Order(s, any)
  {
    hide Do, Run, IsCalled;
    RunTasks(s, p, TASKS);
    assert Order(s, p) == Order(s, any);
    assert LastAfter(s, p) == LastAfter(s, any);
    assert Tasks(s, p, TASKS) == Tasks(s, p, COMMUNICATION);
  }

  lemma ThreeTasks(s: System, p: Reaction.Pass)
    ensures var measuring := s.started.Some?;
      var m1 := if IsCalled(s, p, ACTUATOR) then Task(s.m, ACTUATOR, p, measuring) else s.m;
      var m2 := if IsCalled(s, p, CONTROL) then Task(m1, CONTROL, p, measuring) else m1;
      Tasks(s, p, COMMUNICATION)
        == if IsCalled(s, p, SENSOR) then Task(m2, SENSOR, p, measuring) else m2
  {
    hide IsCalled, Task;
    var n0, n1, n2 := 0, 1, 2;
    assert Tasks(s, p, n0) == s.m;
    assert Tasks(s, p, n1) == Tasks(s, p, n1);
    assert Tasks(s, p, n2) == Tasks(s, p, n2);
  }

  method RegisterTasks(scheduler: S.Scheduler)
    requires scheduler.Valid() && scheduler.tasks[..] == [S.FREE, S.FREE, S.FREE, S.FREE]
    modifies scheduler.tasks
    ensures scheduler.Valid() && scheduler.tasks[..] == Table([0, 0, 0, 0])
    ensures scheduler.tasks[..] ==
      [S.Entry(Some(0), 1, 0, true), S.Entry(Some(1), 10, 0, true),
       S.Entry(Some(2), 30, 0, true), S.Entry(Some(3), 10, 0, true)]
  {
    hide Table, S.Scheduler.Valid;
    var actuator := Register(scheduler, 0, 1);
    var control := Register(scheduler, 1, 10);
    var sensor := Register(scheduler, 2, 30);
    var communication := Register(scheduler, 3, 10);
    AllRegistered(scheduler.tasks[..]);
    if !actuator || !control || !sensor || !communication {
      assert false;  // main.c halts here with safe outputs
    }
  }

  /** The table when the first `n` tasks are registered. */
  ghost predicate Registered(tasks: seq<S.Entry>, n: nat) {
    && n <= |tasks| == TASKS
    && forall k :: 0 <= k < TASKS ==>
         tasks[k] == if k < n then S.Entry(Some(k), Period(k), 0, true) else S.FREE
  }

  lemma AllRegistered(tasks: seq<S.Entry>)
    requires Registered(tasks, TASKS)
    ensures tasks == Table([0, 0, 0, 0])
    ensures tasks == [S.Entry(Some(0), 1, 0, true), S.Entry(Some(1), 10, 0, true),
                      S.Entry(Some(2), 30, 0, true), S.Entry(Some(3), 10, 0, true)]
  {
  }

  /** Adding task `n` to that table. */
  method Register(scheduler: S.Scheduler, n: nat, period: nat) returns (added: bool)
    requires scheduler.Valid() && n < TASKS && period == Period(n)
    requires Registered(scheduler.tasks[..], n)
    modifies scheduler.tasks
    ensures added && scheduler.Valid() && Registered(scheduler.tasks[..], n + 1)
  {
    ghost var before := scheduler.tasks[..];
    assert forall k :: 0 <= k < TASKS ==> before[k].active == (k < n);
    assert !scheduler.tasks[n].active;
    added := scheduler.AddTask(Some(n), period, 0);
    assert added;
    ghost var k: nat :| k < TASKS && S.IsFirstFree(before, k)
      && scheduler.tasks[..] == before[k := S.Entry(Some(n), period, 0, true)];
    assert k == n;
  }
}
