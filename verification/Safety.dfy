/** The application state of the firmware: firmware/app/system_fsm.c,
    firmware/diagnostics/diagnostics.c, firmware/safety/safety.c and the three tasks of
    firmware/main.c that drive the outputs, as a state machine over task calls. */
module Safety {
  import opened Bytes
  import opened Scheduler

  datatype SystemState = Boot | Idle | Active | SafeState
  datatype SystemEvent = InitDone | StartStop | CriticalFault
  datatype Fault = NoFault | ObstacleCritical

  const STEP_PERIOD_MS := 5
  const TICKS_PER_CENTIMETER := 116
  const THRESHOLD_CM := 20
  const PATTERN_PERIOD_MS := 1000

  /** Everything that outlives a task call. An actuator is one field: the relay, the motor
      running forward, the commanded servo pulse, the LED, and whether any stepper phase is
      driven, with the number of steps made. */
  datatype Machine = Machine(
    state: SystemState, lastFault: Fault, faultCount: nat,
    armed: bool, lastStepMs: nat,
    relay: bool, motor: bool, servoMs: Octet, led: bool, driven: bool, steps: nat)

  // ----- system_fsm.c, diagnostics.c, safety.c -----

  function NextState(s: SystemState, e: SystemEvent): SystemState {
    match s
    case Boot => if e == InitDone then Idle else s
    case Idle => if e == StartStop then Active else s
    case Active => if e == StartStop then Idle else if e == CriticalFault then SafeState else s
    case SafeState => s
  }

  function RecordFault(m: Machine, fault: Fault): Machine {
    if fault == NoFault || fault == m.lastFault then m
    else m.(lastFault := fault, faultCount := (m.faultCount + 1) % 0x1_0000)
  }

  predicate ObstacleIsCritical(valid: bool, distanceCm: nat) {
    valid && distanceCm > 0 && distanceCm <= THRESHOLD_CM
  }

  /** What `sensor_safety_task` decides about a pulse. */
  predicate PulseIsCritical(ticks: nat) {
    var distanceCm := ticks / TICKS_PER_CENTIMETER;
    ObstacleIsCritical(distanceCm > 0, distanceCm)
  }

  lemma CriticalWindow(ticks: nat)
    ensures PulseIsCritical(ticks) <==> 116 <= ticks <= 2435
  {
  }

  // ----- the tasks -----

  /** `set_safe_outputs`. */
  function SafeOutputs(m: Machine): Machine {
    m.(driven := false, motor := false, relay := false, servoMs := 1, led := false)
  }

  /** `apply_safe_state_led`. */
  function SafeStateLed(fault: Fault, now: nat): bool {
    var phase := now % PATTERN_PERIOD_MS;
    if fault == ObstacleCritical then phase < 150 || (phase >= 300 && phase < 450)
    else phase < 500
  }

  function ActuatorTask(m: Machine, now: nat): Machine {
    if m.state == Active then
      if Sub32(now, m.lastStepMs) >= STEP_PERIOD_MS then
        m.(lastStepMs := now, driven := true, steps := m.steps + 1)
      else m
    else m.(driven := false, lastStepMs := now)
  }

  /** The button part of `control_task`. */
  function ServeButton(m: Machine, pressed: bool): Machine {
    if m.state == SafeState then m.(armed := false)
    else if !pressed then m.(armed := true)
    else if m.armed then
      m.(armed := false,
         state := if m.state == Idle || m.state == Active then NextState(m.state, StartStop)
                  else m.state)
    else m
  }

  /** The output part of `control_task`. */
  function CommandOutputs(m: Machine, now: nat): Machine {
    match m.state
    case Idle => m.(relay := false, motor := false, servoMs := 1, led := false)
    case Active => m.(relay := true, motor := true, servoMs := 2, led := true)
    case SafeState =>
      m.(relay := false, motor := false, servoMs := 1, led := SafeStateLed(m.lastFault, now))
    case Boot => SafeOutputs(m)
  }

  function ControlTask(m: Machine, pressed: bool, now: nat): Machine {
    CommandOutputs(ServeButton(m, pressed), now)
  }

  /** `sensor_safety_task`, given what the driver handed over: `None` at a start and when no
      result was ready. */
  function SensorTask(m: Machine, reading: Option<nat>): Machine {
    if reading.Some? && m.state == Active && PulseIsCritical(reading.value) then
      RecordFault(m, ObstacleCritical).(state := NextState(m.state, CriticalFault))
    else m
  }

  /** A task call. The communication task does not touch this state until it blocks. */
  datatype Call = Actuator(now: nat) | Control(pressed: bool, now: nat) | Sensor(reading: Option<nat>)

  function Do(m: Machine, c: Call): Machine {
    match c
    case Actuator(now) => ActuatorTask(m, now)
    case Control(pressed, now) => ControlTask(m, pressed, now)
    case Sensor(reading) => SensorTask(m, reading)
  }

  /** Any calls in any order. */
  function Run(m: Machine, calls: seq<Call>): Machine {
    if |calls| == 0 then m else Do(Run(m, calls[..|calls| - 1]), calls[|calls| - 1])
  }

  /** The state when `main` enters its loop. */
  const START := Machine(Idle, NoFault, 0, false, 0, false, false, 1, false, false, 0)

  lemma {:induction false} RunConcat(m: Machine, a: seq<Call>, b: seq<Call>)
    ensures Run(m, a + b) == Run(Run(m, a), b)
  {
    hide Do;
    if |b| == 0 {
      assert a + b == a;
    } else {
      var n := |b| - 1;
      assert (a + b)[..|a + b| - 1] == a + b[..n];
      RunConcat(m, a, b[..n]);
    }
  }

  // ----- what every run keeps -----

  predicate OutputsAreSafe(m: Machine) {
    !m.relay && !m.motor && m.servoMs == 1
  }

  predicate OutputsAreActive(m: Machine) {
    m.relay && m.motor && m.servoMs == 2
  }

  predicate Inv(m: Machine) {
    && m.state != Boot
    && (m.state == SafeState <==> m.lastFault == ObstacleCritical)
    && m.faultCount == (if m.state == SafeState then 1 else 0)
    && (OutputsAreActive(m) || OutputsAreSafe(m))
    && (m.state == Active ==> OutputsAreActive(m) && m.led)
    && (m.state == Idle ==> OutputsAreSafe(m) && !m.led)
  }

  /** What one call does to a machine that satisfies the invariant. */
  lemma OneCall(m: Machine, c: Call)
    requires Inv(m)
    ensures var r := Do(m, c);
      && Inv(r)
      && (m.state == SafeState ==>
            && r.state == SafeState && r.steps == m.steps && r.lastFault == m.lastFault
            && (OutputsAreSafe(m) || c.Control? ==> OutputsAreSafe(r))
            && (!m.driven || c.Actuator? ==> !r.driven)
            && (!c.Control? ==> r.relay == m.relay))
      && (m.state != SafeState && r.state == SafeState ==> c.Sensor? && r.relay)
  {
    hide Sub32, PulseIsCritical, SafeStateLed;
  }

  lemma {:induction false} InvIsKept(m: Machine, calls: seq<Call>)
    requires Inv(m)
    ensures Inv(Run(m, calls))
  {
    hide Do, Inv;
    if |calls| > 0 {
      var n := |calls| - 1;
      InvIsKept(m, calls[..n]);
      OneCall(Run(m, calls[..n]), calls[n]);
    }
  }

  lemma InvInEveryRun(calls: seq<Call>)
    ensures Inv(Run(START, calls))
  {
    InvIsKept(START, calls);
  }

  /** The state is SAFE_STATE exactly when the recorded fault is the obstacle, exactly when
      the fault count is 1. */
  lemma FaultsAgree(calls: seq<Call>)
    ensures var m := Run(START, calls);
      && (m.state == SafeState <==> m.lastFault == ObstacleCritical)
      && (m.state == SafeState <==> m.faultCount == 1)
      && m.faultCount <= 1
  {
    InvInEveryRun(calls);
  }

  /** In SAFE_STATE the LED shows the obstacle pattern: the fallback is unreachable. */
  lemma FallbackPatternIsNeverShown(calls: seq<Call>, pressed: bool, now: nat)
    requires Run(START, calls).state == SafeState
    ensures var phase, led := now % 1000, Do(Run(START, calls), Control(pressed, now)).led;
      led == (phase < 150 || 300 <= phase < 450)
  {
    InvInEveryRun(calls);
  }

  /** SAFE_STATE is a trap, whatever the tasks do and in whatever order. */
  lemma {:induction false} SafeStateIsLatched(m: Machine, calls: seq<Call>)
    requires m.state == SafeState && Inv(m)
    ensures var r := Run(m, calls);
      && r.state == SafeState && r.steps == m.steps
      && r.lastFault == m.lastFault && r.faultCount == m.faultCount
      && (OutputsAreSafe(m) || (exists i :: 0 <= i < |calls| && calls[i].Control?)
          ==> OutputsAreSafe(r))
      && (!m.driven || (exists i :: 0 <= i < |calls| && calls[i].Actuator?) ==> !r.driven)
  {
    hide Do;
    if |calls| > 0 {
      var n := |calls| - 1;
      SafeStateIsLatched(m, calls[..n]);
      InvIsKept(m, calls[..n]);
      OneCall(Run(m, calls[..n]), calls[n]);
      assert forall i :: 0 <= i < n ==> calls[..n][i] == calls[i];
    }
  }

  /** A control call made in SAFE_STATE during the run. */
  ghost predicate ControlSawSafe(calls: seq<Call>) {
    exists j :: 0 <= j < |calls| && CallSawSafe(calls, j)
  }

  ghost predicate CallSawSafe(calls: seq<Call>, j: nat)
    requires j < |calls|
  {
    calls[j].Control? && Run(START, calls[..j]).state == SafeState
  }

  lemma SawSafeSoFar(calls: seq<Call>)
    requires |calls| > 0
    ensures var n := |calls| - 1;
      ControlSawSafe(calls) == (ControlSawSafe(calls[..n]) || CallSawSafe(calls, n))
  {
    hide Run;
    var n := |calls| - 1;
    assert forall j :: 0 <= j < n ==> calls[..n][..j] == calls[..j];
    assert forall j :: 0 <= j < n ==> CallSawSafe(calls, j) == CallSawSafe(calls[..n], j);
  }

  /** The relay, motor and servo follow ACTIVE exactly, but for the time between a fault and
      the next control task: then, and only then, they are still on outside ACTIVE. */
  lemma {:induction false} OnOutsideActiveWhen(calls: seq<Call>)
    ensures var m := Run(START, calls);
      && (m.relay && m.state != Active <==> m.state == SafeState && !ControlSawSafe(calls))
      && (m.state == Active ==> OutputsAreActive(m))
      && m.relay == m.motor == (m.servoMs == 2)
  {
    hide Do, ControlSawSafe;
    InvInEveryRun(calls);
    if |calls| == 0 {
      NothingSeen();
    } else {
      var n := |calls| - 1;
      OnOutsideActiveWhen(calls[..n]);
      InvInEveryRun(calls[..n]);
      OneCall(Run(START, calls[..n]), calls[n]);
      SawSafeSoFar(calls);
      SafeLater(calls[..n]);
    }
  }

  lemma NothingSeen()
    ensures !ControlSawSafe([])
  {
  }

  /** Before the fault no control call has seen SAFE_STATE. */
  lemma SafeLater(calls: seq<Call>)
    ensures ControlSawSafe(calls) ==> Run(START, calls).state == SafeState
  {
    hide Do;
    if ControlSawSafe(calls) {
      var j :| 0 <= j < |calls| && CallSawSafe(calls, j);
      InvInEveryRun(calls[..j]);
      SafeStateIsLatched(Run(START, calls[..j]), calls[j..]);
      RunConcat(START, calls[..j], calls[j..]);
      assert calls == calls[..j] + calls[j..];
    }
  }

  /** The requirement that the relay be on only in ACTIVE fails right after a fault: two control
      calls, a start of a measurement, and its evaluation. */
  lemma RelayOutlivesFault() returns (calls: seq<Call>)
    ensures Run(START, calls).state == SafeState && Run(START, calls).relay
  {
    calls := [Control(false, 10), Control(true, 20), Sensor(None), Sensor(Some(1160))];
    var one, two, three := calls[..1], calls[..2], calls[..3];
    assert one[..0] == [] && two[..1] == one && three[..2] == two && calls[..|calls| - 1] == three;
    assert Run(START, one).armed && Run(START, one).state == Idle;
    assert Run(START, two).state == Active && Run(START, two).relay;
    assert Run(START, three) == Run(START, two);
  }

  // ----- the button -----

  predicate IsRelease(c: Call) {
    c.Control? && !c.pressed
  }

  /** Call `i` moves between IDLE and ACTIVE. */
  ghost predicate Toggles(m: Machine, calls: seq<Call>, i: nat)
    requires i < |calls|
  {
    var before, after := Run(m, calls[..i]).state, Run(m, calls[..i + 1]).state;
    (before == Idle && after == Active) || (before == Active && after == Idle)
  }

  lemma OneButtonCall(m: Machine, c: Call)
    ensures var r := Do(m, c);
      && (r.armed && !m.armed ==> IsRelease(c))
      && ((m.state == Idle && r.state == Active) || (m.state == Active && r.state == Idle)
          ==> m.armed && !r.armed && c.Control? && c.pressed)
  {
    hide Sub32, PulseIsCritical, SafeStateLed;
  }

  /** From an unarmed state nothing toggles before a release. */
  lemma {:induction false} NoToggleWithoutRelease(m: Machine, calls: seq<Call>)
    requires !m.armed && forall k :: 0 <= k < |calls| ==> !IsRelease(calls[k])
    ensures !Run(m, calls).armed
    ensures forall i :: 0 <= i < |calls| ==> !Toggles(m, calls, i)
  {
    hide Do;
    if |calls| > 0 {
      var n := |calls| - 1;
      var rest := calls[..n];
      NoToggleWithoutRelease(m, rest);
      OneButtonCall(Run(m, rest), calls[n]);
      forall i | 0 <= i < |calls| ensures !Toggles(m, calls, i) {
        if i < n {
          assert calls[..i] == rest[..i] && calls[..i + 1] == rest[..i + 1];
          assert !Toggles(m, rest, i);
        } else {
          assert calls[..i + 1] == calls;
        }
      }
    }
  }

  /** One transition per press: between two toggles, and before the first, the button was
      seen released. */
  lemma OneTogglePerPress(calls: seq<Call>, i: nat, j: nat)
    requires i < j < |calls| && Toggles(START, calls, i) && Toggles(START, calls, j)
    ensures exists k :: 0 <= k < i && IsRelease(calls[k])
    ensures exists k :: i < k < j && IsRelease(calls[k])
  {
    hide Do;
    var upToI := calls[..i + 1];
    assert upToI[..i] == calls[..i] && upToI[..i + 1] == upToI;
    if forall k :: 0 <= k < i ==> !IsRelease(calls[k]) {
      OneButtonCall(Run(START, calls[..i]), calls[i]);
      NoToggleWithoutRelease(START, calls[..i]);
      assert false;
    }
    if forall k :: i < k < j ==> !IsRelease(calls[k]) {
      var m, between := Run(START, upToI), calls[i + 1..j];
      OneButtonCall(Run(START, calls[..i]), calls[i]);
      NoToggleWithoutRelease(m, between);
      RunConcat(START, upToI, between);
      assert upToI + between == calls[..j];
      assert calls[..j + 1][..j] == calls[..j];
      OneButtonCall(Run(START, calls[..j]), calls[j]);
      assert false;
    }
  }

  /** The last control call of a run. */
  function LastControl(calls: seq<Call>): Option<Call> {
    if |calls| == 0 then None
    else if calls[|calls| - 1].Control? then Some(calls[|calls| - 1])
    else LastControl(calls[..|calls| - 1])
  }

  predicate WasReleased(calls: seq<Call>) {
    LastControl(calls).Some? && IsRelease(LastControl(calls).value)
  }

  lemma {:induction false} ArmedWhen(calls: seq<Call>)
    ensures var m := Run(START, calls);
      m.state == Idle || m.state == Active ==> m.armed == WasReleased(calls)
  {
    hide Sub32, PulseIsCritical, SafeStateLed;
    if |calls| > 0 {
      var n := |calls| - 1;
      ArmedWhen(calls[..n]);
      InvInEveryRun(calls[..n]);
    }
  }

  /** A press always acts, and at once: outside SAFE_STATE a control call moves between IDLE and
      ACTIVE exactly when it sees the button pressed and the one before saw it released. */
  lemma ToggleWhen(calls: seq<Call>, pressed: bool, now: nat)
    requires Run(START, calls).state != SafeState
    ensures var m := Run(START, calls);
      var before, after := m.state, Do(m, Control(pressed, now)).state;
      && (after != before <==> pressed && WasReleased(calls))
      && (after != before ==> after == if before == Idle then Active else Idle)
  {
    hide SafeStateLed, Run;
    ArmedWhen(calls);
    InvInEveryRun(calls);
  }

  // ----- the stepper -----

  /** A call as the stepper sees it: an actuator call at an unbounded time, or another one. */
  datatype Timed = Step(time: nat) | Other(call: Call)

  predicate IsTimed(c: Timed) {
    c.Other? ==> !c.call.Actuator?
  }

  function ToCall(c: Timed): Call {
    match c
    case Step(time) => Actuator(time % WRAP)
    case Other(call) => call
  }

  function ToCalls(s: seq<Timed>): (calls: seq<Call>)
    ensures |calls| == |s| && forall i :: 0 <= i < |s| ==> calls[i] == ToCall(s[i])
  {
    seq(|s|, i requires 0 <= i < |s| => ToCall(s[i]))
  }

  /** The times of the actuator calls. */
  function StepTimes(s: seq<Timed>): seq<nat>
    decreases |s|
  {
    if |s| == 0 then []
    else (if s[0].Step? then [s[0].time] else []) + StepTimes(s[1..])
  }

  /** ACTIVE holds before and after each of the calls. */
  predicate StaysActive(m: Machine, s: seq<Timed>)
    decreases |s|
  {
    m.state == Active && (|s| > 0 ==> IsTimed(s[0]) && StaysActive(Do(m, ToCall(s[0])), s[1..]))
  }

  lemma RunTimed(m: Machine, s: seq<Timed>)
    requires |s| > 0
    ensures Run(m, ToCalls(s)) == Run(Do(m, ToCall(s[0])), ToCalls(s[1..]))
  {
    hide Do, ToCall;
    assert ToCalls(s) == [ToCall(s[0])] + ToCalls(s[1..]);
    RunConcat(m, [ToCall(s[0])], ToCalls(s[1..]));
    RunOne(m, ToCall(s[0]));
  }

  lemma OneTimedCall(m: Machine, c: Timed, last: nat, from: nat, g: nat)
    requires m.state == Active && IsTimed(c) && m.lastStepMs == last % WRAP
    requires last <= from < last + STEP_PERIOD_MS && STEP_PERIOD_MS + g <= WRAP
    requires c.Step? ==> from <= c.time <= from + g
    ensures var r, steps := Do(m, ToCall(c)), c.Step? && c.time - last >= STEP_PERIOD_MS;
      && r.steps == m.steps + (if steps then 1 else 0)
      && r.lastStepMs == (if steps then c.time else last) % WRAP
  {
    hide PulseIsCritical, SafeStateLed;
    if c.Step? {
      Sub32OfWrapped(c.time, last);
    }
  }

  /** While ACTIVE lasts, whatever other calls come between, the stepper is stepped by the rule
      of a periodic task of 5 ms, so its steps are 5 to 4 + g ms apart when actuator calls are
      at most g ms apart; the wrapping clock does not show. */
  lemma {:induction false} StepsArePeriodic(m: Machine, last: nat, from: nat, s: seq<Timed>, g: nat)
    requires StaysActive(m, s) && m.lastStepMs == last % WRAP
    requires last <= from < last + STEP_PERIOD_MS && Paced(from, StepTimes(s), g)
    requires STEP_PERIOD_MS + g <= WRAP
    ensures var steps := Dispatches(last, STEP_PERIOD_MS, StepTimes(s));
      && Run(m, ToCalls(s)).steps == m.steps + |steps|
      && Spaced(last, steps, STEP_PERIOD_MS, STEP_PERIOD_MS + g - 1)
    decreases |s|
  {
    hide Do, Spaced, ToCall;
    DispatchesAreSpaced(last, STEP_PERIOD_MS, from, StepTimes(s), g);
    if |s| > 0 {
      var c, rest := s[0], s[1..];
      OneTimedCall(m, c, last, from, g);
      if c.Step? {
        assert StepTimes(s)[1..] == StepTimes(rest);
      } else {
        assert StepTimes(s) == StepTimes(rest);
      }
      StepsArePeriodic(Do(m, ToCall(c)), if c.Step? && c.time - last >= STEP_PERIOD_MS then c.time else last,
                       if c.Step? then c.time else from, rest, g);
      RunTimed(m, s);
    }
  }

  /** The machine after a timed run from start-up. */
  function Reached(s: seq<Timed>): Machine {
    Run(START, ToCalls(s))
  }

  predicate AreTimed(s: seq<Timed>) {
    forall i :: 0 <= i < |s| ==> IsTimed(s[i])
  }

  /** An actuator call that makes a step, or finds a state other than ACTIVE. */
  predicate Marks(m: Machine, c: Timed) {
    c.Step? && (m.state != Active || Do(m, ToCall(c)).steps > m.steps)
  }

  /** The time of the last such call of a run; 0 before the first. */
  function Mark(s: seq<Timed>): nat {
    if |s| == 0 then 0
    else
      var n := |s| - 1;
      if Marks(Reached(s[..n]), s[n]) then s[n].time else Mark(s[..n])
  }

  lemma ReachedNext(s: seq<Timed>)
    requires |s| > 0
    ensures var n := |s| - 1; Reached(s) == Do(Reached(s[..n]), ToCall(s[n]))
  {
    hide Do, ToCall;
    assert ToCalls(s)[..|s| - 1] == ToCalls(s[..|s| - 1]);
  }

  lemma {:induction false} StepTimesConcat(a: seq<Timed>, b: seq<Timed>)
    ensures StepTimes(a + b) == StepTimes(a) + StepTimes(b)
    decreases |a|
  {
    if |a| == 0 {
      assert a + b == b;
    } else {
      assert (a + b)[1..] == a[1..] + b;
      StepTimesConcat(a[1..], b);
    }
  }

  lemma {:induction false} PacedConcat(from: nat, a: seq<nat>, b: seq<nat>, g: nat)
    ensures Paced(from, a + b, g) <==> Paced(from, a, g) && Paced(End(from, a), b, g)
    decreases |a|
  {
    if |a| == 0 {
      assert a + b == b;
    } else {
      assert (a + b)[1..] == a[1..] + b;
      PacedConcat(a[0], a[1..], b, g);
      assert End(from, a) == End(a[0], a[1..]);
    }
  }

  /** A call at the end of a run: an actuator call comes at most `g` ms after the one before. */
  lemma LastIsPaced(s: seq<Timed>, g: nat)
    requires |s| > 0 && AreTimed(s) && Paced(0, StepTimes(s), g)
    ensures var n := |s| - 1; var last := End(0, StepTimes(s[..n]));
      && AreTimed(s[..n]) && Paced(0, StepTimes(s[..n]), g)
      && (s[n].Step? ==> last <= s[n].time <= last + g && End(0, StepTimes(s)) == s[n].time)
      && (s[n].Other? ==> End(0, StepTimes(s)) == last)
  {
    var n := |s| - 1;
    var rest, one := s[..n], [s[n]];
    assert s == rest + one && one[1..] == [];
    StepTimesConcat(rest, one);
    assert StepTimes(one) == if s[n].Step? then [s[n].time] else [];
    PacedConcat(0, StepTimes(rest), StepTimes(one), g);
    assert s[n].Other? ==> StepTimes(s) == StepTimes(rest);
  }

  /** The field `last_step_ms` is the wrapped time of the last mark, over any run from start-up
      with actuator calls at most `g` ms apart, and no actuator call is 5 ms behind it. */
  lemma {:induction false} MarkIsKept(s: seq<Timed>, g: nat)
    requires AreTimed(s) && Paced(0, StepTimes(s), g) && 5 + g <= WRAP
    ensures Reached(s).lastStepMs == Mark(s) % WRAP
    ensures Mark(s) <= End(0, StepTimes(s)) < Mark(s) + 5
  {
    hide Run, Paced, End, StepTimes;
    if |s| == 0 {
      StartsAtZero();
    } else {
      var n := |s| - 1;
      LastIsPaced(s, g);
      MarkIsKept(s[..n], g);
      ReachedNext(s);
      OneMark(Reached(s[..n]), s[n], Mark(s[..n]));
    }
  }

  lemma StartsAtZero()
    ensures Reached([]) == START && End(0, StepTimes([])) == 0
  {
  }

  /** One call, `last` being the last mark before it. */
  lemma OneMark(m: Machine, c: Timed, last: nat)
    requires IsTimed(c) && m.lastStepMs == last % WRAP && (c.Step? ==> last <= c.time < last + WRAP)
    ensures Do(m, ToCall(c)).lastStepMs == (if Marks(m, c) then c.time else last) % WRAP
    ensures c.Step? ==>
      Do(m, ToCall(c)).steps == m.steps + (if m.state == Active && c.time >= last + 5 then 1 else 0)
  {
    hide PulseIsCritical, SafeStateLed;
    if c.Step? {
      Sub32OfWrapped(c.time, last);
    }
  }

  /** Exactly when the stepper steps, in any run from start-up and however the clock wraps: in
      ACTIVE, 5 ms or more after the last actuator call that made a step or found another state. */
  lemma StepWhen(s: seq<Timed>, i: nat, g: nat)
    requires AreTimed(s) && Paced(0, StepTimes(s), g) && 5 + g <= WRAP && i < |s| && s[i].Step?
    ensures var before, after := Reached(s[..i]), Reached(s[..i + 1]);
      after.steps == before.steps
        + (if before.state == Active && s[i].time >= Mark(s[..i]) + 5 then 1 else 0)
  {
    hide Run, Paced, End, StepTimes, Do;
    var upTo := s[..i + 1];
    RunPart(s, i + 1, g);
    assert upTo[..i] == s[..i];
    LastIsPaced(upTo, g);
    MarkIsKept(s[..i], g);
    ReachedNext(upTo);
    OneMark(Reached(s[..i]), s[i], Mark(s[..i]));
  }

  lemma RunPart(s: seq<Timed>, n: nat, g: nat)
    requires AreTimed(s) && Paced(0, StepTimes(s), g) && n <= |s|
    ensures AreTimed(s[..n]) && Paced(0, StepTimes(s[..n]), g)
    ensures Paced(End(0, StepTimes(s[..n])), StepTimes(s[n..]), g)
  {
    assert s == s[..n] + s[n..];
    StepTimesConcat(s[..n], s[n..]);
    PacedConcat(0, StepTimes(s[..n]), StepTimes(s[n..]), g);
  }

  /** A mark is not forgotten. */
  lemma {:induction false} MarkGrows(s: seq<Timed>, i: nat, g: nat)
    requires AreTimed(s) && Paced(0, StepTimes(s), g) && i < |s| && Marks(Reached(s[..i]), s[i])
    ensures s[i].time <= Mark(s) && s[i].time <= End(0, StepTimes(s))
    decreases |s|
  {
    hide Run, Paced, End, StepTimes, Marks;
    var n := |s| - 1;
    LastIsPaced(s, g);
    if i < n {
      assert s[..n][..i] == s[..i];
      MarkGrows(s[..n], i, g);
    }
    assert forall m: Machine :: Marks(m, s[n]) ==> s[n].Step? by {
      MarksAreSteps(s[n]);
    }
  }

  lemma MarksAreSteps(c: Timed)
    ensures forall m: Machine :: Marks(m, c) ==> c.Step?
  {
  }

  /** After an actuator call that finds a state other than ACTIVE none makes a step for 5 ms,
      whatever is pressed in between. */
  lemma NoStepAfterIdle(s: seq<Timed>, i: nat, j: nat, g: nat)
    requires AreTimed(s) && Paced(0, StepTimes(s), g) && 5 + g <= WRAP
    requires i < j < |s| && s[i].Step? && Reached(s[..i]).state != Active
    requires s[j].Step? && s[j].time < s[i].time + 5
    ensures Reached(s[..j + 1]).steps == Reached(s[..j]).steps
  {
    hide Run, Paced, End, StepTimes, Do;
    RunPart(s, j, g);
    assert s[..j][..i] == s[..i] && s[..j][i] == s[i];
    MarkGrows(s[..j], i, g);
    StepWhen(s, j, g);
  }

  lemma {:induction false} OthersDoNotMark(s: seq<Timed>, rest: seq<Timed>)
    requires forall i :: 0 <= i < |rest| ==> rest[i].Other?
    ensures Mark(s + rest) == Mark(s)
    decreases |rest|
  {
    if |rest| == 0 {
      assert s + rest == s;
    } else {
      var n := |rest| - 1;
      assert (s + rest)[..|s| + n] == s + rest[..n];
      OthersDoNotMark(s, rest[..n]);
    }
  }

  /** When ACTIVE is entered after an actuator call at `t` that found another state, and lasts,
      steps are counted from `t`: the first comes 5 to 4 + g ms after it, and so does each of
      the others after the one before. */
  lemma StepsAfterEntry(before: seq<Timed>, t: nat, entry: seq<Timed>, s: seq<Timed>, g: nat)
    requires Reached(before).state != Active && forall i :: 0 <= i < |entry| ==> entry[i].Other?
    requires var all := before + [Step(t)] + entry + s;
      AreTimed(all) && Paced(0, StepTimes(all), g) && 5 + g <= WRAP
    requires StaysActive(Reached(before + [Step(t)] + entry), s)
    ensures var m, steps := Reached(before + [Step(t)] + entry), Dispatches(t, 5, StepTimes(s));
      && Run(m, ToCalls(s)).steps == m.steps + |steps|
      && Spaced(t, steps, 5, 4 + g)
  {
    hide Run, Paced, End, StepTimes, Do, StaysActive, Spaced, Dispatches;
    var first := before + [Step(t)];
    assert first[..|before|] == before;
    assert Mark(first) == t;
    OthersDoNotMark(first, entry);
    StepsInActive(first + entry, s, g);
  }

  /** The same for any run that has come to ACTIVE, counted from its last mark. */
  lemma StepsInActive(before: seq<Timed>, s: seq<Timed>, g: nat)
    requires AreTimed(before + s) && Paced(0, StepTimes(before + s), g) && 5 + g <= WRAP
    requires StaysActive(Reached(before), s)
    ensures var m, steps := Reached(before), Dispatches(Mark(before), 5, StepTimes(s));
      && Run(m, ToCalls(s)).steps == m.steps + |steps|
      && Spaced(Mark(before), steps, 5, 4 + g)
  {
    hide Run, Paced, End, StepTimes, Do, StaysActive, Spaced, Dispatches;
    var all := before + s;
    assert all[..|before|] == before && all[|before|..] == s;
    RunPart(all, |before|, g);
    MarkIsKept(before, g);
    StepsArePeriodic(Reached(before), Mark(before), End(0, StepTimes(before)), s, g);
  }

  lemma RunOne(m: Machine, c: Call)
    ensures Run(m, [c]) == Do(m, c)
  {
    hide Do;
    assert [c][..0] == [];
  }

  /** Call `j` makes a step, and every later actuator call sees ACTIVE. */
  ghost predicate LastsFrom(calls: seq<Call>, j: nat)
    requires 0 <= j < |calls|
  {
    && calls[j].Actuator? && Run(START, calls[..j + 1]).steps > Run(START, calls[..j]).steps
    && forall k :: j < k < |calls| && calls[k].Actuator? ==> Run(START, calls[..k]).state == Active
  }

  ghost predicate PhasesAreOn(calls: seq<Call>) {
    exists j :: 0 <= j < |calls| && LastsFrom(calls, j)
  }

  lemma OneMoreDrive(calls: seq<Call>)
    requires |calls| > 0
    ensures var n := |calls| - 1;
      var m, c := Run(START, calls[..n]), calls[n];
      PhasesAreOn(calls) == ((c.Actuator? && Do(m, c).steps > m.steps)
        || (PhasesAreOn(calls[..n]) && (c.Actuator? ==> m.state == Active)))
  {
    hide Do;
    var n := |calls| - 1;
    var rest, m, c := calls[..n], Run(START, calls[..n]), calls[n];
    assert calls[..n + 1] == calls;
    forall j: nat | j < n
      ensures LastsFrom(calls, j) == (LastsFrom(rest, j) && (c.Actuator? ==> m.state == Active))
    {
      assert rest[..j] == calls[..j] && rest[..j + 1] == calls[..j + 1];
      assert forall k :: j < k < n ==> rest[..k] == calls[..k] && rest[k] == calls[k];
    }
    assert LastsFrom(calls, n) == (c.Actuator? && Do(m, c).steps > m.steps);
    if PhasesAreOn(rest) {
      var j :| 0 <= j < n && LastsFrom(rest, j);
      assert LastsFrom(calls, j) == (c.Actuator? ==> m.state == Active);
    }
  }

  /** A stepper phase is driven exactly when a step has been made that no actuator call
      outside ACTIVE has followed. */
  lemma {:induction false} DrivenWhen(calls: seq<Call>)
    ensures Run(START, calls).driven == PhasesAreOn(calls)
  {
    hide PhasesAreOn, Sub32, PulseIsCritical, SafeStateLed;
    InvInEveryRun(calls);
    if |calls| == 0 {
      NothingDriven();
    } else {
      DrivenWhen(calls[..|calls| - 1]);
      InvInEveryRun(calls[..|calls| - 1]);
      OneMoreDrive(calls);
    }
  }

  lemma NothingDriven()
    ensures !PhasesAreOn([])
  {
  }

  /** The machine after the first `k` calls of a run. */
  function After(calls: seq<Call>, k: nat): Machine
    requires k <= |calls|
  {
    Run(START, calls[..k])
  }

  lemma SameBefore(calls: seq<Call>, n: nat, k: nat)
    requires k <= n <= |calls|
    ensures After(calls[..n], k) == After(calls, k)
  {
    assert calls[..n][..k] == calls[..k];
  }

  /** ACTIVE was left by call `j` with a phase driven, and since then it has not come back and
      no actuator call has been made. */
  ghost predicate LeftDriven(calls: seq<Call>, j: nat)
    requires j < |calls|
  {
    && After(calls, j).state == Active && After(calls, j).driven
    && forall k: nat :: j < k <= |calls| ==>
         After(calls, k).state != Active && (k < |calls| ==> !calls[k].Actuator?)
  }

  lemma LeftDrivenSoFar(calls: seq<Call>, j: nat)
    requires j + 1 < |calls|
    ensures var n := |calls| - 1;
      LeftDriven(calls, j)
        == (LeftDriven(calls[..n], j) && After(calls, n + 1).state != Active && !calls[n].Actuator?)
  {
    hide After;
    var n := |calls| - 1;
    var rest := calls[..n];
    forall k: nat | k <= n ensures After(rest, k) == After(calls, k) {
      SameBefore(calls, n, k);
    }
    if LeftDriven(calls, j) {
      assert After(calls, n + 1).state != Active && After(calls, n).state != Active;
      forall k: nat | j < k <= n
        ensures After(rest, k).state != Active && (k < n ==> !rest[k].Actuator?)
      {
        assert After(calls, k).state != Active;
      }
    }
    if LeftDriven(rest, j) && After(calls, n + 1).state != Active && !calls[n].Actuator? {
      forall k: nat | j < k <= n + 1
        ensures After(calls, k).state != Active && (k < n + 1 ==> !calls[k].Actuator?)
      {
        if k <= n {
          assert After(rest, k).state != Active;
          assert k < n ==> rest[k] == calls[k];
        }
      }
    }
  }

  lemma OneDrivenCall(m: Machine, c: Call)
    requires Inv(m)
    ensures var r := Do(m, c);
      && (m.state != Active ==> r.driven == (m.driven && !c.Actuator?))
      && (m.state == Active && r.state != Active ==> !c.Actuator? && r.driven == m.driven)
  {
    hide Sub32, PulseIsCritical, SafeStateLed;
  }

  /** Outside ACTIVE a phase is driven exactly when one was when ACTIVE was left and no
      actuator call has been made since. */
  lemma {:induction false} DrivenOutsideActiveWhen(calls: seq<Call>)
    ensures var m := Run(START, calls);
      (m.driven && m.state != Active) <==> (exists j: nat :: j < |calls| && LeftDriven(calls, j))
  {
    hide Do, Inv;
    if |calls| > 0 {
      var n := |calls| - 1;
      var rest, c := calls[..n], calls[n];
      var before, m := Run(START, rest), Run(START, calls);
      assert calls[..|calls|] == calls;
      DrivenOutsideActiveWhen(rest);
      InvInEveryRun(rest);
      OneDrivenCall(before, c);
      forall j: nat | j < n
        ensures LeftDriven(calls, j) == (LeftDriven(rest, j) && m.state != Active && !c.Actuator?)
      {
        LeftDrivenSoFar(calls, j);
      }
      assert calls[..n + 1] == calls && After(calls, n) == before && After(calls, n + 1) == m;
      assert LeftDriven(calls, n) == (before.state == Active && before.driven && m.state != Active);
    }
  }

  /** The requirement that phase drive be removed outside ACTIVE fails until the next actuator
      call: two presses, and IDLE is entered with a phase on. */
  lemma PhaseOutlivesActive() returns (calls: seq<Call>)
    ensures Run(START, calls).state == Idle && Run(START, calls).driven
  {
    calls := [Control(false, 0), Control(true, 10), Actuator(20), Control(false, 30), Control(true, 40)];
    var one, two, three, four := calls[..1], calls[..2], calls[..3], calls[..4];
    assert one[..0] == [] && two[..1] == one && three[..2] == two && four[..3] == three;
    assert calls[..|calls| - 1] == four;
    assert Run(START, one) == START.(armed := true);
    assert Run(START, two).state == Active && Run(START, two).lastStepMs == 0;
    assert Run(START, three).state == Active && Run(START, three).driven && !Run(START, three).armed;
    assert Run(START, four).armed && Run(START, four).driven && Run(START, four).state == Active;
  }
}
