/** firmware/main.c as an object: the static state of the application modules with the
    servo and ultrasonic drivers, whose interrupts may come at any moment. */
module Application {
  import opened Bytes
  import opened Safety
  import C = Capture
  import V = Servo

  class Application {
    // system_fsm.c and diagnostics.c
    var systemState: SystemState
    var lastFault: Fault
    var faultCount: nat

    // static locals of the tasks
    var buttonArmed: bool
    var lastStepMs: nat

    // outputs
    var relayOn: bool
    var motorForward: bool
    var ledOn: bool
    var stepperDriven: bool
    var stepsMade: nat
    const servo: V.Servo
    const sensor: C.Capture

    ghost predicate Valid()
      reads this, servo, sensor
    {
      servo.Valid() && sensor.Valid()
    }

    ghost function Abstract(): Machine
      reads this, servo
    {
      Machine(systemState, lastFault, faultCount, buttonArmed, lastStepMs,
              relayOn, motorForward, servo.pulseMs, ledOn, stepperDriven, stepsMade)
    }

    /** `main` up to the registration of tasks; `now` is Timer1 when the servo starts. */
    constructor (now: nat)
      ensures Valid() && Abstract() == START && fresh(servo) && fresh(sensor)
      ensures !sensor.measurementActive && sensor.script == [] && !sensor.level
    {
      sensor := new C.Capture();
      servo := new V.Servo(now);
      relayOn, motorForward, ledOn, stepperDriven, stepsMade := false, false, false, false, 0;
      systemState, lastFault, faultCount := Boot, NoFault, 0;
      buttonArmed, lastStepMs := false, 0;
      new;
      servo.SetPulseMs(1);
      HandleEvent(InitDone);
    }

    /** Any number of servo and capture interrupts, each within its latency bound. */
    method Interrupts()
      requires Valid()
      modifies servo, sensor
      ensures Valid() && Abstract() == old(Abstract())
      ensures sensor.OnlyInterrupts()
    {
      sensor.Wait();
      var n: nat := *;
      while n > 0
        invariant Valid() && servo.pulseMs == old(servo.pulseMs)
        invariant sensor.OnlyInterrupts()
        modifies servo
      {
        var latency: nat := *;
        if latency < servo.Interval() {
          servo.CompareIsr(latency);
        }
        n := n - 1;
      }
    }

    /** `system_fsm_handle_event`. */
    method HandleEvent(event: SystemEvent)
      modifies `systemState
      ensures systemState == NextState(old(systemState), event)
      ensures systemState != old(systemState) ==>
        || (old(systemState) == Boot && event == InitDone && systemState == Idle)
        || (old(systemState) == Idle && event == StartStop && systemState == Active)
        || (old(systemState) == Active && event == StartStop && systemState == Idle)
        || (old(systemState) == Active && event == CriticalFault && systemState == SafeState)
      ensures systemState == old(systemState) ==>
        && (event == InitDone ==> systemState != Boot)
        && (event == StartStop ==> systemState == Boot || systemState == SafeState)
        && (event == CriticalFault ==> systemState != Active)
    {
      match systemState {
        case Boot =>
          if event == InitDone { systemState := Idle; }
        case Idle =>
          if event == StartStop { systemState := Active; }
        case Active =>
          if event == StartStop {
            systemState := Idle;
          } else if event == CriticalFault {
            systemState := SafeState;
          }
        case SafeState =>
      }
    }

    /** `diagnostics_record_fault`. */
    method RecordFault(fault: Fault)
      modifies `lastFault, `faultCount
      ensures Abstract() == Safety.RecordFault(old(Abstract()), fault)
      ensures fault == NoFault || fault == old(lastFault) ==>
        lastFault == old(lastFault) && faultCount == old(faultCount)
      ensures fault != NoFault && fault != old(lastFault) ==>
        lastFault == fault && faultCount == (old(faultCount) + 1) % 65536
    {
      if fault == NoFault || fault == lastFault {
        return;
      }
      lastFault := fault;
      faultCount := (faultCount + 1) % 0x1_0000;
    }

    /** `set_safe_outputs`. */
    method SetSafeOutputs()
      requires Valid()
      modifies this, servo
      ensures Valid() && Abstract() == SafeOutputs(old(Abstract()))
      ensures !stepperDriven && !motorForward && !relayOn && !ledOn && servo.pulseMs == 1
    {
      stepperDriven := false;
      motorForward := false;
      relayOn := false;
      servo.SetPulseMs(1);
      ledOn := false;
    }

    method ActuatorServiceTask(now: nat)
      requires Valid()
      modifies this, servo, sensor
      ensures Valid() && Abstract() == Do(old(Abstract()), Actuator(now))
      ensures sensor.OnlyInterrupts()
    {
      Interrupts();
      if systemState == Active {
        if Sub32(now, lastStepMs) >= STEP_PERIOD_MS {
          lastStepMs := now;
          stepperDriven, stepsMade := true, stepsMade + 1;
        }
      } else {
        stepperDriven := false;
        lastStepMs := now;
      }
    }

    method ControlTask(buttonPressed: bool, now: nat)
      requires Valid()
      modifies this, servo, sensor
      ensures Valid() && Abstract() == Do(old(Abstract()), Control(buttonPressed, now))
      ensures sensor.OnlyInterrupts()
    {
      hide V.Servo.Valid, C.Capture.Inv, SafeStateLed;
      Interrupts();
      ReadButton(buttonPressed);
      CommandOutputs(now);
    }

    /** The first part of `control_task`: the button. */
    method ReadButton(buttonPressed: bool)
      requires Valid()
      modifies `systemState, `buttonArmed
      ensures Valid() && Abstract() == ServeButton(old(Abstract()), buttonPressed)
    {
      if systemState == SafeState {
        buttonArmed := false;
      } else if !buttonPressed {
        buttonArmed := true;
      } else if buttonArmed {
        buttonArmed := false;
        if systemState == Idle || systemState == Active {
          HandleEvent(StartStop);
        }
      }
    }

    /** The second part of `control_task`: the outputs of the state. */
    method CommandOutputs(now: nat)
      requires Valid()
      modifies this, servo
      ensures Valid() && Abstract() == Safety.CommandOutputs(old(Abstract()), now)
    {
      hide V.Servo.Valid, C.Capture.Inv, SafeStateLed;
      match systemState {
        case Idle =>
          relayOn, motorForward, ledOn := false, false, false;
          servo.SetPulseMs(1);
        case Active =>
          relayOn, motorForward, ledOn := true, true, true;
          servo.SetPulseMs(2);
        case SafeState =>
          relayOn, motorForward := false, false;
          servo.SetPulseMs(1);
          ApplySafeStateLed(now);
        case Boot =>
          SetSafeOutputs();
      }
    }

    /** `apply_safe_state_led`. */
    method ApplySafeStateLed(now: nat)
      modifies `ledOn
      ensures ledOn == SafeStateLed(lastFault, now)
      ensures lastFault == ObstacleCritical ==>
        (ledOn <==> now % 1000 < 150 || 300 <= now % 1000 < 450)
      ensures lastFault != ObstacleCritical ==> (ledOn <==> now % 1000 < 500)
    {
      var phase := now % PATTERN_PERIOD_MS;
      if lastFault == ObstacleCritical {
        ledOn := phase < 150 || (phase >= 300 && phase < 450);
      } else {
        ledOn := phase < 500;
      }
    }

    /** `sensor_safety_task`. A reading is the measurement that the previous dispatch started. */
    method SensorSafetyTask() returns (ghost reading: Option<nat>)
      requires Valid()
      modifies this, servo, sensor
      ensures Valid() && Abstract() == Do(old(Abstract()), Sensor(reading))
      ensures sensor.measurementActive == !old(sensor.measurementActive)
      ensures !old(sensor.measurementActive) ==>
        reading.None? && |old(sensor.edges)| <= sensor.before
      ensures old(sensor.measurementActive) ==> sensor.before == old(sensor.before)
      ensures old(sensor.measurementActive && sensor.resultReady) ==> reading.Some?
      ensures reading.Some? ==> sensor.HasResult() && reading.value == sensor.pulseTicks
      ensures reading.Some? && sensor.EchoIs(116, 2435) ==> PulseIsCritical(reading.value)
      ensures old(sensor.measurementActive && sensor.HasEcho(116, 2435)) ==>
        reading.Some? && PulseIsCritical(reading.value)
      ensures !old(sensor.measurementActive) && old(sensor.script) == [] ==>
        sensor.played == [] && sensor.script == [] && sensor.startedLow == !old(sensor.level)
      ensures |sensor.script| <= |old(sensor.script)|
      ensures C.LevelAfter(sensor.level, sensor.script) == old(C.LevelAfter(sensor.level, sensor.script))
    {
      hide C.LevelAfter, C.Follow, C.Capture.Inv, PulseIsCritical, SensorTask, V.Servo.Valid;
      hide C.Capture.HasResult, C.Capture.EchoIs;
      var pulse := sensor.Dispatch();
      reading := pulse;
      WindowIsCritical(pulse);
      EvaluatePulse(pulse);
    }

    /** A prompt echo of 116 to 2435 ticks, measured exactly, is critical. */
    lemma WindowIsCritical(pulse: Option<nat>)
      requires sensor.Inv() && (pulse.Some? ==> sensor.HasResult() && pulse.value == sensor.pulseTicks)
      ensures pulse.Some? && 116 <= pulse.value <= 2435 ==> PulseIsCritical(pulse.value)
      ensures pulse.Some? && sensor.EchoIs(116, 2435) ==> PulseIsCritical(pulse.value)
    {
      hide C.Capture.IsAt, C.Capture.AwaitsRise, C.Capture.AwaitsFall;
      if pulse.Some? {
        CriticalWindow(pulse.value);
        if sensor.EchoIs(116, 2435) {
          sensor.ShortEchoIsExact();
        }
      }
    }

    /** What `sensor_safety_task` makes of the driver's answer. */
    method EvaluatePulse(pulse: Option<nat>)
      modifies `systemState, `lastFault, `faultCount
      ensures Abstract() == Do(old(Abstract()), Sensor(pulse))
    {
      if pulse.Some? {
        var distanceCm := pulse.value / TICKS_PER_CENTIMETER;
        if systemState == Active && ObstacleIsCritical(distanceCm > 0, distanceCm) {
          RecordFault(ObstacleCritical);
          HandleEvent(CriticalFault);
        }
      }
    }
  }
}
