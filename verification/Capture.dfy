/** firmware/drivers/hcsr04.c and the handshake that `sensor_safety_task` of firmware/main.c
    keeps with it. Edges of the echo line and the capture interrupt come between every two
    accesses that the task makes outside its atomic blocks. */
module Capture {
  import opened Bytes

  datatype State = Idle | WaitRising | WaitFalling

  /** An edge of the echo line, in unwrapped Timer1 ticks. */
  datatype Edge = Edge(rising: bool, time: nat)

  /** The level after `n` edges. */
  predicate IsHigh(n: nat) {
    n % 2 == 1
  }

  /** Edges alternate from a low line, in time order. */
  ghost predicate IsEchoLine(edges: seq<Edge>, now: nat) {
    && (forall i :: 0 <= i < |edges| ==> edges[i].rising == !IsHigh(i) && edges[i].time <= now)
    && (forall i, j :: 0 <= i < j < |edges| ==> edges[i].time <= edges[j].time)
  }

  /** `i` is the first rising edge at or after index `from`. */
  ghost predicate FirstRise(edges: seq<Edge>, from: nat, i: nat) {
    from <= i < |edges| && edges[i].rising && forall j :: from <= j < i ==> !edges[j].rising
  }

  ghost predicate NoRise(edges: seq<Edge>, from: nat) {
    forall j :: from <= j < |edges| ==> !edges[j].rising
  }

  lemma NothingHasRisen(edges: seq<Edge>)
    ensures NoRise(edges, |edges|)
  {
  }

  lemma OneMoreEdge(edges: seq<Edge>, now: nat, e: Edge) returns (longer: seq<Edge>)
    requires IsEchoLine(edges, now) && now <= e.time && e.rising == !IsHigh(|edges|)
    ensures |longer| == |edges| + 1 && longer[|edges|] == e && edges < longer
    ensures IsEchoLine(longer, e.time) && IsHigh(|longer|) == e.rising
    ensures edges != [] ==> edges[|edges| - 1].rising == !e.rising
  {
    longer := edges + [e];
  }

  /** Timer1 at unwrapped time `t`. */
  function Register(t: nat): nat {
    t % 0x1_0000
  }

  function Tick(edges: seq<Edge>, i: nat): nat
    requires i < |edges|
  {
    Register(edges[i].time)
  }

  /** What happens outside the program: the echo line changes after some ticks, or the CPU is
      free to enter a waiting capture interrupt. */
  datatype Stimulus = EdgeAfter(ticks: nat) | Serve

  function EdgeCount(s: seq<Stimulus>): nat {
    if |s| == 0 then 0 else (if s[0].EdgeAfter? then 1 else 0) + EdgeCount(s[1..])
  }

  /** The level of the line after `s`. */
  function LevelAfter(level: bool, s: seq<Stimulus>): bool {
    level != IsHigh(EdgeCount(s))
  }

  lemma LevelStep(level: bool, s: seq<Stimulus>)
    ensures LevelAfter(level, []) == level
    ensures |s| > 0 ==>
      LevelAfter(level, s) == LevelAfter(if s[0].EdgeAfter? then !level else level, s[1..])
  {
  }

  lemma FollowStep(s: seq<Stimulus>, x: Stimulus)
    ensures Follow(s + [x]) == OneStimulus(Follow(s), x)
  {
    hide OneStimulus;
  }

  /** How far a measurement has come with stimuli that serve every edge before the next: 0
      waiting, 1 rise captured, 2 rise served, 3 fall captured, 4 fall served, whatever comes
      then; and the width of the echo. 5 when an edge came before the one before was served. */
  datatype Progress = Progress(phase: nat, width: nat)

  function Follow(s: seq<Stimulus>): Progress {
    if |s| == 0 then Progress(0, 0) else OneStimulus(Follow(s[..|s| - 1]), s[|s| - 1])
  }

  function OneStimulus(p: Progress, s: Stimulus): Progress {
    match s
    case EdgeAfter(ticks) =>
      if p.phase == 0 then Progress(1, 0)
      else if p.phase == 2 then Progress(3, ticks)
      else if p.phase == 4 then p
      else Progress(5, 0)
    case Serve =>
      if p.phase == 1 then Progress(2, 0) else if p.phase == 3 then Progress(4, p.width) else p
  }

  class Capture {
    var captureState: State
    var startTick: nat
    var pulseTicks: nat
    var resultReady: bool

    // Timer1: capture interrupt enable, edge select, capture flag and register.
    var icie1: bool
    var ices1: bool
    var icf1: bool
    var icr1: nat

    /** The static local of `sensor_safety_task`. */
    var measurementActive: bool

    // The echo line, the time in unwrapped ticks, and the edges so far.
    var level: bool
    var time: nat
    ghost var edges: seq<Edge>

    /** What is still to happen, and what has happened since the measurement was started. */
    var script: seq<Stimulus>
    ghost var played: seq<Stimulus>
    ghost var startedLow: bool

    // The measurement in hand: how many edges came before it, the edges it has used, the
    // edge in ICR1, and whether so far every edge came with no capture waiting.
    ghost var before: nat
    ghost var rise: nat
    ghost var fall: nat
    ghost var captured: nat
    ghost var prompt: bool

    /** Holds at every instant. */
    ghost predicate Inv()
      reads this
    {
      Core() && (startedLow ==> IsAt(Follow(played)))
    }

    ghost predicate Core()
      reads `captureState, `startTick, `pulseTicks, `resultReady, `icie1, `ices1, `icf1, `icr1,
        `level, `time, `edges, `before, `rise, `fall, `captured, `prompt
    {
      && IsEchoLine(edges, time) && level == IsHigh(|edges|) && before <= |edges|
      && icie1 == !captureState.Idle?
      && (captureState.WaitRising? ==> ices1 && !resultReady && AwaitsRise())
      && (captureState.WaitFalling? ==> !ices1 && !resultReady && AwaitsFall())
      && (resultReady ==> HasResult())
    }

    /** Where a measurement started on a low line is. */
    ghost predicate IsAt(p: Progress)
      reads `captureState, `resultReady, `icf1, `edges, `before, `captured, `rise, `fall, `time, `level
    {
      if p.phase == 0 then captureState.WaitRising? && !icf1 && |edges| == before && !level
      else if p.phase == 1 then
        captureState.WaitRising? && icf1 && captured == before && |edges| == before + 1
        && edges[before].time == time && level
      else if p.phase == 2 then
        captureState.WaitFalling? && !icf1 && rise == before && |edges| == before + 1
        && edges[before].time == time && level
      else if p.phase == 3 then
        captureState.WaitFalling? && icf1 && rise == before && captured == before + 1
        && |edges| == before + 2 && edges[before + 1].time - edges[before].time == p.width
      else if p.phase == 4 then
        captureState.Idle? && resultReady && rise == before && fall == before + 1
        && |edges| >= before + 2 && edges[before + 1].time - edges[before].time == p.width
      else true
    }

    ghost predicate AwaitsRise()
      reads `icf1, `icr1, `edges, `before, `captured, `prompt
    {
      && (icf1 ==> before <= captured < |edges| && edges[captured].rising
                   && icr1 == Tick(edges, captured))
      && (prompt ==> if icf1 then FirstRise(edges, before, captured) && captured == |edges| - 1
                     else NoRise(edges, before))
    }

    ghost predicate AwaitsFall()
      reads `startTick, `icf1, `icr1, `edges, `before, `rise, `captured, `prompt
    {
      && before <= rise < |edges| && edges[rise].rising && startTick == Tick(edges, rise)
      && (icf1 ==> rise < captured < |edges| && !edges[captured].rising
                   && icr1 == Tick(edges, captured))
      && (prompt ==> FirstRise(edges, before, rise)
                     && if icf1 then captured == rise + 1 else rise == |edges| - 1)
    }

    /** The result is the wrapped distance of a rising edge and a later falling edge, both
        after the start of the measurement; of the first echo when captures were prompt. */
    ghost predicate HasResult()
      reads `pulseTicks, `edges, `before, `rise, `fall, `prompt
    {
      && before <= rise < fall < |edges| && edges[rise].rising && !edges[fall].rising
      && pulseTicks == Sub16(Tick(edges, fall), Tick(edges, rise))
      && (prompt ==> FirstRise(edges, before, rise) && fall == rise + 1)
    }

    /** Holds between task calls: without a measurement the driver is idle, and with one it is
        on the way or has the result. */
    ghost predicate Valid()
      reads this
    {
      Inv() && (!measurementActive ==> captureState.Idle?)
      && (measurementActive && captureState.Idle? ==> resultReady)
    }

    /** `hcsr04_init`. */
    constructor ()
      ensures Valid() && !measurementActive && edges == [] && script == [] && !level
    {
      captureState, startTick, pulseTicks, resultReady := Idle, 0, 0, false;
      icie1, ices1, icf1, icr1 := false, true, false, 0;
      measurementActive := false;
      level, time := false, 0;
      edges, before, rise, fall, captured, prompt := [], 0, 0, 0, 0, true;
      script, played, startedLow := [], [], false;
    }

    /** `TIMER1_CAPT_vect`; entering it clears the flag. */
    method CaptureIsr()
      requires Core() && icie1 && icf1
      modifies `captureState, `startTick, `pulseTicks, `resultReady
      modifies `icie1, `ices1, `icf1, `rise, `fall
      ensures Core() && !icf1
      ensures old(captureState).WaitRising? ==> captureState.WaitFalling? && rise == captured
      ensures old(captureState).WaitFalling? ==>
        captureState.Idle? && resultReady && rise == old(rise) && fall == captured
    {
      hide IsEchoLine, Tick;
      icf1 := false;
      var captureTick := icr1;
      if captureState == WaitRising {
        startTick := captureTick;
        rise := captured;
        captureState := WaitFalling;
        ices1 := false;
      } else if captureState == WaitFalling {
        pulseTicks := Sub16(captureTick, startTick);
        fall := captured;
        resultReady := true;
        captureState := Idle;
        icie1 := false;
      } else {
        assert false;  // the interrupt is never enabled in IDLE
      }
    }

    /** The echo line changes after `wait` ticks; the selected edge is captured. */
    method EchoEdge(wait: nat)
      requires Core()
      modifies `level, `edges, `time, `captured, `prompt, `icf1, `icr1
      ensures Core() && Edged()
      ensures level == !old(level) && edges[|old(edges)|].time == time == old(time) + wait
    {
      hide IsEchoLine, FirstRise, NoRise, Register, Sub16, IsHigh, AwaitsRise, AwaitsFall, HasResult;
      ArriveEdge(wait);
      if captureState.WaitRising? { StillAwaitsRise(); }
      if captureState.WaitFalling? { StillAwaitsFall(); }
      if resultReady { StillHasResult(); }
    }

    method ArriveEdge(wait: nat)
      requires IsEchoLine(edges, time) && level == IsHigh(|edges|) && before <= |edges|
      modifies `level, `edges, `time, `captured, `prompt, `icf1, `icr1
      ensures Edged() && IsEchoLine(edges, time) && level == IsHigh(|edges|)
      ensures level == !old(level) && edges[|old(edges)|].time == time == old(time) + wait
    {
      hide IsEchoLine, Register, IsHigh;
      ghost var longer := OneMoreEdge(edges, time, Edge(!level, time + wait));
      prompt := prompt && !(icf1 && icie1);
      time := time + wait;
      level := !level;
      edges := longer;
      assert edges[|old(edges)|] == Edge(level, time);
      if level == ices1 {
        icf1, icr1, captured := true, Register(time), |edges| - 1;
      }
    }

    /** One more edge has come. */
    twostate predicate Edged()
      reads this
    {
      && |edges| == |old(edges)| + 1 && old(edges) < edges
      && edges[|old(edges)|].rising == level
      && (old(edges) != [] ==> old(edges)[|old(edges)| - 1].rising == !level)
      && prompt == (old(prompt) && !(old(icf1) && icie1))
      && (if level == ices1
          then icf1 && captured == |edges| - 1 && icr1 == Tick(edges, captured)
          else icf1 == old(icf1) && icr1 == old(icr1) && captured == old(captured))
      && before == old(before) && rise == old(rise) && fall == old(fall)
      && startTick == old(startTick) && pulseTicks == old(pulseTicks)
      && before <= |old(edges)|
    }

    twostate lemma StillAwaitsRise()
      requires Edged() && old(AwaitsRise()) && icie1 && ices1
      ensures AwaitsRise()
    {
      hide Register;
    }

    twostate lemma StillAwaitsFall()
      requires Edged() && old(AwaitsFall()) && icie1 && !ices1
      ensures AwaitsFall()
    {
      hide Register;
    }

    twostate lemma StillHasResult()
      requires Edged() && old(HasResult()) && !icie1
      ensures HasResult()
    {
      hide Register, Sub16;
    }

    twostate lemma EdgeIsFollowed(wait: nat)
      requires Edged() && level == !old(level) && edges[|old(edges)|].time == time == old(time) + wait
      requires captureState == old(captureState) && resultReady == old(resultReady) && ices1 == old(ices1)
      requires captureState.WaitRising? ==> ices1
      requires captureState.WaitFalling? ==> !ices1
      requires old(startedLow ==> IsAt(Follow(played)))
      ensures old(startedLow) ==> IsAt(OneStimulus(old(Follow(played)), EdgeAfter(wait)))
    {
      hide Register, Follow;
    }

    twostate lemma ServeIsFollowed()
      requires old(captureState).WaitRising? ==> captureState.WaitFalling? && rise == captured
      requires old(captureState).WaitFalling? ==>
        captureState.Idle? && resultReady && rise == old(rise) && fall == captured
      requires edges == old(edges) && before == old(before) && captured == old(captured)
      requires time == old(time) && level == old(level) && !icf1 && old(icf1)
      requires !old(captureState).Idle? && IsEchoLine(edges, time) && level == IsHigh(|edges|)
      requires old(startedLow ==> IsAt(Follow(played)))
      ensures old(startedLow) ==> IsAt(OneStimulus(old(Follow(played)), Serve))
    {
      hide Follow;
    }

    lemma NothingToServe()
      requires Core() && !(icie1 && icf1) && (startedLow ==> IsAt(Follow(played)))
      ensures startedLow ==> IsAt(OneStimulus(Follow(played), Serve))
    {
      hide Follow, AwaitsRise, AwaitsFall, HasResult, IsEchoLine;
    }

    method PlayEdge(ticks: nat)
      requires Inv()
      modifies `level, `edges, `time, `captured, `prompt, `icf1, `icr1
      ensures Core() && level == !old(level) && old(edges) <= edges
      ensures old(captureState).Idle? ==> prompt == old(prompt)
      ensures startedLow ==> IsAt(OneStimulus(Follow(played), EdgeAfter(ticks)))
    {
      hide AwaitsRise, AwaitsFall, HasResult, IsEchoLine, IsAt, OneStimulus, Follow, IsHigh;
      EchoEdge(ticks);
      EdgeIsFollowed(ticks);
    }

    method PlayServe()
      requires Inv()
      modifies `captureState, `startTick, `pulseTicks, `resultReady
      modifies `icie1, `ices1, `icf1, `rise, `fall
      ensures Core() && (old(resultReady) ==> resultReady)
      ensures old(captureState).Idle? ==>
        && captureState.Idle? && resultReady == old(resultReady)
        && pulseTicks == old(pulseTicks) && rise == old(rise) && fall == old(fall)
      ensures !old(captureState).Idle? && captureState.Idle? ==> resultReady
      ensures startedLow ==> IsAt(OneStimulus(Follow(played), Serve))
    {
      hide AwaitsRise, AwaitsFall, HasResult, IsEchoLine, IsAt, OneStimulus, Follow;
      if icie1 && icf1 {
        CaptureIsr();
        ServeIsFollowed();
      } else {
        NothingToServe();
      }
    }

    /** The next stimulus of the script. */
    method Play()
      requires Inv() && script != []
      modifies this
      ensures Inv() && OnlyInterrupts() && script == old(script)[1..]
    {
      hide Core, IsAt, OneStimulus, Follow, LevelAfter;
      ghost var s := script[0];
      LevelStep(level, script);
      FollowStep(played, s);
      match script[0] {
        case EdgeAfter(ticks) => PlayEdge(ticks);
        case Serve => PlayServe();
      }
      script := script[1..];
      played := played + [s];
    }

    /** What edges and interrupts may do to the task: an idle driver stays as it is, a result
        stays ready, and a measurement that ends has one. */
    twostate predicate OnlyInterrupts()
      reads this
    {
      && old(edges) <= edges && before == old(before)
      && measurementActive == old(measurementActive) && (old(resultReady) ==> resultReady)
      && (old(captureState).Idle? ==>
            && captureState.Idle? && resultReady == old(resultReady)
            && pulseTicks == old(pulseTicks) && rise == old(rise) && fall == old(fall)
            && prompt == old(prompt))
      && (!old(captureState).Idle? && captureState.Idle? ==> resultReady)
      && |script| <= |old(script)| && old(played + script) == played + script
      && startedLow == old(startedLow) && LevelAfter(level, script) == old(LevelAfter(level, script))
    }

    /** Any number of stimuli. */
    method Interrupts()
      requires Inv()
      modifies this
      ensures Inv() && OnlyInterrupts()
    {
      hide AwaitsRise, AwaitsFall, HasResult, IsEchoLine, IsAt, LevelAfter;
      var n: nat := *;
      while n > 0 && script != []
        invariant Inv() && OnlyInterrupts()
      {
        Play();
        n := n - 1;
      }
    }

    /** All stimuli that are still to come. */
    method Settle()
      requires Valid()
      modifies this
      ensures Valid() && OnlyInterrupts() && script == []
    {
      hide AwaitsRise, AwaitsFall, HasResult, IsEchoLine, IsAt, LevelAfter;
      while script != []
        invariant Valid() && OnlyInterrupts()
        decreases |script|
      {
        Play();
      }
    }

    /** `hcsr04_start`, from its atomic block to the end of the trigger pulse. From then on the
        capture interrupt is enabled until there is a result. */
    method Start() returns (started: bool)
      requires Inv()
      modifies this
      ensures Inv() && measurementActive == old(measurementActive) && old(edges) <= edges
      ensures started == old(captureState).Idle?
      ensures started ==> before == |old(edges)| && startedLow == !old(level)
      ensures started ==> old(script) == played + script && (captureState.Idle? ==> resultReady)
      ensures !started ==> before == old(before)
      ensures LevelAfter(level, script) == old(LevelAfter(level, script))
    {
      hide LevelAfter, Core, IsAt, Follow;
      started := false;
      IdleIs();
      if captureState == Idle {
        Arm();
        started := true;
      }
      Interrupts();
    }

    lemma IdleIs()
      requires Core()
      ensures before <= |edges|
    {
      hide AwaitsRise, AwaitsFall, HasResult, IsEchoLine;
    }

    /** The atomic block of `hcsr04_start`. */
    method Arm()
      requires Inv() && captureState.Idle?
      modifies `pulseTicks, `resultReady, `captureState, `ices1, `icf1, `icie1
      modifies `before, `prompt, `played, `startedLow
      ensures Inv() && captureState.WaitRising? && icie1
      ensures before == |edges| && played == [] && startedLow == !level
    {
      hide HasResult, AwaitsRise, AwaitsFall, IsAt, IsEchoLine, Follow, IsHigh;
      NothingFollowed();
      pulseTicks, resultReady, captureState := 0, false, WaitRising;
      ices1, icf1, icie1 := true, false, true;
      before, prompt, played, startedLow := |edges|, true, [], !level;
      IsArmed();
    }

    lemma IsArmed()
      requires captureState.WaitRising? && !icf1 && before == |edges|
      ensures AwaitsRise() && (!level ==> IsAt(Progress(0, 0)))
    {
      NothingHasRisen(edges);
    }

    lemma NothingFollowed()
      ensures Follow([]) == Progress(0, 0)
    {
    }

    /** `hcsr04_abort`. */
    method Abort()
      requires Inv()
      modifies this
      ensures Inv() && captureState.Idle? && !resultReady
      ensures measurementActive == old(measurementActive) && old(edges) <= edges
      ensures before == old(before) && |script| <= |old(script)|
      ensures LevelAfter(level, script) == old(LevelAfter(level, script))
    {
      hide LevelAfter, HasResult, AwaitsFall, AwaitsRise;
      icie1, ices1, icf1, captureState, resultReady := false, true, false, Idle, false;
      startedLow := false;
      Interrupts();
    }

    /** The evaluating half of the driver calls: a result that is ready is read, and otherwise
        the measurement is given up. */
    method Evaluate() returns (reading: Option<nat>)
      requires Inv()
      modifies this
      ensures Inv() && captureState.Idle? && old(edges) <= edges && before == old(before)
      ensures measurementActive == old(measurementActive) && |script| <= |old(script)|
      ensures old(resultReady) ==> reading == Some(old(pulseTicks))
      ensures reading.Some? ==> HasResult() && reading.value == pulseTicks
      ensures LevelAfter(level, script) == old(LevelAfter(level, script))
    {
      hide IsEchoLine, LevelAfter, Follow, IsAt, FirstRise, AwaitsRise, AwaitsFall;
      var ready := resultReady;
      Interrupts();
      if ready {
        reading := Some(pulseTicks);
        Interrupts();
      } else {
        reading := None;
        Abort();
      }
    }

    /** The driver calls of `sensor_safety_task`. A result, if any, is the measurement started
        by the previous dispatch; a start is never refused. There is a result, of the true
        width, when an echo has come and been served since the start on a low line. */
    method Dispatch() returns (reading: Option<nat>)
      requires Valid()
      modifies this
      ensures Valid() && old(edges) <= edges
      ensures measurementActive == !old(measurementActive)
      ensures !old(measurementActive) ==> reading.None? && |old(edges)| <= before
      ensures !old(measurementActive) && old(script) == [] ==>
        played == [] && script == [] && startedLow == !old(level)
      ensures old(measurementActive) ==> before == old(before)
      ensures old(measurementActive && resultReady) ==> reading.Some?
      ensures old(measurementActive && HasEcho(0, 65535)) ==>
        reading == Some(old(Follow(played)).width)
      ensures reading.Some? ==> HasResult() && reading.value == pulseTicks
      ensures |script| <= |old(script)|
      ensures LevelAfter(level, script) == old(LevelAfter(level, script))
    {
      hide Core, LevelAfter, Follow, IsAt;
      if HasEcho(0, UINT16_MAX) {
        EchoIsReady(0, UINT16_MAX);
      }
      LevelStep(level, []);
      ReadyIsIdle();
      Interrupts();
      LevelStep(level, []);
      if !measurementActive {
        measurementActive := Start();
        return None;
      }
      reading := Evaluate();
      measurementActive := false;
    }

    lemma ReadyIsIdle()
      requires Inv()
      ensures resultReady ==> captureState.Idle?
    {
      hide AwaitsRise, AwaitsFall, HasResult, IsEchoLine;
    }

    /** Since the start, on a low line, a whole echo of `lo` to `hi` ticks has come and each of
        its edges has been served before the next. */
    ghost predicate HasEcho(lo: nat, hi: nat)
      reads `startedLow, `played
    {
      startedLow && Follow(played).phase == 4 && lo <= Follow(played).width <= hi
    }

    /** Such an echo is measured, and exactly. */
    lemma EchoIsReady(lo: nat, hi: nat)
      requires Inv() && HasEcho(lo, hi) && hi <= UINT16_MAX
      ensures captureState.Idle? && resultReady && pulseTicks == Follow(played).width
    {
      hide Follow, AwaitsRise, AwaitsFall;
      Sub16OfWrapped(edges[fall].time, edges[rise].time);
    }

    /** The same without a script: with captures prompt and none waiting, a first rise after the
        start and the fall after it give a result. */
    lemma FirstEchoIsReady(i: nat)
      requires Valid() && measurementActive && prompt && !icf1
      requires FirstRise(edges, before, i) && i + 1 < |edges|
      ensures resultReady && rise == i && fall == i + 1
    {
    }

    /** A result of an idle driver stays what it is. */
    twostate lemma ResultStays()
      requires OnlyInterrupts() && old(captureState).Idle? && old(HasResult())
      ensures HasResult() && pulseTicks == old(pulseTicks)
    {
      hide LevelAfter, Register, Sub16;
    }

    /** Edges and interrupts between two dispatches. */
    method Wait()
      requires Valid()
      modifies this
      ensures Valid() && OnlyInterrupts()
    {
      hide AwaitsRise, AwaitsFall, HasResult, IsEchoLine, IsAt, LevelAfter;
      Interrupts();
    }

    /** More is to happen. */
    method Feed(more: seq<Stimulus>)
      requires Valid()
      modifies `script
      ensures Valid() && script == old(script) + more
    {
      hide Core, IsAt, Follow;
      script := script + more;
    }

    /** The result was captured promptly from an echo of `lo` to `hi` ticks in true time. */
    ghost predicate EchoIs(lo: nat, hi: nat)
      reads `edges, `rise, `prompt
    {
      prompt && rise + 1 < |edges| && lo <= edges[rise + 1].time - edges[rise].time <= hi
    }

    /** An echo that is shorter than a turn of Timer1, with prompt captures, is measured
        exactly: it is the first to rise after the start of the measurement. */
    lemma ShortEchoIsExact()
      requires IsEchoLine(edges, time) && HasResult() && prompt
      requires edges[rise + 1].time - edges[rise].time < 0x1_0000
      ensures FirstRise(edges, before, rise) && !edges[rise + 1].rising
      ensures pulseTicks == edges[rise + 1].time - edges[rise].time
    {
      Sub16OfWrapped(edges[fall].time, edges[rise].time);
    }
  }
}
