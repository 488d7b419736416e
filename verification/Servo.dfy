/** firmware/drivers/servo.c: the pulse train that `TIMER1_COMPA_vect` makes, in unwrapped
    Timer1 ticks, while the foreground changes the command at any moment. */
module Servo {
  import opened Bytes

  const MIN_PULSE_MS: Octet := 1
  const MAX_PULSE_MS: Octet := 2
  const ONE_MS_TICKS := 2000
  const TWO_MS_TICKS := 4000
  const FRAME_TICKS := 40000
  const INITIAL_DELAY := 2000
  const TURN := 0x1_0000

  /** The first time after `now` at which a 16-bit counter equals `compare`. */
  function NextMatch(now: nat, compare: nat): (t: nat)
    requires compare < 65536
    ensures now < t <= now + 65536 && t % 65536 == compare
  {
    now + 1 + (compare - now - 1) % TURN
  }

  lemma MatchIsUnique(now: nat, t: nat)
    requires now < t <= now + 65536
    ensures NextMatch(now, t % 65536) == t
  {
  }

  lemma CompareFollows(matched: nat, interval: nat)
    ensures (matched % TURN + interval) % TURN == (matched + interval) % TURN
  {
  }

  function Width(ms: Octet): nat {
    if ms == MAX_PULSE_MS then TWO_MS_TICKS else ONE_MS_TICKS
  }

  /** A change of the pin: the compare match that asked for it, the interrupt's delay in
      writing it, and the pulse length in force. */
  datatype Change = Change(high: bool, matched: nat, latency: nat, ms: Octet) {
    /** When the pin changes. */
    function Edge(): nat {
      matched + latency
    }
  }

  /** The matches that start at `origin`: those of rising edges exactly one frame apart, each
      followed by that of its falling edge after the width latched at the rising edge. */
  ghost predicate IsPulseTrain(origin: nat, log: seq<Change>) {
    forall k :: 0 <= k < |log| ==>
      && log[k].high == (k % 2 == 0)
      && log[k].matched == At(origin, k, log[k].ms)
      && (log[k].ms == MIN_PULSE_MS || log[k].ms == MAX_PULSE_MS)
      && (k % 2 == 1 ==> log[k].ms == log[k - 1].ms)
  }

  /** The time of change `k`, in whose frame the pulse length is `ms`. */
  function At(origin: nat, k: nat, ms: Octet): nat {
    origin + k / 2 * FRAME_TICKS + (if k % 2 == 0 then 0 else Width(ms))
  }

  lemma OneMoreChange(origin: nat, log: seq<Change>, c: Change)
    requires IsPulseTrain(origin, log)
    requires var k := |log|;
      && c.high == (k % 2 == 0) && c.matched == At(origin, k, c.ms)
      && (c.ms == MIN_PULSE_MS || c.ms == MAX_PULSE_MS)
      && (k % 2 == 1 ==> c.ms == log[k - 1].ms)
    ensures IsPulseTrain(origin, log + [c])
    ensures c.high ==> At(origin, |log| + 1, c.ms) == c.matched + Width(c.ms)
    ensures !c.high ==> At(origin, |log| + 1, c.ms) == c.matched + FRAME_TICKS - Width(c.ms)
  {
    hide At;
    NextAt(origin, |log|, c.ms);
  }

  /** The time of a rising edge does not depend on the pulse length. */
  lemma RiseIsFixed(origin: nat, k: nat, a: Octet, b: Octet)
    ensures k % 2 == 0 ==> At(origin, k, a) == At(origin, k, b)
  {
  }

  lemma NextAt(origin: nat, k: nat, ms: Octet)
    ensures At(origin, k + 1, ms)
         == At(origin, k, ms) + (if k % 2 == 0 then Width(ms) else FRAME_TICKS - Width(ms))
  {
    if k % 2 == 0 {
      assert (k + 1) / 2 == k / 2;
    } else {
      assert (k + 1) / 2 == k / 2 + 1;
    }
  }

  /** The matches are exact: a command of 1 ms makes 2000 ticks, one of 2 ms 4000, and there is
      no other, in frames of 40,000. */
  lemma TrainIsExact(origin: nat, log: seq<Change>, k: nat)
    requires IsPulseTrain(origin, log) && k + 2 < |log| && log[k].high
    ensures log[k + 2].high && log[k + 2].matched == log[k].matched + 40000
    ensures !log[k + 1].high && log[k + 1].ms == log[k].ms && (log[k].ms == 1 || log[k].ms == 2)
    ensures log[k + 1].matched == log[k].matched + log[k].ms * 2000
  {
    NextAt(origin, k, log[k].ms);
    NextAt(origin, k + 1, log[k].ms);
  }

  /** The pin follows the matches with the latency of each interrupt: a period and a width are
      off by the difference of two latencies ... */
  lemma EdgesCarryLatency(origin: nat, log: seq<Change>, k: nat)
    requires IsPulseTrain(origin, log) && k + 2 < |log| && log[k].high
    ensures log[k + 2].Edge() - log[k].Edge() == 40000 + (log[k + 2].latency - log[k].latency)
    ensures log[k].ms == 1 || log[k].ms == 2
    ensures log[k + 1].Edge() - log[k].Edge()
         == log[k].ms * 2000 + (log[k + 1].latency - log[k].latency)
  {
    TrainIsExact(origin, log, k);
  }

  /** ... and the error never accumulates: `n` frames take `n * 40000` ticks but for two
      latencies, however many frames there are. */
  lemma {:induction false} ErrorDoesNotGrow(origin: nat, log: seq<Change>, k: nat, n: nat)
    requires IsPulseTrain(origin, log) && k + 2 * n < |log| && log[k].high
    ensures log[k + 2 * n].high
    ensures log[k + 2 * n].Edge() - log[k].Edge()
         == n * 40000 + (log[k + 2 * n].latency - log[k].latency)
  {
    if n > 0 {
      ErrorDoesNotGrow(origin, log, k, n - 1);
      TrainIsExact(origin, log, k + 2 * (n - 1));
      assert n * 40000 == (n - 1) * 40000 + 40000;
    }
  }

  class Servo {
    var pulseMs: Octet
    var signalHigh: bool
    var activePulseMs: Octet
    var ocr1a: nat

    /** The unwrapped time of the next compare match, and the changes so far. */
    ghost var nextMatch: nat
    ghost const origin: nat
    ghost var log: seq<Change>

    ghost predicate Valid()
      reads this
    {
      && (pulseMs == MIN_PULSE_MS || pulseMs == MAX_PULSE_MS)
      && (activePulseMs == MIN_PULSE_MS || activePulseMs == MAX_PULSE_MS)
      && ocr1a == nextMatch % 65536
      && IsPulseTrain(origin, log) && signalHigh == (|log| % 2 == 1)
      && (signalHigh ==> log[|log| - 1].ms == activePulseMs)
      && nextMatch == At(origin, |log|, if signalHigh then activePulseMs else pulseMs)
    }

    /** `servo_init`, at time `now`. */
    constructor (now: nat)
      ensures Valid() && log == [] && origin == nextMatch == now + 2000
      ensures pulseMs == 1 && !signalHigh
    {
      pulseMs, signalHigh, activePulseMs := MIN_PULSE_MS, false, MIN_PULSE_MS;
      ocr1a := (now % TURN + INITIAL_DELAY) % TURN;
      nextMatch, origin, log := now + INITIAL_DELAY, now + INITIAL_DELAY, [];
    }

    /** The time from the pending match to the one after it. */
    function Interval(): nat
      reads this
    {
      if !signalHigh then Width(pulseMs) else FRAME_TICKS - Width(activePulseMs)
    }

    /** `TIMER1_COMPA_vect`, which writes the pin `latency` ticks after its match. Each change
        is that of one match, and the command is latched at the rising edge only. */
    method CompareIsr(latency: nat)
      requires Valid() && latency < Interval()
      modifies this
      ensures Valid() && pulseMs == old(pulseMs)
      ensures log == old(log) + [Change(!old(signalHigh), old(nextMatch), latency,
        if old(signalHigh) then old(activePulseMs) else old(pulseMs))]
      ensures signalHigh == !old(signalHigh)
      ensures nextMatch == old(nextMatch)
        + (if old(signalHigh) then 40000 - old(activePulseMs) * 2000 else old(pulseMs) * 2000)
    {
      hide IsPulseTrain, At, NextMatch;
      var intervalTicks;
      ghost var now, target := nextMatch + latency, nextMatch + Interval();
      if !signalHigh {
        activePulseMs := pulseMs;
        signalHigh := true;
        intervalTicks := if activePulseMs == MAX_PULSE_MS then TWO_MS_TICKS else ONE_MS_TICKS;
      } else {
        signalHigh := false;
        intervalTicks := if activePulseMs == MAX_PULSE_MS then FRAME_TICKS - TWO_MS_TICKS
                         else FRAME_TICKS - ONE_MS_TICKS;
      }
      OneMoreChange(origin, log, Change(signalHigh, nextMatch, latency, activePulseMs));
      log := log + [Change(signalHigh, nextMatch, latency, activePulseMs)];
      ocr1a := (ocr1a + intervalTicks) % TURN;
      CompareFollows(old(nextMatch), intervalTicks);
      RiseIsFixed(origin, |log|, activePulseMs, pulseMs);
      nextMatch := NextMatch(now, ocr1a);
      MatchIsUnique(now, target);
    }

    /** `servo_set_pulse_ms`: other values are ignored, and a pulse under way keeps its width. */
    method SetPulseMs(ms: Octet)
      requires Valid()
      modifies `pulseMs
      ensures Valid()
      ensures pulseMs == (if ms == 1 || ms == 2 then ms else old(pulseMs))
    {
      if ms == MIN_PULSE_MS || ms == MAX_PULSE_MS {
        pulseMs := ms;
      }
    }
  }

  /** The next match is one interval after the last exactly when the interrupt is entered
      within that interval; later, and the train is a whole turn of Timer1 late. */
  lemma LatencyBound(lastMatch: nat, latency: nat, interval: nat)
    requires 0 < interval < 65536 && latency < interval + 65536
    ensures var next := NextMatch(lastMatch + latency, (lastMatch % 65536 + interval) % 65536);
      && ((next == lastMatch + interval) == (latency < interval))
      && (latency >= interval ==> next == lastMatch + interval + 65536)
  {
    var target := lastMatch + interval;
    assert (lastMatch % TURN + interval) % TURN == target % TURN;
    if latency < interval {
      MatchIsUnique(lastMatch + latency, target);
    } else {
      assert (target + TURN) % TURN == target % TURN;
      MatchIsUnique(lastMatch + latency, target + TURN);
    }
  }
}
