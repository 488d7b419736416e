/** The parser with its clock and its two counters, over whole runs. */
module ParserTiming {
  import opened Bytes
  import opened Frames
  import opened Parser

  const INTERBYTE_TIMEOUT_MS := 100

  /** The parser statics; `lastByteMs` is a `uint32_t`, the counters are `uint8_t`. */
  datatype Timed = Timed(parser: Parser, lastByteMs: nat, timeouts: nat, crcErrors: nat)

  /** A call of `protocol_process_byte` or `protocol_check_timeout` at unbounded time `t`. */
  datatype Event = Byte(b: Octet, t: nat) | Check(t: nat)

  datatype Run = Run(state: Timed, log: seq<Ending>)

  /** `protocol_increment_saturating`. */
  function Bump(counter: nat): nat {
    if counter != UINT8_MAX then counter + 1 else counter
  }

  function Millis(t: nat): nat {
    t % 0x1_0000_0000
  }

  function ProcessByte(s: Timed, b: Octet, now: nat): Run {
    var next := Accept(s.parser, b);
    var last :=
      if s.parser.state == WaitSof then (if b == SOF then now else s.lastByteMs)
      else if next.parser.state == WaitSof then 0
      else now;
    var errors := if CrcError in next.log then Bump(s.crcErrors) else s.crcErrors;
    Run(Timed(next.parser, last, s.timeouts, errors), next.log)
  }

  function CheckTimeout(s: Timed, now: nat): Run {
    if s.parser.state != WaitSof && Sub32(now, s.lastByteMs) >= INTERBYTE_TIMEOUT_MS then
      Run(Timed(RESET, 0, Bump(s.timeouts), s.crcErrors), [TimedOut])
    else
      Run(s, [])
  }

  function Do(s: Timed, e: Event): Run {
    match e
    case Byte(b, t) => ProcessByte(s, b, Millis(t))
    case Check(t) => CheckTimeout(s, Millis(t))
  }

  function RunAll(s: Timed, events: seq<Event>): Run
    decreases |events|
  {
    if |events| == 0 then Run(s, [])
    else
      var first := Do(s, events[0]);
      var rest := RunAll(first.state, events[1..]);
      Run(rest.state, first.log + rest.log)
  }

  function InProgress(s: Timed): nat {
    if s.parser.state == WaitSof then 0 else 1
  }

  /** Candidate frames opened: bytes equal to SOF that arrive while waiting for one. */
  function Opened(s: Timed, events: seq<Event>): nat
    decreases |events|
  {
    if |events| == 0 then 0
    else
      var e := events[0];
      (if e.Byte? && e.b == SOF && s.parser.state == WaitSof then 1 else 0)
        + Opened(Do(s, e).state, events[1..])
  }

  function Count(log: seq<Ending>, e: Ending): nat {
    if |log| == 0 then 0 else (if log[0] == e then 1 else 0) + Count(log[1..], e)
  }

  lemma {:induction false} CountConcat(x: seq<Ending>, y: seq<Ending>, e: Ending)
    ensures Count(x + y, e) == Count(x, e) + Count(y, e)
  {
    if |x| == 0 {
      assert x + y == y;
    } else {
      assert (x + y)[1..] == x[1..] + y;
      CountConcat(x[1..], y, e);
    }
  }

  /** Every candidate opened ends exactly once (delivered, CRC, version or length error, or
      timeout) or is still in progress, and both counters are the true counts cut at 255. */
  lemma {:induction false} CandidatesAreConserved(s: Timed, events: seq<Event>)
    requires s.timeouts <= UINT8_MAX && s.crcErrors <= UINT8_MAX && Sound(s.parser)
    ensures var r := RunAll(s, events);
      && Opened(s, events) + InProgress(s) == |r.log| + InProgress(r.state)
      && r.state.timeouts == Min(255, s.timeouts + Count(r.log, TimedOut))
      && r.state.crcErrors == Min(255, s.crcErrors + Count(r.log, CrcError))
    decreases |events|
  {
    hide Do, Accept;
    if |events| > 0 {
      var first := Do(s, events[0]);
      OneEvent(s, events[0]);
      CandidatesAreConserved(first.state, events[1..]);
      var rest := RunAll(first.state, events[1..]);
      CountConcat(first.log, rest.log, TimedOut);
      CountConcat(first.log, rest.log, CrcError);
    }
  }

  lemma OneEvent(s: Timed, e: Event)
    requires s.timeouts <= UINT8_MAX && s.crcErrors <= UINT8_MAX && Sound(s.parser)
    ensures var r := Do(s, e);
      && Sound(r.state.parser)
      && (if e.Byte? && e.b == SOF && s.parser.state == WaitSof then 1 else 0) + InProgress(s)
           == |r.log| + InProgress(r.state)
      && r.state.timeouts == Min(255, s.timeouts + Count(r.log, TimedOut))
      && r.state.crcErrors == Min(255, s.crcErrors + Count(r.log, CrcError))
  {
    hide ComputeCrc;
    if e.Byte? {
      SoundIsKept(s.parser, e.b);
    }
    var log := Do(s, e).log;
    if |log| == 1 {
      assert log[1..] == [];
    }
  }

  function BytesOf(events: seq<Event>): seq<Octet> {
    if |events| == 0 then []
    else (if events[0].Byte? then [events[0].b] else []) + BytesOf(events[1..])
  }

  lemma {:induction false} BytesOfConcat(x: seq<Event>, y: seq<Event>)
    ensures BytesOf(x + y) == BytesOf(x) + BytesOf(y)
    decreases |x|
  {
    if |x| == 0 {
      assert x + y == y;
    } else {
      assert (x + y)[1..] == x[1..] + y;
      BytesOfConcat(x[1..], y);
    }
  }

  /** Unless a timeout fires, the clock does not matter. */
  lemma {:induction false} ClockDoesNotMatter(s: Timed, events: seq<Event>)
    requires TimedOut !in RunAll(s, events).log
    ensures RunAll(s, events).log == Feed(s.parser, BytesOf(events)).log
    ensures RunAll(s, events).state.parser == Feed(s.parser, BytesOf(events)).parser
    decreases |events|
  {
    hide Accept;
    if |events| > 0 {
      var first := Do(s, events[0]);
      var rest := RunAll(first.state, events[1..]);
      assert forall e :: e in first.log ==> e in first.log + rest.log;
      assert forall e :: e in rest.log ==> e in first.log + rest.log;
      ClockDoesNotMatter(first.state, events[1..]);
      if events[0].Byte? {
        assert BytesOf(events)[1..] == BytesOf(events[1..]);
      } else {
        assert first.log == [TimedOut] ==> TimedOut in first.log;
        assert BytesOf(events) == BytesOf(events[1..]);
      }
    }
  }

  /** A frame sent after a timeout, or whenever the parser is idle, is delivered, provided
      that it is not itself timed out. */
  lemma DeliveredAfterTimeout(s: Timed, t: nat, events: seq<Event>, f: WireFrame)
    requires CheckTimeout(s, Millis(t)).log == [TimedOut] || s.parser.state == WaitSof
    requires BytesOf(events) == Encode(f)
    requires TimedOut !in RunAll(CheckTimeout(s, Millis(t)).state, events).log
    ensures RunAll(CheckTimeout(s, Millis(t)).state, events).log == [Delivered(f)]
  {
    var idle := CheckTimeout(s, Millis(t)).state;
    ClockDoesNotMatter(idle, events);
    IdleDelivers(idle.parser, f);
  }

  /** The wrapped 32-bit clock is as good as an unbounded one for pauses below 2^32 ms: an
      unfinished frame is timed out exactly when the check comes 100 ms or more after the
      last byte. */
  lemma TimeoutIsExact(s: Timed, b: Octet, t0: nat, t: nat)
    requires t0 <= t < t0 + 0x1_0000_0000
    ensures var after := ProcessByte(s, b, Millis(t0)).state;
      (CheckTimeout(after, Millis(t)).log == [TimedOut])
        == (after.parser.state != WaitSof && t - t0 >= 100)
  {
    hide ComputeCrc;
    Sub32OfWrapped(t, t0);
  }

  /** The first byte, then timeout checks at these times, then the second byte. */
  function PauseWithChecks(b1: Octet, t1: nat, checks: seq<nat>, b2: Octet, t2: nat): seq<Event> {
    [Byte(b1, t1)] + Checks(checks) + [Byte(b2, t2)]
  }

  function Checks(times: seq<nat>): (events: seq<Event>)
    ensures |events| == |times|
  {
    seq(|times|, i requires 0 <= i < |times| => Check(times[i]))
  }

  lemma {:induction false} RunAllConcat(s: Timed, x: seq<Event>, y: seq<Event>)
    ensures var first := RunAll(s, x); var second := RunAll(first.state, y);
      RunAll(s, x + y) == Run(second.state, first.log + second.log)
    decreases |x|
  {
    hide Do;
    if |x| == 0 {
      assert x + y == y;
    } else {
      assert (x + y)[1..] == x[1..] + y;
      RunAllConcat(Do(s, x[0]).state, x[1..], y);
    }
  }

  lemma RunOne(s: Timed, e: Event)
    ensures RunAll(s, [e]) == Do(s, e)
  {
    hide Do;
    assert [e][1..] == [];
    assert RunAll(Do(s, e).state, [e][1..]).log == [];
  }

  // ----- what is delivered was received -----

  /** `x` occurs in `bytes` without a gap. */
  ghost predicate Occurs(x: seq<Octet>, bytes: seq<Octet>) {
    exists i: nat :: OccursAt(x, bytes, i)
  }

  predicate OccursAt(x: seq<Octet>, bytes: seq<Octet>, i: nat) {
    i + |x| <= |bytes| && bytes[i..i + |x|] == x
  }

  /** A parser on the way holds the end of what has been received. */
  ghost predicate HoldsEnd(p: Parser, bytes: seq<Octet>) {
    p.state != WaitSof ==> exists i :: 0 <= i < |bytes| && IsHeld(p, bytes[i..])
  }

  ghost predicate IsHeld(p: Parser, end: seq<Octet>) {
    end != [] && GoodHeader(end) && p == Partial(end)
  }

  lemma AcceptAfter(end: seq<Octet>, b: Octet)
    requires end != [] && GoodHeader(end)
    ensures var r := Accept(Partial(end), b);
      || (r.log == [] && IsHeld(r.parser, end + [b]))
      || (r.parser.state == WaitSof
          && forall f :: Delivered(f) in r.log ==> f.WellFormed() && end + [b] == Encode(f))
  {
    hide Crc8.Crc;
    if GoodHeader(end + [b]) {
      FeedPartial(end);
      FeedPartial(end + [b]);
      FeedConcat(RESET, end, [b]);
      FeedOne(Partial(end), b);
    } else if |end| >= 5 {
      var f := Frame(end[2], end[3], end[5..]);
      assert end == [SOF, VERSION, end[2], end[3], end[4]] + end[5..];
      assert b == ComputeCrc(f) ==> end + [b] == Encode(f);
    }
  }

  lemma OneByteHeld(p: Parser, bytes: seq<Octet>, b: Octet)
    requires HoldsEnd(p, bytes)
    ensures var r := Accept(p, b);
      && HoldsEnd(r.parser, bytes + [b])
      && forall f :: Delivered(f) in r.log ==> f.WellFormed() && Occurs(Encode(f), bytes + [b])
  {
    hide ComputeCrc, Encode, IsHeld;
    var longer := bytes + [b];
    if p.state == WaitSof {
      if b == SOF {
        assert longer[|bytes|..] == [SOF];
        SofIsHeld();
      }
    } else {
      var i :| 0 <= i < |bytes| && IsHeld(p, bytes[i..]);
      assert longer[i..] == bytes[i..] + [b];
      HeldThen(p, bytes[i..], b);
      forall f | Delivered(f) in Accept(p, b).log ensures f.WellFormed() && Occurs(Encode(f), longer) {
        assert OccursAt(Encode(f), longer, i);
      }
    }
  }

  lemma SofIsHeld()
    ensures IsHeld(RESET.(state := ReadVersion), [SOF])
  {
  }

  lemma HeldThen(p: Parser, end: seq<Octet>, b: Octet)
    requires IsHeld(p, end)
    ensures var r := Accept(p, b);
      || (r.log == [] && IsHeld(r.parser, end + [b]))
      || (r.parser.state == WaitSof
          && forall f :: Delivered(f) in r.log ==> f.WellFormed() && end + [b] == Encode(f))
  {
    hide ComputeCrc, Encode, Accept;
    AcceptAfter(end, b);
  }

  lemma {:induction false} OccursLater(x: seq<Octet>, bytes: seq<Octet>, more: seq<Octet>)
    requires Occurs(x, bytes)
    ensures Occurs(x, bytes + more)
  {
    var i: nat :| OccursAt(x, bytes, i);
    assert (bytes + more)[i..i + |x|] == bytes[i..i + |x|];
    assert OccursAt(x, bytes + more, i);
  }

  /** Every frame that a run delivers occurs, encoded and without a gap, in what the run has
      received. */
  lemma {:induction false} DeliveredIsReceived(s: Timed, before: seq<Octet>, events: seq<Event>, f: Frame)
    requires HoldsEnd(s.parser, before) && Delivered(f) in RunAll(s, events).log
    ensures f.WellFormed() && Occurs(Encode(f), before + BytesOf(events))
    decreases |events|
  {
    hide Accept, Encode, HoldsEnd, Occurs;
    var e, rest := events[0], events[1..];
    var first := Do(s, e);
    var now := before + (if e.Byte? then [e.b] else []);
    if e.Byte? {
      OneByteHeld(s.parser, before, e.b);
      assert now + BytesOf(rest) == before + BytesOf(events);
    } else {
      ResetHolds(before);
      assert now == before && BytesOf(events) == BytesOf(rest);
    }
    if Delivered(f) in first.log {
      OccursLater(Encode(f), now, BytesOf(rest));
    } else {
      DeliveredIsReceived(first.state, now, rest, f);
    }
  }

  lemma ResetHolds(bytes: seq<Octet>)
    ensures HoldsEnd(RESET, bytes)
  {
  }

  function TimeOf(e: Event): nat {
    e.t
  }

  /** The events are in order of time, from `from` on and before `end`. */
  predicate AreWithin(events: seq<Event>, from: nat, end: nat)
    decreases |events|
  {
    |events| > 0 ==> from <= TimeOf(events[0]) < end && AreWithin(events[1..], TimeOf(events[0]), end)
  }

  /** What happens within 100 ms is never timed out. */
  lemma {:induction false} QuickIsNotTimedOut(s: Timed, events: seq<Event>, t0: nat, from: nat)
    requires AreWithin(events, from, t0 + 100) && t0 <= from
    requires s.parser.state != WaitSof ==> exists l: nat :: t0 <= l <= from && s.lastByteMs == Millis(l)
    ensures TimedOut !in RunAll(s, events).log
    decreases |events|
  {
    hide Accept;
    if |events| > 0 {
      var e := events[0];
      var first := Do(s, e);
      if s.parser.state != WaitSof {
        var l: nat :| t0 <= l <= from && s.lastByteMs == Millis(l);
        Sub32OfWrapped(TimeOf(e), l);
      }
      if e.Byte? {
        OpenedNow(s, e);
      }
      QuickIsNotTimedOut(first.state, events[1..], t0, TimeOf(e));
    }
  }

  lemma OpenedNow(s: Timed, e: Event)
    requires e.Byte?
    ensures var r := Do(s, e).state; r.parser.state != WaitSof ==> r.lastByteMs == Millis(e.t)
    ensures TimedOut !in Do(s, e).log
  {
    hide ComputeCrc;
  }

  /** One of the checks comes 100 ms or more after `t0`. */
  predicate IsLate(checks: seq<nat>, t0: nat) {
    exists i :: 0 <= i < |checks| && checks[i] - t0 >= 100
  }

  lemma FirstOrLater(checks: seq<nat>, t0: nat)
    requires |checks| > 0
    ensures IsLate(checks, t0)
      <==> checks[0] - t0 >= 100 || IsLate(checks[1..], t0)
  {
    if IsLate(checks[1..], t0) {
      var i :| 0 <= i < |checks[1..]| && checks[1..][i] - t0 >= 100;
      assert checks[i + 1] == checks[1..][i];
    }
    if IsLate(checks, t0) {
      var i :| 0 <= i < |checks| && checks[i] - t0 >= 100;
      assert i > 0 ==> checks[1..][i - 1] == checks[i];
    }
  }

  /** Checks alone: one of them fires exactly when a candidate is open and one of them is
      late, counted from the last byte. */
  lemma {:induction false} ChecksFireWhen(s: Timed, t0: nat, checks: seq<nat>)
    requires s.parser.state != WaitSof ==> s.lastByteMs == Millis(t0)
    requires forall i :: 0 <= i < |checks| ==> t0 <= checks[i] < t0 + 0x1_0000_0000
    ensures TimedOut in RunAll(s, Checks(checks)).log
      <==> s.parser.state != WaitSof && IsLate(checks, t0)
    decreases |checks|
  {
    hide IsLate;
    if |checks| == 0 {
      NothingIsLate(t0);
    } else {
      var first := Do(s, Check(checks[0]));
      assert Checks(checks)[0] == Check(checks[0]) && Checks(checks)[1..] == Checks(checks[1..]);
      Sub32OfWrapped(checks[0], t0);
      FirstOrLater(checks, t0);
      ChecksFireWhen(first.state, t0, checks[1..]);
    }
  }

  lemma NothingIsLate(t0: nat)
    ensures !IsLate([], t0)
  {
  }

  /** The protocol document promises a timeout for every pause of 100 ms between two bytes.
      The code looks only when it checks. However many checks there are between the bytes, the
      pause is seen exactly when a candidate is open and one of the checks comes 100 ms or
      more after the first byte: the time of the second byte does not matter. */
  lemma PauseIsSeenWhen(s: Timed, b1: Octet, t1: nat, checks: seq<nat>, b2: Octet, t2: nat)
    requires forall i :: 0 <= i < |checks| ==> t1 <= checks[i] < t1 + 0x1_0000_0000
    ensures TimedOut in RunAll(s, PauseWithChecks(b1, t1, checks, b2, t2)).log
      <==> ProcessByte(s, b1, Millis(t1)).state.parser.state != WaitSof
           && IsLate(checks, t1)
  {
    hide ComputeCrc, IsLate;
    var first, middle, last := [Byte(b1, t1)], Checks(checks), [Byte(b2, t2)];
    var after := ProcessByte(s, b1, Millis(t1));
    var next := RunAll(after.state, middle);
    RunOne(s, Byte(b1, t1));
    RunOne(next.state, Byte(b2, t2));
    RunAllConcat(s, first + middle, last);
    RunAllConcat(s, first, middle);
    ChecksFireWhen(after.state, t1, checks);
    assert TimedOut !in after.log && TimedOut !in ProcessByte(next.state, b2, Millis(t2)).log;
  }

  /** What a caller can rely on. Each call of the task checks before it reads; if the check of
      the call that reads the second byte comes at most `d` ms before that byte, every pause of
      100 + d ms or more in an open candidate is seen, and no pause below 100 ms is. */
  lemma LongPausesAreSeen(s: Timed, b1: Octet, t1: nat, checks: seq<nat>, b2: Octet, t2: nat, d: nat)
    requires t1 <= t2 < t1 + 0x1_0000_0000 && checks != []
    requires forall i :: 0 <= i < |checks| ==> t1 <= checks[i] <= t2
    requires t2 - checks[|checks| - 1] <= d
    ensures var seen := TimedOut in RunAll(s, PauseWithChecks(b1, t1, checks, b2, t2)).log;
      && (t2 - t1 >= 100 + d ==>
            seen == (ProcessByte(s, b1, Millis(t1)).state.parser.state != WaitSof))
      && (t2 - t1 < 100 ==> !seen)
  {
    hide ProcessByte, RunAll;
    PauseIsSeenWhen(s, b1, t1, checks, b2, t2);
  }

  /** A run of the task's shape, a call every 10 ms: the second byte comes 100 ms after the
      first, in a call whose check was made one millisecond tick earlier. */
  lemma UnseenPause()
    ensures var s, checks := Timed(RESET, 0, 0, 0), [9, 19, 29, 39, 49, 59, 69, 79, 89, 99];
      && ProcessByte(s, SOF, Millis(0)).state.parser.state != WaitSof
      && TimedOut !in RunAll(s, PauseWithChecks(SOF, 0, checks, VERSION, 100)).log
  {
    var checks := [9, 19, 29, 39, 49, 59, 69, 79, 89, 99];
    PauseIsSeenWhen(Timed(RESET, 0, 0, 0), SOF, 0, checks, VERSION, 100);
  }
}
