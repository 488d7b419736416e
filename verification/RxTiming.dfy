/** When the receive ring never overflows: the wire's fastest byte rate against the pace at
    which `communication_task` empties the ring. Times are in CPU cycles. */
module RxTiming {
  import opened Bytes

  /** Ten bit times at UBRR0 = 103: 10 * 16 * (103 + 1). */
  const BYTE_CYCLES := 16640
  const CAPACITY := 31

  /** A byte arrives, one is read, or the reader finds the ring empty. */
  datatype Event = Arrive(t: nat) | Read(t: nat) | FoundEmpty(t: nat)

  datatype Fill = Fill(queued: nat, dropped: nat)

  function Do(f: Fill, e: Event): Fill {
    match e
    case Arrive(_) =>
      if f.queued < CAPACITY then f.(queued := f.queued + 1) else f.(dropped := f.dropped + 1)
    case Read(_) => if f.queued > 0 then f.(queued := f.queued - 1) else f
    case FoundEmpty(_) => f
  }

  function DoAll(f: Fill, events: seq<Event>): Fill
    decreases |events|
  {
    if |events| == 0 then f else DoAll(Do(f, events[0]), events[1..])
  }

  function TimeOf(e: Event): nat {
    e.t
  }

  /** What every log of the ring satisfies: time does not go back from `from` on, and the ring
      is found empty only when it is. */
  ghost predicate IsRun(f: Fill, events: seq<Event>, from: nat)
    decreases |events|
  {
    |events| > 0 ==>
      && from <= TimeOf(events[0]) && (events[0].FoundEmpty? ==> f.queued == 0)
      && IsRun(Do(f, events[0]), events[1..], TimeOf(events[0]))
  }

  /** A condition on times alone: arrivals are a byte time apart; `last` is the one before. */
  ghost predicate Spaced(events: seq<Event>, last: Option<nat>)
    decreases |events|
  {
    |events| > 0 ==>
      && (events[0].Arrive? && last.Some? ==> last.value + 16640 <= events[0].t)
      && Spaced(events[1..], if events[0].Arrive? then Some(events[0].t) else last)
  }

  /** Another one: every arrival comes less than 515,840 cycles after the ring was last found
      empty, at `empty` or later. */
  ghost predicate Drained(events: seq<Event>, empty: nat)
    decreases |events|
  {
    |events| > 0 ==>
      && (events[0].Arrive? ==> events[0].t < empty + 515840)
      && Drained(events[1..], if events[0].FoundEmpty? then events[0].t else empty)
  }

  /** No byte is lost when arrivals are spaced and the ring is drained in time. */
  lemma NothingIsDropped(f: Fill, events: seq<Event>, empty: nat)
    requires f.queued == 0 && IsRun(f, events, empty) && Spaced(events, None) && Drained(events, empty)
    ensures DoAll(f, events).dropped == f.dropped
  {
    NothingIsDroppedFrom(f, events, empty, empty, None, 0);
  }

  /** `n` arrivals since the ring was last empty, spaced out, cannot have filled it. */
  lemma {:induction false} NothingIsDroppedFrom(
      f: Fill, events: seq<Event>, from: nat, empty: nat, last: Option<nat>, n: nat)
    requires IsRun(f, events, from) && Spaced(events, last) && Drained(events, empty)
    requires empty <= from && f.queued <= n
    requires n > 0 ==> last.Some? && empty + (n - 1) * BYTE_CYCLES <= last.value
    ensures DoAll(f, events).dropped == f.dropped
    decreases |events|
  {
    if |events| > 0 {
      var next, rest := Do(f, events[0]), events[1..];
      match events[0] {
        case Arrive(t) => NothingIsDroppedFrom(next, rest, t, empty, Some(t), n + 1);
        case Read(t) => NothingIsDroppedFrom(next, rest, t, empty, last, n);
        case FoundEmpty(t) => NothingIsDroppedFrom(next, rest, t, t, last, 0);
      }
    }
  }

  /** When the ring was last found empty. */
  function LastEmpty(events: seq<Event>, empty: nat): nat {
    if |events| == 0 then empty
    else if events[|events| - 1].FoundEmpty? then events[|events| - 1].t
    else LastEmpty(events[..|events| - 1], empty)
  }

  /** In a run, times are in order and not later than the last one. */
  lemma {:induction false} TimesAreOrdered(f: Fill, events: seq<Event>, from: nat, i: nat)
    requires IsRun(f, events, from) && i < |events|
    ensures from <= TimeOf(events[i]) <= LastTime(events, from)
    decreases |events|
  {
    if |events| > 1 {
      var rest := events[1..];
      TimesAreOrdered(Do(f, events[0]), rest, TimeOf(events[0]), if i == 0 then 0 else i - 1);
      assert LastTime(events, from) == LastTime(rest, TimeOf(events[0]));
    }
  }

  lemma {:induction false} RunPrefix(f: Fill, events: seq<Event>, from: nat, n: nat)
    requires IsRun(f, events, from) && n <= |events|
    ensures IsRun(f, events[..n], from)
    decreases |events|
  {
    if n > 0 {
      assert events[..n][1..] == events[1..][..n - 1];
      RunPrefix(Do(f, events[0]), events[1..], TimeOf(events[0]), n - 1);
    }
  }

  /** The ring was last found empty no earlier than at any time it was. */
  lemma {:induction false} LastIsLatest(f: Fill, events: seq<Event>, from: nat, i: nat)
    requires IsRun(f, events, from) && i < |events| && events[i].FoundEmpty?
    ensures events[i].t <= LastEmpty(events, from)
    decreases |events|
  {
    var n := |events| - 1;
    TimesAreOrdered(f, events, from, i);
    if !events[n].FoundEmpty? {
      RunPrefix(f, events, from, n);
      LastIsLatest(f, events[..n], from, i);
    }
  }

  lemma {:induction false} LastEmptyGrows(f: Fill, events: seq<Event>, from: nat, n: nat)
    requires IsRun(f, events, from) && n <= |events|
    ensures from <= LastEmpty(events[..n], from) <= LastEmpty(events, from)
    decreases |events|, n
  {
    if n > 0 {
      if events[n - 1].FoundEmpty? {
        TimesAreOrdered(f, events, from, n - 1);
        LastIsLatest(f, events, from, n - 1);
      } else {
        LastEmptyGrows(f, events, from, n - 1);
        assert events[..n][..n - 1] == events[..n - 1];
      }
    } else {
      LastEmptyFrom(f, events, from);
    }
  }

  lemma {:induction false} LastEmptyFrom(f: Fill, events: seq<Event>, from: nat)
    requires IsRun(f, events, from)
    ensures from <= LastEmpty(events, from)
    decreases |events|
  {
    if |events| > 0 {
      var n := |events| - 1;
      TimesAreOrdered(f, events, from, n);
      RunPrefix(f, events, from, n);
      LastEmptyFrom(f, events[..n], from);
    }
  }

  lemma {:induction false} DrainedThen(events: seq<Event>, e: Event, empty: nat)
    requires Drained(events, empty) && (e.Arrive? ==> e.t < LastEmpty(events, empty) + 515840)
    ensures Drained(events + [e], empty)
    decreases |events|
  {
    if |events| == 0 {
      assert [e][1..] == [] && events + [e] == [e];
    } else {
      assert (events + [e])[1..] == events[1..] + [e];
      LastEmptyAfter(events, empty);
      DrainedThen(events[1..], e, if events[0].FoundEmpty? then events[0].t else empty);
    }
  }

  lemma {:induction false} LastEmptyAfter(events: seq<Event>, empty: nat)
    requires |events| > 0
    ensures LastEmpty(events, empty)
         == LastEmpty(events[1..], if events[0].FoundEmpty? then events[0].t else empty)
    decreases |events|
  {
    var n := |events| - 1;
    if n > 0 && !events[n].FoundEmpty? {
      assert events[..n][1..] == events[1..][..n - 1];
      LastEmptyAfter(events[..n], empty);
    }
  }

  /** A ring that has been drained in time still is when nothing later than `bound` has been
      added, and `bound` is in time for what was there. */
  lemma {:induction false} StillDrained(events: seq<Event>, n: nat, bound: nat)
    requires n <= |events| && IsRun(Fill(0, 0), events, 0) && Drained(events[..n], 0)
    requires LastTime(events, 0) <= bound < LastEmpty(events[..n], 0) + 515840
    ensures Drained(events, 0)
    decreases |events|
  {
    if n == |events| {
      assert events[..n] == events;
    } else {
      var m := |events| - 1;
      var shorter := events[..m];
      TimesAreOrdered(Fill(0, 0), events, 0, m);
      if m > 0 {
        TimesAreOrdered(Fill(0, 0), events, 0, m - 1);
      }
      RunPrefix(Fill(0, 0), events, 0, m);
      assert shorter[..n] == events[..n];
      StillDrained(shorter, n, bound);
      LastEmptyGrows(Fill(0, 0), shorter, 0, n);
      DrainedThen(shorter, events[m], 0);
      assert events == shorter + [events[m]];
    }
  }

  function LastTime(events: seq<Event>, from: nat): nat {
    if |events| == 0 then from else TimeOf(events[|events| - 1])
  }

  lemma {:induction false} OneMoreEvent(f: Fill, events: seq<Event>, from: nat, e: Event)
    requires IsRun(f, events, from) && LastTime(events, from) <= TimeOf(e)
    requires e.FoundEmpty? ==> DoAll(f, events).queued == 0
    ensures IsRun(f, events + [e], from) && LastTime(events + [e], from) == TimeOf(e)
    ensures DoAll(f, events + [e]) == Do(DoAll(f, events), e)
    decreases |events|
  {
    if |events| == 0 {
      assert (events + [e])[1..] == [];
    } else {
      assert (events + [e])[1..] == events[1..] + [e];
      OneMoreEvent(Do(f, events[0]), events[1..], TimeOf(events[0]), e);
    }
  }

  /** Bytes at full rate from time 0. */
  function FullRate(n: nat): (events: seq<Event>)
    ensures |events| == n
  {
    if n == 0 then [] else FullRate(n - 1) + [Arrive((n - 1) * BYTE_CYCLES)]
  }

  lemma {:induction false} DoAllAppend(f: Fill, events: seq<Event>, e: Event)
    ensures DoAll(f, events + [e]) == Do(DoAll(f, events), e)
    decreases |events|
  {
    if |events| > 0 {
      assert (events + [e])[1..] == events[1..] + [e];
      DoAllAppend(Do(f, events[0]), events[1..], e);
    }
  }

  /** The pace is exact: left alone for n byte times, the ring loses all bytes past 31, the
      first of them at cycle 515,840. */
  lemma {:induction false} FullRateFills(n: nat)
    ensures DoAll(Fill(0, 0), FullRate(n))
         == Fill(Min(n, 31), if n <= 31 then 0 else n - 31)
    ensures n == 32 ==> FullRate(n)[n - 1] == Arrive(515840)
  {
    if n > 0 {
      FullRateFills(n - 1);
      DoAllAppend(Fill(0, 0), FullRate(n - 1), Arrive((n - 1) * BYTE_CYCLES));
    }
  }
}
