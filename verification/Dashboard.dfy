/** `DashboardStore` of supervisor/dashboard.py: the cached snapshot, the bounded history and
    the bounded event log as folds of everything that was ever recorded. */
module Dashboard {
  import opened Bytes
  import opened Status

  datatype Connection = Connected | Degraded | Disconnected

  const DEFAULT_STALE_AFTER := 3.0
  const HISTORY_LIMIT := 120
  const EVENT_LIMIT := 50
  const ERROR_LIMIT := 256

  /** The seven reports of one polling cycle. */
  datatype RawCycle = Cycle(comm: Report, timing: Report, jitter: Report, runtimeMemory: Report,
                            cpu: Report, overruns: Report, watchdog: Report)
  type Cycle = c: RawCycle | IsCycle(c)
    witness Cycle(CommStatus(0, 0, 0), TimingStatus(0, 0, 0, 0), JitterStatus(0, 0, 0, 0),
                  RuntimeMemoryStatus(0, 0, 0), CpuLoadStatus(0, 0), OverrunStatus(0, 0, 0, 0),
                  WatchdogStatus(0))

  predicate IsCycle(c: RawCycle) {
    && c.comm.CommStatus? && c.timing.TimingStatus? && c.jitter.JitterStatus?
    && c.runtimeMemory.RuntimeMemoryStatus? && c.cpu.CpuLoadStatus?
    && c.overruns.OverrunStatus? && c.watchdog.WatchdogStatus?
  }

  /** `DashboardSnapshot`. */
  datatype Snapshot = Snapshot(
    connection: Connection, updatedAt: Option<real>, lastError: Option<string>,
    comm: Option<Report>, timing: Option<Report>, jitter: Option<Report>,
    runtimeMemory: Option<Report>, cpu: Option<Report>, overruns: Option<Report>,
    watchdog: Option<Report>)

  const NOTHING_YET := Snapshot(Disconnected, None, None, None, None, None, None, None, None, None)

  /** A history sample, with the two numbers that the utilisation is computed from. */
  datatype Sample = Sample(at: real, cpu: Report, minFreeBytes: nat, comm: Report)

  /** The counters that make an event when they change, in the order of their events. */
  datatype Counter = RxOverflow | ParserTimeouts | CrcErrors
                   | ActuatorOverruns | ControlOverruns | SensorSafetyOverruns | CommunicationOverruns

  const COUNTERS := [RxOverflow, ParserTimeouts, CrcErrors,
                     ActuatorOverruns, ControlOverruns, SensorSafetyOverruns, CommunicationOverruns]

  datatype Event =
    | ConnectedFirst(at: real)
    | Recovered(at: real)
    | CounterChanged(at: real, counter: Counter, before: nat, after: nat)
    | MarkerDetected(at: real)
    | LinkDegraded(at: real, error: string)
    | LinkLost(at: real, error: string)

  /** A cycle and the time at which it was recorded. */
  datatype Stamped = Stamped(cycle: Cycle, at: real)

  /** What is recorded: a whole cycle, or an error. */
  datatype Outcome = Success(update: Stamped) | Failure(error: string, at: real)

  // ----- the meaning of a history of outcomes -----

  function LastSuccess(h: seq<Outcome>): Option<Stamped> {
    if |h| == 0 then None
    else if h[|h| - 1].Success? then Some(h[|h| - 1].update)
    else LastSuccess(h[..|h| - 1])
  }

  /** CONNECTED after a success; after a failure, DEGRADED while the last success is no older
      than `stale`, else DISCONNECTED. */
  function ConnectionOf(h: seq<Outcome>, stale: real): Connection {
    if |h| == 0 then Disconnected
    else match h[|h| - 1]
      case Success(_) => Connected
      case Failure(_, at) =>
        if LastSuccess(h).Some? && at - LastSuccess(h).value.at <= stale then Degraded
        else Disconnected
  }

  function Samples(h: seq<Outcome>): seq<Sample> {
    if |h| == 0 then []
    else
      var last := h[|h| - 1];
      Samples(h[..|h| - 1]) + (if last.Success? then [SampleOf(last.update)] else [])
  }

  function SampleOf(u: Stamped): Sample {
    Sample(u.at, u.cycle.cpu, u.cycle.runtimeMemory.minFreeBytes, u.cycle.comm)
  }

  /** Three counters of the link, then four of the tasks. */
  function Counters(c: Cycle): (s: seq<nat>)
    ensures |s| == 7
  {
    CountersOf(c.comm, c.overruns)
  }

  function CountersOf(comm: Report, overruns: Report): (s: seq<nat>)
    requires comm.CommStatus? && overruns.OverrunStatus?
    ensures |s| == 7
  {
    [comm.uartRxOverflow, comm.parserTimeouts, comm.crcErrors,
     overruns.actuator, overruns.control, overruns.sensorSafety, overruns.communication]
  }

  /** The counters from `from` to `n` that differ. */
  function Changes(before: seq<nat>, after: seq<nat>, at: real, from: nat, n: nat): seq<Event>
    requires from <= n <= |before| == |after| == 7
    decreases n
  {
    if n == from then []
    else
      Changes(before, after, at, from, n - 1)
        + (if before[n - 1] != after[n - 1]
           then [CounterChanged(at, COUNTERS[n - 1], before[n - 1], after[n - 1])] else [])
  }

  function MarkerEvents(before: Option<Stamped>, u: Stamped): seq<Event> {
    if u.cycle.watchdog.timeoutMarker == 1
       && (before.None? || before.value.cycle.watchdog.timeoutMarker != 1)
    then [MarkerDetected(u.at)] else []
  }

  /** Counters are compared with the last success; the marker event comes between the two
      groups of counters. */
  function ValueEvents(before: Option<Stamped>, u: Stamped): seq<Event> {
    if before.None? then MarkerEvents(before, u)
    else
      var was, now := Counters(before.value.cycle), Counters(u.cycle);
      Changes(was, now, u.at, 0, 3) + MarkerEvents(before, u) + Changes(was, now, u.at, 3, 7)
  }

  /** One event when `o` changes the connection. */
  function ConnectionEvents(h: seq<Outcome>, o: Outcome, stale: real): seq<Event> {
    var now := ConnectionOf(h + [o], stale);
    if now == ConnectionOf(h, stale) then []
    else match o
      case Success(u) => [if LastSuccess(h).None? then ConnectedFirst(u.at) else Recovered(u.at)]
      case Failure(error, at) =>
        [if now == Degraded then LinkDegraded(at, BoundedError(error))
         else LinkLost(at, BoundedError(error))]
  }

  function NewEvents(h: seq<Outcome>, o: Outcome, stale: real): seq<Event> {
    ConnectionEvents(h, o, stale)
      + (if o.Success? then ValueEvents(LastSuccess(h), o.update) else [])
  }

  function AllEvents(h: seq<Outcome>, stale: real): seq<Event> {
    if |h| == 0 then []
    else
      var rest := h[..|h| - 1];
      AllEvents(rest, stale) + NewEvents(rest, h[|h| - 1], stale)
  }

  /** What a `deque` of this length keeps. */
  function LastOf<T>(s: seq<T>, limit: nat): seq<T> {
    if |s| <= limit then s else s[|s| - limit..]
  }

  lemma AppendToDeque<T>(s: seq<T>, x: T, limit: nat)
    requires limit > 0
    ensures LastOf(LastOf(s, limit) + [x], limit) == LastOf(s + [x], limit)
  {
  }

  /** `(error or "serial polling failed")[:256]`. */
  function BoundedError(error: string): string {
    var e := if error == "" then "serial polling failed" else error;
    if |e| <= ERROR_LIMIT then e else e[..ERROR_LIMIT]
  }

  /** The snapshot for a history: one whole cycle, the last success, with the connection and
      the error of the last outcome. */
  function SnapshotOf(h: seq<Outcome>, stale: real): Snapshot {
    var connection := ConnectionOf(h, stale);
    var error := if |h| > 0 && h[|h| - 1].Failure? then Some(BoundedError(h[|h| - 1].error)) else None;
    match LastSuccess(h)
    case Some(u) => WholeCycle(u, connection, error)
    case None => NOTHING_YET.(connection := connection, lastError := error)
  }

  function WholeCycle(u: Stamped, connection: Connection, error: Option<string>): Snapshot {
    var c := u.cycle;
    Snapshot(connection, Some(u.at), error, Some(c.comm), Some(c.timing), Some(c.jitter),
             Some(c.runtimeMemory), Some(c.cpu), Some(c.overruns), Some(c.watchdog))
  }

  /** One more outcome. */
  lemma Record(h: seq<Outcome>, o: Outcome, stale: real)
    ensures LastSuccess(h + [o]) == if o.Success? then Some(o.update) else LastSuccess(h)
    ensures Samples(h + [o]) == if o.Success? then Samples(h) + [SampleOf(o.update)] else Samples(h)
    ensures AllEvents(h + [o], stale) == AllEvents(h, stale) + NewEvents(h, o, stale)
    ensures ConnectionOf(h + [o], stale) ==
      if o.Success? then Connected
      else if LastSuccess(h).Some? && o.at - LastSuccess(h).value.at <= stale then Degraded
      else Disconnected
  {
    hide NewEvents, SampleOf;
    assert (h + [o])[..|h|] == h;
    if o.Failure? {
      assert Samples(h) + [] == Samples(h);
    }
  }

  class DashboardStore {
    var snapshot: Snapshot
    var history: seq<Sample>
    var events: seq<Event>
    const historyLimit: nat
    const eventLimit: nat
    const staleAfter: real
    ghost var outcomes: seq<Outcome>
    ghost var logged: seq<Event>

    /** Holds between the store's atomic methods. */
    ghost predicate Valid()
      reads this
    {
      && historyLimit > 0 && eventLimit > 0 && staleAfter > 0.0
      && snapshot == SnapshotOf(outcomes, staleAfter)
      && history == LastOf(Samples(outcomes), historyLimit)
      && events == LastOf(logged, eventLimit) && logged == AllEvents(outcomes, staleAfter)
    }

    constructor (historyLimit: nat, eventLimit: nat, staleAfter: real)
      requires historyLimit > 0 && eventLimit > 0 && staleAfter > 0.0
      ensures Valid() && outcomes == [] && snapshot == NOTHING_YET
      ensures this.historyLimit == historyLimit && this.eventLimit == eventLimit
      ensures this.staleAfter == staleAfter
    {
      this.historyLimit, this.eventLimit, this.staleAfter := historyLimit, eventLimit, staleAfter;
      snapshot, history, events, outcomes, logged := NOTHING_YET, [], [], [], [];
    }

    /** `_append_event_locked`. */
    method AppendEvent(e: Event)
      requires eventLimit > 0 && events == LastOf(logged, eventLimit)
      modifies `events, `logged
      ensures events == LastOf(logged, eventLimit) && logged == old(logged) + [e]
    {
      AppendToDeque(logged, e, eventLimit);
      logged := logged + [e];
      events := LastOf(events + [e], eventLimit);
    }

    /** The two loops of `_record_value_change_events_locked`. */
    method AppendChanges(before: seq<nat>, after: seq<nat>, at: real, from: nat, to: nat)
      requires from <= to <= |before| == |after| == 7
      requires eventLimit > 0 && events == LastOf(logged, eventLimit)
      modifies `events, `logged
      ensures events == LastOf(logged, eventLimit)
      ensures logged == old(logged) + Changes(before, after, at, from, to)
    {
      for i := from to to
        invariant events == LastOf(logged, eventLimit)
        invariant logged == old(logged) + Changes(before, after, at, from, i)
      {
        if before[i] != after[i] {
          AppendEvent(CounterChanged(at, COUNTERS[i], before[i], after[i]));
        }
      }
    }

    /** The middle of `_record_value_change_events_locked`. */
    method AppendMarker(ghost was: Option<Stamped>, u: Stamped)
      requires eventLimit > 0 && events == LastOf(logged, eventLimit)
      requires snapshot.watchdog == if was.Some? then Some(was.value.cycle.watchdog) else None
      modifies `events, `logged
      ensures events == LastOf(logged, eventLimit) && logged == old(logged) + MarkerEvents(was, u)
    {
      hide LastOf;
      if u.cycle.watchdog.timeoutMarker == 1
         && (snapshot.watchdog.None? || (snapshot.watchdog.value.WatchdogStatus?
                                         && snapshot.watchdog.value.timeoutMarker != 1)) {
        AppendEvent(MarkerDetected(u.at));
      }
    }

    /** `_record_value_change_events_locked`. */
    method RecordValueChangeEvents(ghost was: Option<Stamped>, u: Stamped)
      requires eventLimit > 0 && events == LastOf(logged, eventLimit)
      requires snapshot == match was
        case Some(w) => WholeCycle(w, snapshot.connection, snapshot.lastError)
        case None => NOTHING_YET.(connection := snapshot.connection, lastError := snapshot.lastError)
      modifies `events, `logged
      ensures events == LastOf(logged, eventLimit)
      ensures logged == old(logged) + ValueEvents(was, u)
    {
      hide LastOf, Changes, MarkerEvents;
      if snapshot.comm.Some? && snapshot.overruns.Some? {
        var before := CountersOf(snapshot.comm.value, snapshot.overruns.value);
        AppendChanges(before, Counters(u.cycle), u.at, 0, 3);
        AppendMarker(was, u);
        AppendChanges(before, Counters(u.cycle), u.at, 3, 7);
      } else {
        AppendMarker(was, u);
      }
    }

    /** `record_success`. */
    method RecordSuccess(c: Cycle, at: real)
      requires Valid()
      modifies this
      ensures Valid() && outcomes == old(outcomes) + [Success(Stamped(c, at))]
      ensures snapshot.connection == Connected && snapshot.lastError == None
      ensures Shows(snapshot, c, at)
    {
      hide LastOf, ValueEvents, Samples, AllEvents, LastSuccess;
      var u := Stamped(c, at);
      ghost var was := outcomes;
      Record(was, Success(u), staleAfter);
      if snapshot.connection != Connected {
        AppendEvent(if snapshot.updatedAt.None? then ConnectedFirst(at) else Recovered(at));
      }
      assert logged == AllEvents(was, staleAfter) + ConnectionEvents(was, Success(u), staleAfter);
      RecordValueChangeEvents(LastSuccess(was), u);
      snapshot := WholeCycle(u, Connected, None);
      AppendToDeque(Samples(was), SampleOf(u), historyLimit);
      history := LastOf(history + [SampleOf(u)], historyLimit);
      outcomes := outcomes + [Success(u)];
    }

    /** `record_failure`. */
    method RecordFailure(error: string, at: real)
      requires Valid()
      modifies this
      ensures Valid() && outcomes == old(outcomes) + [Failure(error, at)]
      ensures snapshot.connection != Connected && snapshot.lastError == Some(BoundedError(error))
      ensures snapshot
           == old(snapshot).(connection := snapshot.connection, lastError := snapshot.lastError)
    {
      hide LastOf, Samples, AllEvents, LastSuccess, BoundedError;
      Record(outcomes, Failure(error, at), staleAfter);
      var boundedError := BoundedError(error);
      var connection :=
        if snapshot.updatedAt.None? then Disconnected
        else if at - snapshot.updatedAt.value > staleAfter then Disconnected
        else Degraded;
      if connection != snapshot.connection {
        AppendEvent(if connection == Degraded then LinkDegraded(at, boundedError)
                    else LinkLost(at, boundedError));
      }
      snapshot := snapshot.(connection := connection, lastError := Some(boundedError));
      outcomes := outcomes + [Failure(error, at)];
    }

    /** The staleness that `to_dict` reports: fresh exactly when the last outcome was a
        success no older than the limit. */
    method IsStale(now: real) returns (stale: bool)
      requires Valid()
      ensures !stale <==> |outcomes| > 0 && outcomes[|outcomes| - 1].Success?
                          && now - outcomes[|outcomes| - 1].update.at <= staleAfter
    {
      var age := if snapshot.updatedAt.None? then None
                 else Some(if now - snapshot.updatedAt.value < 0.0 then 0.0
                           else now - snapshot.updatedAt.value);
      stale := snapshot.connection != Connected || age.None? || age.value > staleAfter;
    }
  }

  /** `DashboardStore()`: the last 120 samples and the last 50 events are kept, and data go
      stale after three seconds. */
  method DefaultStore() returns (store: DashboardStore)
    ensures fresh(store) && store.Valid() && store.outcomes == []
    ensures store.historyLimit == 120 && store.eventLimit == 50 && store.staleAfter == 3.0
  {
    store := new DashboardStore(HISTORY_LIMIT, EVENT_LIMIT, DEFAULT_STALE_AFTER);
  }

  datatype StoreError = BadHistoryLimit | BadEventLimit | BadStaleAfter

  /** `DashboardStore(...)`, with the `ValueError`s of `__init__`. */
  method NewStore(historyLimit: int, eventLimit: int, staleAfter: real)
    returns (store: Option<DashboardStore>, error: Option<StoreError>)
    ensures store.Some? <==> historyLimit > 0 && eventLimit > 0 && staleAfter > 0.0
    ensures store.Some? ==> fresh(store.value) && store.value.Valid() && store.value.outcomes == []
    ensures error == (if historyLimit <= 0 then Some(BadHistoryLimit)
                      else if eventLimit <= 0 then Some(BadEventLimit)
                      else if staleAfter <= 0.0 then Some(BadStaleAfter)
                      else None)
  {
    if historyLimit <= 0 {
      return None, Some(BadHistoryLimit);
    }
    if eventLimit <= 0 {
      return None, Some(BadEventLimit);
    }
    if staleAfter <= 0.0 {
      return None, Some(BadStaleAfter);
    }
    var made := new DashboardStore(historyLimit, eventLimit, staleAfter);
    store, error := Some(made), None;
  }

  // ----- what the folds mean -----

  /** Outcome `i` is the latest success. */
  ghost predicate IsLatest(h: seq<Outcome>, i: nat) {
    i < |h| && h[i].Success? && forall j :: i < j < |h| ==> h[j].Failure?
  }

  lemma {:induction false} LatestSuccess(h: seq<Outcome>)
    ensures LastSuccess(h).Some? ==> exists i: nat :: IsLatest(h, i) && LastSuccess(h).value == h[i].update
    ensures LastSuccess(h).None? ==> forall i :: 0 <= i < |h| ==> h[i].Failure?
  {
    if |h| > 0 {
      var n, rest := |h| - 1, h[..|h| - 1];
      if h[n].Success? {
        assert IsLatest(h, n);
      } else {
        LatestSuccess(rest);
        if LastSuccess(rest).Some? {
          var i: nat :| IsLatest(rest, i) && LastSuccess(rest).value == rest[i].update;
          assert IsLatest(h, i);
        }
      }
    }
  }

  /** Each part of the snapshot shows the report of that name. */
  predicate Shows(s: Snapshot, c: Cycle, at: real) {
    && s.updatedAt == Some(at)
    && s.comm == Some(c.comm) && s.timing == Some(c.timing) && s.jitter == Some(c.jitter)
    && s.runtimeMemory == Some(c.runtimeMemory) && s.cpu == Some(c.cpu)
    && s.overruns == Some(c.overruns) && s.watchdog == Some(c.watchdog)
  }

  /** The data on display are those of one cycle: the latest recorded, part by part. The error
      is that of the last outcome. */
  lemma SnapshotIsOneCycle(h: seq<Outcome>, stale: real, i: nat)
    ensures var s := SnapshotOf(h, stale);
      && (IsLatest(h, i) ==> Shows(s, h[i].update.cycle, h[i].update.at))
      && ((forall j :: 0 <= j < |h| ==> h[j].Failure?) ==>
            && s.updatedAt == None && s.comm == None && s.timing == None && s.jitter == None
            && s.runtimeMemory == None && s.cpu == None && s.overruns == None && s.watchdog == None)
      && (s.lastError == None <==> |h| == 0 || h[|h| - 1].Success?)
  {
    hide ConnectionOf, BoundedError, LastSuccess;
    LatestSuccess(h);
    if LastSuccess(h).Some? {
      var k: nat :| IsLatest(h, k) && LastSuccess(h).value == h[k].update;
      assert IsLatest(h, i) ==> i == k;
    }
  }

  /** The error on display is the message of the last failure, cut off after 256 characters; an
      empty message is replaced. */
  lemma ErrorIsShown(h: seq<Outcome>, stale: real)
    requires |h| > 0 && h[|h| - 1].Failure?
    ensures var error, shown := h[|h| - 1].error, SnapshotOf(h, stale).lastError;
      && (error == "" ==> shown == Some("serial polling failed"))
      && (0 < |error| <= 256 ==> shown == Some(error))
      && (|error| > 256 ==> shown == Some(error[..256]))
  {
    hide ConnectionOf, LastSuccess;
  }

  /** A bounded list keeps the newest of what was appended. */
  lemma NewestAreKept<T>(s: seq<T>, limit: nat, k: nat)
    ensures |LastOf(s, limit)| == Min(|s|, limit)
    ensures k < |LastOf(s, limit)| ==> LastOf(s, limit)[|LastOf(s, limit)| - 1 - k] == s[|s| - 1 - k]
  {
  }

  /** The outcomes of a history that are successes. */
  ghost function Successes(h: seq<Outcome>): set<nat> {
    set i: nat | i < |h| && h[i].Success?
  }

  lemma {:induction false} OneSampleEach(h: seq<Outcome>)
    ensures |Samples(h)| == |Successes(h)|
  {
    hide SampleOf;
    if |h| == 0 {
      assert Successes(h) == {};
    } else {
      var n, rest := |h| - 1, h[..|h| - 1];
      OneSampleEach(rest);
      assert Successes(h) == Successes(rest) + (if h[n].Success? then {n} else {});
    }
  }

  /** There is one sample for each success, in order, with its time, link counters, memory and
      load. */
  lemma {:induction false} SamplesAreSuccesses(h: seq<Outcome>, i: nat)
    requires i < |h| && h[i].Success?
    ensures |Samples(h)| == |Successes(h)|
    ensures var n, u := |Successes(h[..i])|, h[i].update;
      && n < |Samples(h)| && Samples(h)[n].at == u.at && Samples(h)[n].comm == u.cycle.comm
      && Samples(h)[n].cpu == u.cycle.cpu
      && Samples(h)[n].minFreeBytes == u.cycle.runtimeMemory.minFreeBytes
    decreases |h|
  {
    hide Successes;
    var n, rest := |h| - 1, h[..|h| - 1];
    OneSampleEach(h);
    OneSampleEach(rest);
    if i < n {
      SamplesAreSuccesses(rest, i);
      assert rest[..i] == h[..i];
    }
  }

  /** One event when the two values differ. */
  function IfChanged(at: real, c: Counter, before: nat, after: nat): seq<Event> {
    if before != after then [CounterChanged(at, c, before, after)] else []
  }

  /** The events of a success, in order and by name: the link counters, the watchdog marker, the
      overrun counters, each compared with the success before. */
  lemma ValueEventsAre(b: Stamped, u: Stamped)
    ensures var c, d, o, p := b.cycle.comm, u.cycle.comm, b.cycle.overruns, u.cycle.overruns;
      ValueEvents(Some(b), u)
        == IfChanged(u.at, RxOverflow, c.uartRxOverflow, d.uartRxOverflow)
         + IfChanged(u.at, ParserTimeouts, c.parserTimeouts, d.parserTimeouts)
         + IfChanged(u.at, CrcErrors, c.crcErrors, d.crcErrors)
         + (if u.cycle.watchdog.timeoutMarker == 1 && b.cycle.watchdog.timeoutMarker != 1
            then [MarkerDetected(u.at)] else [])
         + IfChanged(u.at, ActuatorOverruns, o.actuator, p.actuator)
         + IfChanged(u.at, ControlOverruns, o.control, p.control)
         + IfChanged(u.at, SensorSafetyOverruns, o.sensorSafety, p.sensorSafety)
         + IfChanged(u.at, CommunicationOverruns, o.communication, p.communication)
    ensures ValueEvents(None, u)
         == if u.cycle.watchdog.timeoutMarker == 1 then [MarkerDetected(u.at)] else []
  {
    hide Changes, IfChanged;
    var was, now := Counters(b.cycle), Counters(u.cycle);
    FirstThree(was, now, u.at);
    LastFour(was, now, u.at);
    Reassociate(Changes(was, now, u.at, 0, 3), MarkerEvents(Some(b), u),
                IfChanged(u.at, ActuatorOverruns, was[3], now[3]),
                IfChanged(u.at, ControlOverruns, was[4], now[4]),
                IfChanged(u.at, SensorSafetyOverruns, was[5], now[5]),
                IfChanged(u.at, CommunicationOverruns, was[6], now[6]));
  }

  lemma Reassociate<T>(a: seq<T>, m: seq<T>, b: seq<T>, c: seq<T>, d: seq<T>, e: seq<T>)
    ensures a + m + (b + c + d + e) == a + m + b + c + d + e
  {
  }

  lemma FirstThree(was: seq<nat>, now: seq<nat>, at: real)
    requires |was| == |now| == 7
    ensures Changes(was, now, at, 0, 3)
         == IfChanged(at, RxOverflow, was[0], now[0]) + IfChanged(at, ParserTimeouts, was[1], now[1])
          + IfChanged(at, CrcErrors, was[2], now[2])
  {
    hide IfChanged, Changes;
    NoChange(was, now, at, 0);
    OneChange(was, now, at, 0, 1);
    OneChange(was, now, at, 0, 2);
    OneChange(was, now, at, 0, 3);
  }

  lemma LastFour(was: seq<nat>, now: seq<nat>, at: real)
    requires |was| == |now| == 7
    ensures Changes(was, now, at, 3, 7)
         == IfChanged(at, ActuatorOverruns, was[3], now[3])
          + IfChanged(at, ControlOverruns, was[4], now[4])
          + IfChanged(at, SensorSafetyOverruns, was[5], now[5])
          + IfChanged(at, CommunicationOverruns, was[6], now[6])
  {
    hide IfChanged, Changes;
    NoChange(was, now, at, 3);
    OneChange(was, now, at, 3, 4);
    OneChange(was, now, at, 3, 5);
    OneChange(was, now, at, 3, 6);
    OneChange(was, now, at, 3, 7);
  }

  lemma NoChange(was: seq<nat>, now: seq<nat>, at: real, from: nat)
    requires |was| == |now| == 7 && from <= 7
    ensures Changes(was, now, at, from, from) == []
  {
  }

  lemma OneChange(was: seq<nat>, now: seq<nat>, at: real, from: nat, n: nat)
    requires |was| == |now| == 7 && from < n <= 7
    ensures Changes(was, now, at, from, n)
         == Changes(was, now, at, from, n - 1) + IfChanged(at, COUNTERS[n - 1], was[n - 1], now[n - 1])
  {
  }

  /** What an outcome adds to the log: its connection event, and after it the value events of a
      success, compared with the latest success before it. */
  lemma OutcomeIsLogged(h: seq<Outcome>, o: Outcome, stale: real, i: nat)
    ensures o.Failure? ==>
      AllEvents(h + [o], stale) == AllEvents(h, stale) + ConnectionEvents(h, o, stale)
    ensures o.Success? && IsLatest(h, i) ==>
      AllEvents(h + [o], stale) == AllEvents(h, stale)
        + (ConnectionEvents(h, o, stale) + ValueEvents(Some(h[i].update), o.update))
    ensures o.Success? && (forall j :: 0 <= j < |h| ==> h[j].Failure?) ==>
      AllEvents(h + [o], stale) == AllEvents(h, stale)
        + (ConnectionEvents(h, o, stale) + ValueEvents(None, o.update))
  {
    hide AllEvents, ConnectionEvents, ValueEvents, LastSuccess;
    Record(h, o, stale);
    LatestSuccess(h);
    if LastSuccess(h).Some? {
      var k: nat :| IsLatest(h, k) && LastSuccess(h).value == h[k].update;
      assert IsLatest(h, i) ==> i == k;
    }
  }

  /** The connection event of an outcome, if any. A success after anything but a success makes
      one: the first of all is a connection, any other a recovery. A failure makes one when it
      ends CONNECTED, or when the last success has meanwhile grown too old. */
  lemma ConnectionEventIs(h: seq<Outcome>, o: Outcome, stale: real)
    ensures o.Success? ==>
      ConnectionEvents(h, o, stale)
        == (if |h| > 0 && h[|h| - 1].Success? then []
            else if exists i :: 0 <= i < |h| && h[i].Success? then [Recovered(o.update.at)]
            else [ConnectedFirst(o.update.at)])
    ensures o.Failure? ==>
      var before, near := ConnectionOf(h, stale),
          exists i: nat :: IsLatest(h, i) && o.at - h[i].update.at <= stale;
      ConnectionEvents(h, o, stale) ==
        if near && before != Degraded then [LinkDegraded(o.at, BoundedError(o.error))]
        else if !near && before != Disconnected then [LinkLost(o.at, BoundedError(o.error))]
        else []
  {
    hide BoundedError, LastSuccess;
    Record(h, o, stale);
    LatestSuccess(h);
    if LastSuccess(h).Some? {
      var k: nat :| IsLatest(h, k) && LastSuccess(h).value == h[k].update;
      assert forall i: nat :: IsLatest(h, i) ==> i == k;
    }
  }

  /** CONNECTED is shown exactly when the last outcome was a success; DEGRADED exactly when it
      was a failure at most `stale` seconds after a success. */
  lemma ConnectionWhen(h: seq<Outcome>, stale: real)
    ensures var c, n := SnapshotOf(h, stale).connection, |h|;
      && (c == Connected <==> n > 0 && h[n - 1].Success?)
      && (c == Degraded <==> n > 0 && h[n - 1].Failure? && LastSuccess(h).Some?
                             && h[n - 1].at - LastSuccess(h).value.at <= stale)
  {
  }

  predicate IsConnectionEvent(e: Event) {
    e.ConnectedFirst? || e.Recovered? || e.LinkDegraded? || e.LinkLost?
  }

  function CountConnection(events: seq<Event>): nat {
    if |events| == 0 then 0
    else CountConnection(events[..|events| - 1])
         + (if IsConnectionEvent(events[|events| - 1]) then 1 else 0)
  }

  /** How often the connection changed. */
  function ConnectionChanges(h: seq<Outcome>, stale: real): nat {
    if |h| == 0 then 0
    else
      var rest := h[..|h| - 1];
      ConnectionChanges(rest, stale)
        + (if ConnectionOf(h, stale) != ConnectionOf(rest, stale) then 1 else 0)
  }

  lemma {:induction false} CountConcat(a: seq<Event>, b: seq<Event>)
    ensures CountConnection(a + b) == CountConnection(a) + CountConnection(b)
    decreases |b|
  {
    if |b| == 0 {
      assert a + b == a;
    } else {
      assert (a + b)[..|a + b| - 1] == a + b[..|b| - 1];
      CountConcat(a, b[..|b| - 1]);
    }
  }

  lemma {:induction false} NoConnectionInChanges(before: seq<nat>, after: seq<nat>, at: real,
                                                 from: nat, n: nat)
    requires from <= n <= |before| == |after| == 7
    ensures CountConnection(Changes(before, after, at, from, n)) == 0
    decreases n
  {
    if n > from {
      NoConnectionInChanges(before, after, at, from, n - 1);
      CountConcat(Changes(before, after, at, from, n - 1),
                  if before[n - 1] != after[n - 1]
                  then [CounterChanged(at, COUNTERS[n - 1], before[n - 1], after[n - 1])] else []);
    }
  }

  lemma NoConnectionInValues(before: Option<Stamped>, u: Stamped)
    ensures CountConnection(ValueEvents(before, u)) == 0
  {
    var marker := MarkerEvents(before, u);
    assert CountConnection(marker) == 0;
    if before.Some? {
      var was, now := Counters(before.value.cycle), Counters(u.cycle);
      var a, b := Changes(was, now, u.at, 0, 3), Changes(was, now, u.at, 3, 7);
      NoConnectionInChanges(was, now, u.at, 0, 3);
      NoConnectionInChanges(was, now, u.at, 3, 7);
      CountConcat(a, marker);
      CountConcat(a + marker, b);
    }
  }

  /** The log holds exactly one connection event for every change of the connection. */
  lemma {:induction false} OneEventPerChange(h: seq<Outcome>, stale: real)
    ensures CountConnection(AllEvents(h, stale)) == ConnectionChanges(h, stale)
  {
    hide NewEvents, ConnectionOf, CountConnection;
    if |h| == 0 {
      NothingCounted();
    } else {
      var rest, o := h[..|h| - 1], h[|h| - 1];
      OneEventPerChange(rest, stale);
      assert rest + [o] == h;
      OneOutcome(rest, o, stale);
      CountConcat(AllEvents(rest, stale), NewEvents(rest, o, stale));
    }
  }

  lemma NothingCounted()
    ensures CountConnection([]) == 0
  {
  }

  lemma OneOutcome(h: seq<Outcome>, o: Outcome, stale: real)
    ensures CountConnection(NewEvents(h, o, stale))
         == if ConnectionOf(h + [o], stale) != ConnectionOf(h, stale) then 1 else 0
  {
    hide ValueEvents, ConnectionOf, LastSuccess;
    var connection := ConnectionEvents(h, o, stale);
    var values := if o.Success? then ValueEvents(LastSuccess(h), o.update) else [];
    if o.Success? {
      NoConnectionInValues(LastSuccess(h), o.update);
    }
    CountConcat(connection, values);
  }
}
