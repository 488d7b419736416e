/** `DashboardPoller` of supervisor/dashboard.py: one polling cycle over the serial link, and
    the times at which cycles start. */
module Poller {
  import opened Bytes
  import opened Frames
  import opened Slots
  import opened Status
  import opened HostLink
  import opened Dashboard

  datatype PollError =
    | Link(cause: LinkError)
    | UnexpectedType
    | UnexpectedSequence
    | Undecodable(reason: ProtocolError)

  /** The status kinds of a cycle, in request order. */
  const CYCLE := 7

  function KindAt(i: nat): Kind
    requires i < CYCLE
  {
    if i == 6 then 7 else i
  }

  function Request(i: nat, first: Octet): WireFrame
    requires i < CYCLE
  {
    Frame(RequestType(KindAt(i)), (first + i) % 256, [])
  }

  function Requests(n: nat, first: Octet): (r: seq<WireFrame>)
    requires n <= CYCLE
    ensures |r| == n
  {
    seq(n, i requires 0 <= i < n => Request(i, first))
  }

  /** Seven reports of the right kinds, as the firmware may send them. */
  predicate IsAnswer(reports: seq<Report>) {
    && |reports| == CYCLE
    && forall i :: 0 <= i < CYCLE ==> KindOf(reports[i]) == KindAt(i) && FitsC(reports[i])
  }

  function Answers(reports: seq<Report>, first: Octet): (r: seq<WireFrame>)
    requires IsAnswer(reports)
    ensures |r| == CYCLE
  {
    seq(CYCLE, i requires 0 <= i < CYCLE => Response(reports[i], (first + i) % 256))
  }

  /** What `_request` makes of the answer that it reads. */
  function Judge(k: Kind, sequence: Octet, answer: Result<Frame, LinkError>): Result<Report, PollError> {
    match answer
    case Err(e) => Err(Link(e))
    case Ok(f) =>
      if f.frameType != ResponseType(k) then Err(UnexpectedType)
      else if f.sequence != sequence then Err(UnexpectedSequence)
      else match Decode(k, f)
        case Ok(report) => Ok(report)
        case Err(e) => Err(Undecodable(e))
  }

  lemma JudgedKind(k: Kind, sequence: Octet, answer: Result<Frame, LinkError>)
    ensures Judge(k, sequence, answer).Ok? ==> KindOf(Judge(k, sequence, answer).value) == k
  {
  }

  /** An answer is accepted exactly when it is the frame that the firmware makes of the report,
      with the sequence number of the request; a wrong type is reported before a wrong sequence
      number, and that before a wrong payload. */
  lemma AcceptedWhen(k: Kind, sequence: Octet, f: WireFrame, report: Report)
    ensures var r, t := Judge(k, sequence, Ok(f)), if k == 7 then 0x8B else 0x83 + k;
      && (r == Ok(report) <==>
            && FitsC(report) && KindOf(report) == k && AsSeenByHost(report) == report
            && f == Response(report, sequence))
      && (r == Err(UnexpectedType) <==> f.frameType != t)
      && (r == Err(UnexpectedSequence) <==> f.frameType == t && f.sequence != sequence)
  {
    hide Decode, Payload, FitsC;
    DecodedIsReport(k, f, report);
  }

  /** The requests of a cycle: types 0x03 to 0x08 and 0x0B, without payload, with consecutive
      sequence numbers. */
  lemma RequestsAre(first: Octet, i: nat)
    ensures |Requests(7, first)| == 7
    ensures i < 7 ==>
      Requests(7, first)[i]
        == Frame([0x03, 0x04, 0x05, 0x06, 0x07, 0x08, 0x0B][i], (first + i) % 256, [])
  {
  }

  /** The firmware's answer to this request is accepted, with the values that were sent. */
  lemma AnswerIsAccepted(report: Report, sequence: Octet)
    requires FitsC(report)
    ensures var k := KindOf(report);
      Judge(k, sequence, Ok(Response(report, sequence))) == Ok(AsSeenByHost(report))
  {
    hide Decode, Payload, FitsC;
    ReportRoundTrip(report, sequence);
  }

  /** What is left of a stream that starts with the answers of a cycle, after `n` of them. */
  ghost predicate Remains(stream: seq<Octet>, reports: seq<Report>, first: Octet, n: nat,
                          rest: seq<Octet>)
    requires IsAnswer(reports) && n <= CYCLE
  {
    stream == EncodeAll(Answers(reports, first)[n..]) + rest
  }

  lemma NextAnswer(stream: seq<Octet>, reports: seq<Report>, first: Octet, n: nat, rest: seq<Octet>)
    requires IsAnswer(reports) && n < CYCLE && Remains(stream, reports, first, n, rest)
    ensures var sequence, s := (first + n) % 256, Spelled(stream);
      && Judge(KindAt(n), sequence, s.0) == Ok(AsSeenByHost(reports[n]))
      && s.1 <= |stream| && Remains(stream[s.1..], reports, first, n + 1, rest)
  {
    hide Encode, Spelled, Judge, AsSeenByHost, FitsC, Payload;
    var frames := Answers(reports, first)[n..];
    assert frames[1..] == Answers(reports, first)[n + 1..];
    var later := EncodeAll(frames[1..]) + rest;
    assert stream == Encode(frames[0]) + later;
    SpelledFrame(frames[0], later);
    AnswerIsAccepted(reports[n], (first + n) % 256);
  }

  lemma NextIsSpelled(stream: seq<Octet>, reports: seq<Report>, first: Octet, n: nat, rest: seq<Octet>)
    requires IsAnswer(reports) && n < CYCLE && Remains(stream, reports, first, n, rest)
    ensures var frames := Answers(reports, first)[n..];
      && Spelled(stream) == (Ok(frames[0]), |Encode(frames[0])|)
      && |EncodeAll(frames)| == |Encode(frames[0])| + |EncodeAll(Answers(reports, first)[n + 1..])|
  {
    hide Encode, Spelled, FitsC, Payload;
    var frames := Answers(reports, first)[n..];
    assert frames[1..] == Answers(reports, first)[n + 1..];
    var later := EncodeAll(frames[1..]) + rest;
    assert stream == Encode(frames[0]) + later;
    SpelledFrame(frames[0], later);
  }

  /** Reading the next answer: it is accepted or the read times out, and it does not time out
      when there are enough productive chunks for all that remains. */
  lemma NextReading(turns: seq<Turn>, stream: seq<Octet>, reports: seq<Report>, first: Octet, n: nat,
                    rest: seq<Octet>)
    requires IsAnswer(reports) && n < CYCLE && Remains(stream, reports, first, n, rest)
    ensures var reading, answers := ReadFrame(turns, stream), Answers(reports, first);
      var verdict := Judge(KindAt(n), (first + n) % 256, reading.result);
      && (verdict == Ok(AsSeenByHost(reports[n])) || verdict == Err(Link(TimedOut)))
      && (verdict.Ok? ==> Remains(stream[reading.taken..], reports, first, n + 1, rest))
      && (Productive(turns) >= |EncodeAll(answers[n..])| ==>
            verdict.Ok? && Productive(reading.left) >= |EncodeAll(answers[n + 1..])|)
  {
    hide Encode, EncodeAll, Decode, Spelled, Remains, IsAnswer, AsSeenByHost, ReadFrame, Productive, Answers;
    NextAnswer(stream, reports, first, n, rest);
    NextIsSpelled(stream, reports, first, n, rest);
    ChunksDoNotMatter(turns, stream);
    if Productive(turns) >= |EncodeAll(Answers(reports, first)[n..])| {
      ReadSucceeds(turns, stream);
    }
  }

  lemma RequestFits(writes: seq<nat>, request: seq<Octet>)
    ensures TakenBy(writes, |request|) == |request| ==> request[..TakenBy(writes, |request|)] == request
    ensures |writes| == 0 || writes[0] >= |request| ==> TakenBy(writes, |request|) == |request|
  {
  }

  /** At least one request has been made, each with the next sequence number, and all but the
      last have been written whole. */
  ghost predicate WereMade(before: seq<Octet>, after: seq<Octet>, first: Octet, next: Octet, made: nat) {
    && 1 <= made <= CYCLE && next == (first + made) % 256
    && before + EncodeAll(Requests(made - 1, first)) <= after
    && after <= before + EncodeAll(Requests(made, first))
  }

  lemma WrittenSoFar(start: seq<Octet>, n: nat, first: Octet)
    requires n < CYCLE
    ensures start + EncodeAll(Requests(n + 1, first))
         == start + EncodeAll(Requests(n, first)) + Encode(Request(n, first))
  {
    hide Encode;
    assert Requests(n + 1, first) == Requests(n, first) + [Request(n, first)];
    EncodeAllAppend(Requests(n, first), Request(n, first));
  }

  /** A cycle from its reports in request order. */
  function ToCycle(reports: seq<Report>): Cycle
    requires |reports| == CYCLE && forall i :: 0 <= i < CYCLE ==> KindOf(reports[i]) == KindAt(i)
  {
    var r := reports;
    assert forall i :: 0 <= i < CYCLE ==> KindOf(r[i]) == KindAt(i);
    assert KindOf(r[0]) == 0 && KindOf(r[1]) == 1 && KindOf(r[2]) == 2 && KindOf(r[3]) == 3;
    assert KindOf(r[4]) == 4 && KindOf(r[5]) == 5 && KindOf(r[6]) == 7;
    Cycle(r[0], r[1], r[2], r[3], r[4], r[5], r[6])
  }

  function SeenByHost(reports: seq<Report>): (r: seq<Report>)
    requires IsAnswer(reports)
    ensures |r| == CYCLE && forall i :: 0 <= i < CYCLE ==> KindOf(r[i]) == KindAt(i)
    ensures forall i :: 0 <= i < CYCLE ==> r[i] == AsSeenByHost(reports[i])
  {
    seq(CYCLE, i requires 0 <= i < CYCLE => AsSeenByHost(reports[i]))
  }

  /** A cycle: when it started and ended on the monotonic clock, whether it succeeded, the time
      set for the next, what reached the store, and the requests made: how many, from which
      sequence number on, and what was written of them. */
  datatype Polled = Polled(start: real, end: real, ok: bool, next: real, recorded: seq<Outcome>,
                           first: Octet, made: nat, sent: seq<Octet>)

  /** A cycle succeeded exactly when it recorded one success; otherwise it recorded one or two
      failures. */
  predicate IsRecorded(c: Polled) {
    if c.ok then |c.recorded| == 1 && c.recorded[0].Success?
    else 1 <= |c.recorded| <= 2 && forall o :: o in c.recorded ==> o.Failure?
  }

  function AllRecorded(cycles: seq<Polled>): seq<Outcome> {
    if |cycles| == 0 then []
    else AllRecorded(cycles[..|cycles| - 1]) + cycles[|cycles| - 1].recorded
  }

  /** The store has received what the cycles recorded, in order, after `before`. */
  ghost predicate StoreHolds(outcomes: seq<Outcome>, before: seq<Outcome>, cycles: seq<Polled>) {
    outcomes == before + AllRecorded(cycles) && forall c :: c in cycles ==> IsRecorded(c)
  }

  /** A cycle has written its requests, all seven if it succeeded. */
  ghost predicate IsSpoken(c: Polled) {
    && WereMade([], c.sent, c.first, (c.first + c.made) % 256, c.made)
    && (c.ok ==> c.made == 7 && c.sent == EncodeAll(Requests(7, c.first)))
  }

  function AllWritten(cycles: seq<Polled>): seq<Octet> {
    if |cycles| == 0 then []
    else AllWritten(cycles[..|cycles| - 1]) + cycles[|cycles| - 1].sent
  }

  /** The first sequence number of cycle `i`. */
  function FirstOf(initial: Octet, cycles: seq<Polled>, i: nat): Octet
    requires i <= |cycles|
  {
    if i == 0 then initial else (cycles[i - 1].first + cycles[i - 1].made) % 256
  }

  /** The line has carried what the cycles wrote, in order, after `before`, with sequence numbers
      that run on from `initial`. */
  ghost predicate LineHolds(outgoing: seq<Octet>, before: seq<Octet>, sequence: Octet,
                            initial: Octet, cycles: seq<Polled>)
  {
    && outgoing == before + AllWritten(cycles) && sequence == FirstOf(initial, cycles, |cycles|)
    && forall i :: 0 <= i < |cycles| ==>
         IsSpoken(cycles[i]) && cycles[i].first == FirstOf(initial, cycles, i)
  }

  lemma NothingWritten(before: seq<Octet>, initial: Octet)
    ensures LineHolds(before, before, initial, initial, [])
  {
  }

  lemma OneMoreWritten(outgoing: seq<Octet>, before: seq<Octet>, sequence: Octet, initial: Octet,
                       cycles: seq<Polled>, c: Polled, next: Octet)
    requires LineHolds(outgoing, before, sequence, initial, cycles)
    requires IsSpoken(c) && c.first == sequence
    requires next == FirstOf(initial, cycles + [c], |cycles| + 1)
    ensures LineHolds(outgoing + c.sent, before, next, initial, cycles + [c])
  {
    hide IsSpoken, FirstOf;
    var longer := cycles + [c];
    assert longer[..|cycles|] == cycles;
    assert AllWritten(longer) == AllWritten(cycles) + c.sent;
    hide AllWritten;
    forall i | 0 <= i < |longer|
      ensures IsSpoken(longer[i]) && longer[i].first == FirstOf(initial, longer, i)
    {
      FirstOfPart(initial, cycles, c, i);
      assert i < |cycles| ==> longer[i] == cycles[i];
    }
  }

  lemma FirstOfPart(initial: Octet, cycles: seq<Polled>, c: Polled, i: nat)
    requires i <= |cycles|
    ensures FirstOf(initial, cycles + [c], i) == FirstOf(initial, cycles, i)
  {
  }

  lemma FirstOfLast(initial: Octet, cycles: seq<Polled>, c: Polled)
    ensures FirstOf(initial, cycles + [c], |cycles| + 1) == (c.first + c.made) % 256
  {
  }

  lemma NextIs(before: seq<Octet>, after: seq<Octet>, first: Octet, next: Octet, made: nat)
    requires WereMade(before, after, first, next, made)
    ensures next == (first + made) % 256
  {
  }

  /** What was written of the requests of a cycle. */
  lemma WrittenOf(before: seq<Octet>, after: seq<Octet>, first: Octet, next: Octet, made: nat)
    requires WereMade(before, after, first, next, made)
    ensures before <= after && WereMade([], after[|before|..], first, next, made)
    ensures after == before + EncodeAll(Requests(CYCLE, first)) ==>
      after[|before|..] == EncodeAll(Requests(CYCLE, first))
  {
    hide EncodeAll, Requests;
    var sent := after[|before|..];
    assert after[..|before|] == before && after == before + sent;
    var less, more := EncodeAll(Requests(made - 1, first)), EncodeAll(Requests(made, first));
    assert (before + less)[..|before|] == before;
    assert sent[..|less|] == after[|before|..|before| + |less|] == less;
    assert (before + more)[|before|..|after|] == sent;
  }

  lemma OneMoreRecord(outcomes: seq<Outcome>, before: seq<Outcome>, cycles: seq<Polled>, c: Polled)
    requires StoreHolds(outcomes, before, cycles) && IsRecorded(c)
    ensures StoreHolds(outcomes + c.recorded, before, cycles + [c])
  {
    hide IsRecorded;
    assert (cycles + [c])[..|cycles|] == cycles;
  }

  class DashboardPoller {
    const link: SerialLink
    const store: DashboardStore
    const interval: real
    const timeout: real
    var sequence: Octet

    /** `time.monotonic()`, and `time.time()`. */
    var clock: real
    var epoch: real
    var nextCycleAt: real
    /** What the coming looks at the stop event find; after these nobody stops the thread. */
    var stops: seq<bool>
    ghost var cycles: seq<Polled>

    /** `DashboardPoller.__init__`; it refuses other intervals and timeouts. */
    constructor (link: SerialLink, store: DashboardStore, interval: real, timeout: real,
                 stops: seq<bool>)
      requires interval > 0.0 && timeout > 0.0
      ensures this.link == link && this.store == store && sequence == 0x90 && cycles == []
      ensures this.interval == interval && this.timeout == timeout && this.stops == stops
    {
      this.link, this.store, this.interval, this.timeout := link, store, interval, timeout;
      sequence, clock, epoch, nextCycleAt, cycles := 0x90, 0.0, 0.0, 0.0, [];
      this.stops := stops;
    }

    /** `_request`: one request written and one frame read and judged, or the link's error. */
    method RequestOne(k: Kind) returns (r: Result<Report, PollError>)
      requires timeout > 0.0
      modifies `sequence, link`outgoing, link`writes, link`incoming, link`turns
      ensures sequence == (old(sequence) + 1) % 256
      ensures r.Ok? ==> KindOf(r.value) == k
      ensures !link.isOpen ==> r == Err(Link(NotOpen)) && link.outgoing == old(link.outgoing)
      ensures link.isOpen ==>
        var request := Encode(Frame(RequestType(k), old(sequence), []));
        var taken := TakenBy(old(link.writes), |request|);
        && link.outgoing == old(link.outgoing) + request[..taken]
        && link.writes == (if |old(link.writes)| == 0 then [] else old(link.writes)[1..])
        && (taken < |request| ==> r == Err(Link(PartialWrite))
                                  && link.incoming == old(link.incoming) && link.turns == old(link.turns))
        && (taken == |request| ==>
              var reading := ReadFrame(old(link.turns), old(link.incoming));
              && r == Judge(k, old(sequence), reading.result)
              && link.incoming == old(link.incoming)[reading.taken..] && link.turns == reading.left)
    {
      hide Encode, Decode, ReadFrame;
      var mine := sequence;
      sequence := (sequence + 1) % 256;
      var request := Encode(Frame(RequestType(k), mine, []));
      var written := link.Write(request);
      if written.Err? {
        return Err(Link(written.error));
      }
      var response := link.ReadProtocolFrame(timeout);
      JudgedKind(k, mine, response);
      r := Judge(k, mine, response);
    }

    /** The link is open, the stream holds the rest of the answers after `n`, the coming writes
        take their requests, and enough productive chunks come before a deadline. */
    ghost predicate IsServed(reports: seq<Report>, first: Octet, n: nat, rest: seq<Octet>)
      requires IsAnswer(reports) && n <= CYCLE
      reads link
    {
      && link.isOpen && Remains(link.incoming, reports, first, n, rest)
      && (forall i :: 0 <= i < |link.writes| && i < CYCLE - n ==> link.writes[i] >= OVERHEAD)
      && Productive(link.turns) >= |EncodeAll(Answers(reports, first)[n..])|
    }

    /** Request `n` of a cycle whose first sequence number is `first`. When the link serves the
        answers `reports`, the report is theirs. */
    method RequestNext(n: nat, ghost first: Octet, ghost reports: seq<Report>, ghost rest: seq<Octet>,
                       ghost start: seq<Octet>) returns (r: Result<Report, PollError>)
      requires timeout > 0.0 && n < CYCLE && IsAnswer(reports) && sequence == (first + n) % 256
      requires link.outgoing == start + EncodeAll(Requests(n, first))
      modifies `sequence, link`outgoing, link`writes, link`incoming, link`turns
      ensures sequence == (first + n + 1) % 256
      ensures r.Ok? ==> KindOf(r.value) == KindAt(n)
                        && link.outgoing == start + EncodeAll(Requests(n + 1, first))
      ensures old(link.outgoing) <= link.outgoing <= start + EncodeAll(Requests(n + 1, first))
      ensures link.isOpen && Remains(old(link.incoming), reports, first, n, rest) ==>
        if r.Ok? then r.value == AsSeenByHost(reports[n])
                      && Remains(link.incoming, reports, first, n + 1, rest)
        else r.error == Link(TimedOut) || r.error == Link(PartialWrite)
      ensures old(IsServed(reports, first, n, rest)) ==>
        r.Ok? && IsServed(reports, first, n + 1, rest)
    {
      hide Encode, EncodeAll, Judge, Remains, IsAnswer, Answers, Requests, AsSeenByHost, ReadFrame,
        Productive, TakenBy;
      if link.isOpen && Remains(link.incoming, reports, first, n, rest) {
        NextReading(link.turns, link.incoming, reports, first, n, rest);
      }
      RequestFits(link.writes, Encode(Request(n, first)));
      var k: Kind := if n == 6 then 7 else n;
      WrittenSoFar(start, n, first);
      r := RequestOne(k);
    }

    /** The `try` block of `poll_once`: seven requests in order, up to the first failure. */
    method RequestAll(ghost reports: seq<Report>, ghost rest: seq<Octet>)
      returns (r: Result<Cycle, PollError>, ghost made: nat)
      requires timeout > 0.0 && IsAnswer(reports)
      modifies `sequence, link`outgoing, link`writes, link`incoming, link`turns
      ensures WereMade(old(link.outgoing), link.outgoing, old(sequence), sequence, made)
      ensures r.Ok? ==> made == CYCLE
      ensures r.Ok? ==>
        link.outgoing == old(link.outgoing) + EncodeAll(Requests(CYCLE, old(sequence)))
      ensures link.isOpen && Remains(old(link.incoming), reports, old(sequence), 0, rest) ==>
        if r.Ok? then r.value == ToCycle(SeenByHost(reports)) && link.incoming == rest
        else r.error == Link(TimedOut) || r.error == Link(PartialWrite)
      ensures old(IsServed(reports, sequence, 0, rest)) ==> r.Ok?
    {
      hide Encode, EncodeAll, Remains, IsAnswer, AsSeenByHost, Requests, Answers, IsServed;
      ghost var first, start := sequence, link.outgoing;
      made := 0;
      NoneYet(first, start);
      var comm := RequestNext(0, first, reports, rest, start);
      made := 1;
      if comm.Err? { return Err(comm.error), made; }
      var timing := RequestNext(1, first, reports, rest, start);
      made := 2;
      if timing.Err? { return Err(timing.error), made; }
      var jitter := RequestNext(2, first, reports, rest, start);
      made := 3;
      if jitter.Err? { return Err(jitter.error), made; }
      var runtimeMemory := RequestNext(3, first, reports, rest, start);
      made := 4;
      if runtimeMemory.Err? { return Err(runtimeMemory.error), made; }
      var cpu := RequestNext(4, first, reports, rest, start);
      made := 5;
      if cpu.Err? { return Err(cpu.error), made; }
      var overruns := RequestNext(5, first, reports, rest, start);
      made := 6;
      if overruns.Err? { return Err(overruns.error), made; }
      var watchdog := RequestNext(6, first, reports, rest, start);
      made := 7;
      if watchdog.Err? { return Err(watchdog.error), made; }
      AllRead(link.incoming, reports, first, rest);
      r := Ok(Cycle(comm.value, timing.value, jitter.value, runtimeMemory.value, cpu.value,
                    overruns.value, watchdog.value));
    }

    /** `poll_once`: a whole cycle is recorded, or one failure, or two when the receive side
        could not be recovered after a timeout; nothing else reaches the store. When the link
        serves right answers, the cycle succeeds with their reports. */
    method PollOnce(ghost reports: seq<Report>, ghost rest: seq<Octet>)
      returns (succeeded: bool, ghost recorded: seq<Outcome>, ghost made: nat,
               ghost why: Option<PollError>)
      requires timeout > 0.0 && IsAnswer(reports) && store.Valid()
      modifies `sequence, `clock, `epoch, link, store
      ensures store.Valid() && store.outcomes == old(store.outcomes) + recorded
      ensures clock >= old(clock)
      ensures succeeded ==> |recorded| == 1 && recorded[0].Success?
      ensures !succeeded ==> 1 <= |recorded| <= 2 && forall o :: o in recorded ==> o.Failure?
      // A recovery is tried once after a timeout, and then only; a second failure tells that it
      // could not be done.
      ensures succeeded <==> why.None?
      ensures why.Some? ==> recorded[0].error == Describe(why.value)
      ensures why != Some(Link(TimedOut)) ==>
        link.recoveries == old(link.recoveries) && |recorded| == 1
      ensures why == Some(Link(TimedOut)) ==>
        && link.recoveries == old(link.recoveries) + [|recorded| == 1]
        && (|recorded| == 2 ==> recorded[1].error == recorded[0].error + "; RX recovery failed")
      ensures WereMade(old(link.outgoing), link.outgoing, old(sequence), sequence, made)
      ensures succeeded ==> made == CYCLE
      ensures succeeded ==>
        link.outgoing == old(link.outgoing) + EncodeAll(Requests(CYCLE, old(sequence)))
      ensures old(link.isOpen) && Remains(old(link.incoming), reports, old(sequence), 0, rest)
              && succeeded ==>
                recorded[0].update.cycle == ToCycle(SeenByHost(reports)) && link.incoming == rest
      ensures old(IsServed(reports, sequence, 0, rest)) ==> succeeded
    {
      hide DashboardStore.Valid, EncodeAll, Remains, IsAnswer, ToCycle, Requests, IsServed, WereMade;
      hide Describe, Shows;
      var r;
      r, made := RequestAll(reports, rest);
      TimePasses();
      if r.Ok? {
        store.RecordSuccess(r.value, epoch);
        return true, [Success(Stamped(r.value, epoch))], made, None;
      }
      recorded := GiveUp(r.error);
      succeeded, why := false, Some(r.error);
    }

    /** The `except` branches of `poll_once`. */
    method GiveUp(error: PollError) returns (ghost recorded: seq<Outcome>)
      requires store.Valid()
      modifies `clock, `epoch, link`incoming, link`recoveries, link`flushes, store
      ensures store.Valid() && store.outcomes == old(store.outcomes) + recorded
      ensures clock >= old(clock)
      ensures 1 <= |recorded| <= 2 && forall o :: o in recorded ==> o.Failure?
      ensures recorded[0].error == Describe(error)
      ensures error != Link(TimedOut) ==>
        && link.recoveries == old(link.recoveries) && link.incoming == old(link.incoming)
        && |recorded| == 1
      ensures error == Link(TimedOut) ==>
        && link.recoveries == old(link.recoveries) + [|recorded| == 1]
        && (|recorded| == 2 ==> recorded[1].error == recorded[0].error + "; RX recovery failed")
    {
      hide DashboardStore.Valid, BoundedError;
      var message := Describe(error);
      store.RecordFailure(message, epoch);
      recorded := [Failure(message, epoch)];
      if error == Link(TimedOut) {
        ghost var more := Recover(message);
        recorded := recorded + more;
      }
    }

    /** The recovery after a timeout; if it fails, that is recorded too. */
    method Recover(message: string) returns (ghost recorded: seq<Outcome>)
      requires store.Valid()
      modifies `clock, `epoch, link`incoming, link`recoveries, link`flushes, store
      ensures store.Valid() && store.outcomes == old(store.outcomes) + recorded
      ensures clock >= old(clock) && |recorded| <= 1
      ensures link.recoveries == old(link.recoveries) + [|recorded| == 0]
      ensures |recorded| == 1 ==>
        recorded[0].Failure? && recorded[0].error == message + "; RX recovery failed"
    {
      hide DashboardStore.Valid, BoundedError;
      var recovered := link.RecoverRxAfterTimeout();
      TimePasses();
      recorded := [];
      if recovered.Err? {
        store.RecordFailure(message + "; RX recovery failed", epoch);
        recorded := [Failure(message + "; RX recovery failed", epoch)];
      }
    }

    /** The monotonic clock never goes back; the other clock may. */
    method TimePasses()
      modifies `clock, `epoch
      ensures clock >= old(clock)
    {
      var d: real, e: real := *, *;
      clock := if d > 0.0 then clock + d else clock;
      epoch := e;
    }

    /** `Event.is_set`. */
    method IsStopped() returns (stopped: bool)
      modifies `stops
      ensures stopped ==> true in old(stops)
      ensures stops == if old(stops) == [] then [] else old(stops)[1..]
      ensures stopped == (old(stops) != [] && old(stops)[0])
    {
      stopped := stops != [] && stops[0];
      if stops != [] {
        stops := stops[1..];
      }
    }

    /** `Event.wait`: it returns true as soon as a stop is asked for, and otherwise not early. */
    method Wait(seconds: real) returns (stopped: bool)
      modifies `clock, `epoch, `stops
      ensures clock >= old(clock) && (!stopped ==> clock >= old(clock) + seconds)
      ensures stopped ==> true in old(stops)
      ensures stops == if old(stops) == [] then [] else old(stops)[1..]
    {
      stopped := IsStopped();
      TimePasses();
      if !stopped && seconds > 0.0 {
        clock := clock + seconds;
      }
    }

    /** `run`, for `turns` cycles unless a stop is asked for before. */
    method Run(turns: nat, ghost reports: seq<Report>) returns (ghost first: real)
      requires interval > 0.0 && timeout > 0.0 && IsAnswer(reports) && store.Valid() && cycles == []
      modifies this, link, store
      ensures store.Valid() && OnSchedule(first, interval, cycles)
      ensures StoreHolds(store.outcomes, old(store.outcomes), cycles)
      ensures LineHolds(link.outgoing, old(link.outgoing), sequence, old(sequence), cycles)
      ensures |cycles| <= turns && (true !in old(stops) ==> |cycles| == turns)
    {
      hide DashboardStore.Valid, IsAnswer, StoreHolds, LineHolds;
      NothingRecorded(store.outcomes);
      NothingWritten(link.outgoing, sequence);
      TimePasses();
      nextCycleAt := clock;
      first := nextCycleAt;
      for turn := 0 to turns
        invariant store.Valid() && OnSchedule(first, interval, cycles)
        invariant nextCycleAt == Due(first, cycles, |cycles|)
        invariant StoreHolds(store.outcomes, old(store.outcomes), cycles)
        invariant LineHolds(link.outgoing, old(link.outgoing), sequence, old(sequence), cycles)
        invariant |cycles| == turn && (true in stops ==> true in old(stops))
      {
        var stop := IsStopped();
        if stop {
          break;
        }
        TimePasses();
        var remaining := if nextCycleAt - clock > 0.0 then nextCycleAt - clock else 0.0;
        if remaining > 0.0 {
          var stopped := Wait(remaining);
          if stopped {
            break;
          }
        }
        stop := IsStopped();
        if stop {
          break;
        }
        PollAndPlan(reports, first, old(store.outcomes), old(link.outgoing), old(sequence));
      }
    }

    /** The rest of the loop body: one cycle, and the time of the next. */
    method PollAndPlan(ghost reports: seq<Report>, ghost first: real, ghost before: seq<Outcome>,
                       ghost wrote: seq<Octet>, ghost initial: Octet)
      requires interval > 0.0 && timeout > 0.0 && IsAnswer(reports) && store.Valid()
      requires OnSchedule(first, interval, cycles) && StoreHolds(store.outcomes, before, cycles)
      requires nextCycleAt == Due(first, cycles, |cycles|) && clock >= nextCycleAt
      requires LineHolds(link.outgoing, wrote, sequence, initial, cycles)
      modifies this, link, store
      ensures store.Valid() && OnSchedule(first, interval, cycles)
      ensures StoreHolds(store.outcomes, before, cycles)
      ensures LineHolds(link.outgoing, wrote, sequence, initial, cycles)
      ensures nextCycleAt == Due(first, cycles, |cycles|)
      ensures |cycles| == |old(cycles)| + 1 && old(cycles) < cycles && stops == old(stops)
      ensures old(IsServed(reports, sequence, 0, [])) ==> cycles[|old(cycles)|].ok
    {
      hide DashboardStore.Valid, IsAnswer, EncodeAll, Remains, Requests, ToCycle, SeenByHost;
      hide OnSchedule, StoreHolds, LineHolds, WereMade, IsServed;
      ghost var start := clock;
      ghost var recorded, made;
      var succeeded;
      ghost var why;
      succeeded, recorded, made, why := PollOnce(reports, []);
      TimePasses();
      var now := clock;
      if succeeded {
        nextCycleAt := nextCycleAt + interval;
        if nextCycleAt <= now {
          nextCycleAt := now + interval;
        }
      } else {
        nextCycleAt := now + interval;
      }
      WrittenOf(old(link.outgoing), link.outgoing, old(sequence), sequence, made);
      NextIs(old(link.outgoing), link.outgoing, old(sequence), sequence, made);
      ghost var sent := link.outgoing[|old(link.outgoing)|..];
      ghost var cycle := Polled(start, now, succeeded, nextCycleAt, recorded, old(sequence), made, sent);
      assert link.outgoing == old(link.outgoing) + sent;
      OneMoreCycle(first, interval, cycles, cycle);
      OneMoreRecord(old(store.outcomes), before, cycles, cycle);
      FirstOfLast(initial, cycles, cycle);
      OneMoreWritten(old(link.outgoing), wrote, old(sequence), initial, cycles, cycle, sequence);
      cycles := cycles + [cycle];
    }
  }

  lemma NothingRecorded(outcomes: seq<Outcome>)
    ensures StoreHolds(outcomes, outcomes, [])
  {
  }

  function Describe(e: PollError): string {
    if e == Link(TimedOut) then "SerialTimeoutError" else "error"
  }

  /** The time that was set for cycle `i`. */
  function Due(first: real, cycles: seq<Polled>, i: nat): real
    requires i <= |cycles|
  {
    if i == 0 then first else cycles[i - 1].next
  }

  /** No cycle starts before its time; the next time lies after the end of the cycle and at
      least an interval after its own time; it is exactly an interval later while cycles keep
      up, and a whole interval after the end of a cycle that failed or overran. */
  ghost predicate OnSchedule(first: real, interval: real, cycles: seq<Polled>) {
    forall i :: 0 <= i < |cycles| ==> KeepsTime(Due(first, cycles, i), interval, cycles[i])
  }

  predicate KeepsTime(due: real, interval: real, c: Polled) {
    && due <= c.start <= c.end < c.next && c.next >= due + interval
    && c.next == (if c.ok && due + interval > c.end then due + interval else c.end + interval)
  }

  lemma OneMoreCycle(first: real, interval: real, cycles: seq<Polled>, c: Polled)
    requires OnSchedule(first, interval, cycles)
    requires KeepsTime(Due(first, cycles, |cycles|), interval, c)
    ensures OnSchedule(first, interval, cycles + [c])
  {
  }

  /** `n` intervals. */
  function Intervals(n: nat, interval: real): real {
    if n == 0 then 0.0 else Intervals(n - 1, interval) + interval
  }

  /** While cycles succeed within their interval there is no drift. */
  lemma {:induction false} NoDrift(first: real, interval: real, cycles: seq<Polled>, n: nat)
    requires OnSchedule(first, interval, cycles) && n <= |cycles|
    requires forall i: nat :: i < n ==>
      cycles[i].ok && cycles[i].end < Due(first, cycles, i) + interval
    ensures Due(first, cycles, n) == first + Intervals(n, interval)
  {
    if n > 0 {
      NoDrift(first, interval, cycles, n - 1);
      assert KeepsTime(Due(first, cycles, n - 1), interval, cycles[n - 1]);
    }
  }

  /** After a failed cycle the line is quiet for a whole interval. */
  lemma QuietAfterFailure(first: real, interval: real, cycles: seq<Polled>, i: nat)
    requires OnSchedule(first, interval, cycles) && i + 1 < |cycles| && !cycles[i].ok
    ensures cycles[i + 1].start >= cycles[i].end + interval
  {
    assert KeepsTime(Due(first, cycles, i), interval, cycles[i]);
    assert KeepsTime(Due(first, cycles, i + 1), interval, cycles[i + 1]);
  }

  lemma NoneYet(first: Octet, start: seq<Octet>)
    ensures start == start + EncodeAll(Requests(0, first))
  {
  }

  lemma AllRead(stream: seq<Octet>, reports: seq<Report>, first: Octet, rest: seq<Octet>)
    requires IsAnswer(reports)
    ensures Remains(stream, reports, first, CYCLE, rest) ==> stream == rest
  {
    assert Answers(reports, first)[CYCLE..] == [];
  }
}
