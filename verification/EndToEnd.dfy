/** A polling cycle across both ends: the requests that the host sends, spread over any calls
    of the task, are parsed, accepted, answered and decoded to the reports that were sent. */
module EndToEnd {
  import opened Bytes
  import opened Frames
  import opened Status
  import P = Parser
  import T = ParserTiming
  import S = Slots
  import Protocol
  import opened Communication
  import H = HostLink
  import Q = Poller

  /** One status request is owed and nothing else. */
  function OnlyStatus(k: S.Kind, sequence: Octet): S.Slots {
    S.EMPTY.(status := S.EMPTY.status[k := Some(sequence)])
  }

  lemma RequestIsAccepted(k: S.Kind, sequence: Octet)
    ensures var f := Frame(S.RequestType(k), sequence, []);
      Protocol.Protocol.HandleLog(S.EMPTY, [P.Delivered(f)]) == OnlyStatus(k, sequence)
  {
    var f: WireFrame := Frame(S.RequestType(k), sequence, []);
    var log := [P.Delivered(f)];
    assert log[1..] == [];
    assert Protocol.Protocol.HandleLog(S.HandleFrame(S.EMPTY, f), log[1..]) == S.HandleFrame(S.EMPTY, f);
    assert S.HandleFrame(S.EMPTY, f) == OnlyStatus(k, sequence);
  }

  /** A pass in which the transmitter takes slot k + 1 answers the one request and nothing
      else. */
  lemma {:induction false} OnlyReply(k: S.Kind, sequence: Octet, reports: seq<Report>, oks: seq<bool>)
    requires GoodReports(reports) && |oks| <= S.SLOTS && (k + 1 < |oks| ==> oks[k + 1])
    ensures Replies(OnlyStatus(k, sequence), reports, oks)
         == if k + 1 < |oks| then [Response(reports[k], sequence)] else []
  {
    hide FitsC, Payload;
    if |oks| > 0 {
      OnlyReply(k, sequence, reports, oks[..|oks| - 1]);
    }
  }

  lemma {:induction false} NothingSent(k: S.Kind, sequence: Octet, oks: seq<bool>)
    requires |oks| <= S.SLOTS
    ensures S.SentBytes(OnlyStatus(k, sequence), oks) <= 14
    ensures |oks| <= k + 1 ==> S.SentBytes(OnlyStatus(k, sequence), oks) == 0
  {
    if |oks| > 0 {
      NothingSent(k, sequence, oks[..|oks| - 1]);
    }
  }

  /** With at most 49 bytes unsent the transmitter takes everything, since only one answer of
      at most 14 bytes is owed. */
  lemma EverythingIsTaken(k: S.Kind, sequence: Octet, oks: seq<bool>, backlog: nat)
    requires |oks| == S.SLOTS && S.IsFair(OnlyStatus(k, sequence), oks, backlog) && backlog <= 49
    ensures forall i: S.Slot :: oks[i]
  {
    forall i: S.Slot ensures oks[i] {
      NothingSent(k, sequence, oks[..i]);
      NothingOwedElse(k, sequence, i);
    }
  }

  lemma NothingOwedElse(k: S.Kind, sequence: Octet, i: S.Slot)
    ensures S.Size(OnlyStatus(k, sequence), i) <= if i == k + 1 then 14 else 0
  {
  }

  lemma IdleAgain(k: S.Kind, sequence: Octet, oks: seq<bool>)
    requires |oks| == S.SLOTS && forall i: S.Slot :: oks[i]
    ensures S.Serve(OnlyStatus(k, sequence), oks) == S.EMPTY
  {
    hide S.Serve;
    var r := S.Serve(OnlyStatus(k, sequence), oks);
    forall i: S.Slot ensures S.Owed(r, i).None? {
      S.ServeSlot(OnlyStatus(k, sequence), oks, i);
    }
    S.ServeSlot(OnlyStatus(k, sequence), oks, 0);
    NothingOwedIsEmpty(r);
  }

  lemma NothingOwedIsEmpty(s: S.Slots)
    requires !s.blockRequested && forall i: S.Slot :: S.Owed(s, i).None?
    ensures s == S.EMPTY
  {
    forall k: nat | k < S.STATUS_KINDS ensures s.status[k].None? {
      assert S.Owed(s, k + 1).None?;
    }
    assert S.Owed(s, 0).None?;
    assert s.status == S.EMPTY.status;
  }

  lemma HostReads(k: S.Kind, sequence: Octet, reports: seq<Report>)
    requires GoodReports(reports)
    ensures var answer := Response(reports[k], sequence);
      Q.Judge(k, sequence, H.Spelled(EncodeAll([answer])).0) == Ok(AsSeenByHost(reports[k]))
  {
    hide Encode, FitsC, Payload, H.Spelled, Q.Judge, AsSeenByHost;
    var answer := Response(reports[k], sequence);
    assert [answer][1..] == [];
    assert EncodeAll([answer]) == Encode(answer) + [];
    H.SpelledFrame(answer, []);
    Q.AnswerIsAccepted(reports[k], sequence);
  }

  /** Nothing is owed, nothing is sent. */
  lemma {:induction false} Silence(reports: seq<Report>, oks: seq<bool>)
    requires GoodReports(reports) && |oks| <= S.SLOTS
    ensures Replies(S.EMPTY, reports, oks) == [] && S.Serve(S.EMPTY, oks) == S.EMPTY
  {
    hide GoodReports;
    if |oks| > 0 {
      Silence(reports, oks[..|oks| - 1]);
      assert S.Owed(S.EMPTY, |oks| - 1).None?;
    }
  }

  // ----- one exchange, over any number of calls -----

  predicate IsIdle(n: Node) {
    n.timed.parser.state == P.WaitSof && n.slots == S.EMPTY
  }

  /** The answer with the readings of one call. */
  function AnswerOf(t: Turn, k: S.Kind, sequence: Octet): WireFrame
    requires IsTurn(t)
  {
    Response(t.reports[k], sequence)
  }

  /** The bytes that these calls read are the frame `f`, however they are spread over the calls
      and their checks; no timeout fires; and the transmitter, with at most 49 bytes unsent at
      the start of each call, refuses only what does not fit. */
  ghost predicate Hears(n: Node, turns: seq<Turn>, f: WireFrame) {
    && AreTurns(turns) && AllFair(n, turns) && (forall t :: t in turns ==> t.backlog <= 49)
    && T.BytesOf(AllEvents(turns)) == Encode(f)
    && P.TimedOut !in T.RunAll(n.timed, AllEvents(turns)).log
  }

  /** Requests whose calls all lie within 100 ms are not timed out. */
  lemma PromptRequestIsHeard(n: Node, turns: seq<Turn>, f: WireFrame, t0: nat)
    requires IsIdle(n) && AreTurns(turns) && AllFair(n, turns)
    requires forall t :: t in turns ==> t.backlog <= 49
    requires T.BytesOf(AllEvents(turns)) == Encode(f)
    requires T.AreWithin(AllEvents(turns), t0, t0 + 100)
    ensures Hears(n, turns, f)
  {
    T.QuickIsNotTimedOut(n.timed, AllEvents(turns), t0, t0);
  }

  /** A call at `t` that reads these bytes, with nothing unsent and everything taken. */
  function CallAt(t: nat, bytes: seq<Octet>, reports: seq<Report>): Turn {
    Turn(EventsAt(t, bytes), reports, S.Repeat(true, S.SLOTS), 0)
  }

  function BytesAt(t: nat, bytes: seq<Octet>): (events: seq<T.Event>)
    ensures |events| == |bytes|
  {
    if |bytes| == 0 then [] else [T.Byte(bytes[0], t)] + BytesAt(t, bytes[1..])
  }

  lemma {:induction false} AreTheBytes(t: nat, bytes: seq<Octet>)
    ensures T.BytesOf(BytesAt(t, bytes)) == bytes
    decreases |bytes|
  {
    if |bytes| > 0 {
      AreTheBytes(t, bytes[1..]);
      assert BytesAt(t, bytes)[1..] == BytesAt(t, bytes[1..]);
    }
  }

  lemma {:induction false} AreAt(t: nat, bytes: seq<Octet>, end: nat, later: seq<T.Event>)
    requires t < end && T.AreWithin(later, t, end)
    ensures T.AreWithin(BytesAt(t, bytes) + later, t, end)
    decreases |bytes|
  {
    hide T.AreWithin;
    if |bytes| == 0 {
      assert BytesAt(t, bytes) + later == later;
    } else {
      AreAt(t, bytes[1..], end, later);
      var rest := BytesAt(t, bytes[1..]);
      EventFirst(T.Byte(bytes[0], t), rest + later, t, end);
      assert BytesAt(t, bytes) + later == [T.Byte(bytes[0], t)] + (rest + later);
    }
  }

  lemma ReadAt(t: nat, bytes: seq<Octet>, end: nat, later: seq<T.Event>)
    requires t < end && T.AreWithin(later, t, end)
    ensures T.BytesOf(BytesAt(t, bytes) + later) == bytes + T.BytesOf(later)
    ensures T.AreWithin(BytesAt(t, bytes) + later, t, end)
  {
    hide T.BytesOf, T.AreWithin, BytesAt;
    AreTheBytes(t, bytes);
    AreAt(t, bytes, end, later);
    T.BytesOfConcat(BytesAt(t, bytes), later);
  }

  lemma EventFirst(e: T.Event, later: seq<T.Event>, from: nat, end: nat)
    requires from <= T.TimeOf(e) < end && T.AreWithin(later, T.TimeOf(e), end)
    ensures T.AreWithin([e] + later, from, end)
  {
    assert ([e] + later)[1..] == later;
  }

  lemma CheckedAt(t: nat, from: nat, end: nat, later: seq<T.Event>)
    requires from <= t < end && T.AreWithin(later, t, end)
    ensures T.BytesOf([T.Check(t)] + later) == T.BytesOf(later)
    ensures T.AreWithin([T.Check(t)] + later, from, end)
  {
    EventFirst(T.Check(t), later, from, end);
    assert ([T.Check(t)] + later)[1..] == later;
  }

  /** A request split anywhere over two calls 10 ms apart is heard. */
  lemma SplitRequestIsHeard(n: Node, f: WireFrame, m: nat, t0: nat, reports: seq<Report>)
    returns (turns: seq<Turn>)
    requires IsIdle(n) && GoodReports(reports) && m <= |Encode(f)|
    ensures turns == [CallAt(t0, Encode(f)[..m], reports), CallAt(t0 + 10, Encode(f)[m..], reports)]
    ensures Hears(n, turns, f)
  {
    hide Encode, GoodReports, T.RunAll, T.AreWithin, T.BytesOf, AllEvents, CallAt;
    turns := [CallAt(t0, Encode(f)[..m], reports), CallAt(t0 + 10, Encode(f)[m..], reports)];
    TwoReads(Encode(f), m, t0);
    TwoCalls(turns[0], turns[1]);
    CallsAreFair(n, turns, Encode(f)[..m], Encode(f)[m..], t0, reports);
    PromptRequestIsHeard(n, turns, f, t0);
  }

  function EventsAt(t: nat, bytes: seq<Octet>): seq<T.Event> {
    [T.Check(t)] + BytesAt(t, bytes)
  }

  lemma TwoReads(bytes: seq<Octet>, m: nat, t0: nat)
    requires m <= |bytes|
    ensures var events := EventsAt(t0, bytes[..m]) + EventsAt(t0 + 10, bytes[m..]);
      T.BytesOf(events) == bytes && T.AreWithin(events, t0, t0 + 100)
  {
    hide T.AreWithin, T.BytesOf, BytesAt;
    var a, b, end, second := bytes[..m], bytes[m..], t0 + 100, EventsAt(t0 + 10, bytes[m..]);
    NothingRead(t0 + 10, end);
    ReadAt(t0 + 10, b, end, []);
    assert BytesAt(t0 + 10, b) + [] == BytesAt(t0 + 10, b);
    CheckedAt(t0 + 10, t0, end, BytesAt(t0 + 10, b));
    ReadAt(t0, a, end, second);
    CheckedAt(t0, t0, end, BytesAt(t0, a) + second);
    assert EventsAt(t0, a) + second == [T.Check(t0)] + (BytesAt(t0, a) + second);
  }

  lemma TwoCalls(x: Turn, y: Turn)
    ensures AllEvents([x, y]) == x.events + y.events
  {
    assert [x, y][..1] == [x] && [x][..0] == [];
    assert AllEvents([x]) == [] + x.events;
  }

  lemma CallsAreFair(n: Node, turns: seq<Turn>, a: seq<Octet>, b: seq<Octet>, t0: nat,
                     reports: seq<Report>)
    requires GoodReports(reports) && turns == [CallAt(t0, a, reports), CallAt(t0 + 10, b, reports)]
    ensures AreTurns(turns) && AllFair(n, turns) && forall t :: t in turns ==> t.backlog <= 49
    ensures turns[0].events == EventsAt(t0, a) && turns[1].events == EventsAt(t0 + 10, b)
  {
    hide GoodReports, Heard, S.SentBytes, S.Size;
  }

  lemma NothingRead(from: nat, end: nat)
    ensures T.BytesOf([]) == [] && T.AreWithin([], from, end)
  {
  }

  /** While the log is empty the slots stay empty; from the call in which the request is
      delivered on, it has been answered, once, with the report of that call. */
  lemma {:induction false} SlotsThread(n: Node, turns: seq<Turn>, k: S.Kind, sequence: Octet)
    returns (j: nat)
    requires IsIdle(n) && AreTurns(turns) && AllFair(n, turns)
    requires forall t :: t in turns ==> t.backlog <= 49
    requires var log := T.RunAll(n.timed, AllEvents(turns)).log;
      log == [] || log == [P.Delivered(Frame(S.RequestType(k), sequence, []))]
    ensures AfterTurns(n, turns).slots == S.EMPTY
    ensures T.RunAll(n.timed, AllEvents(turns)).log == [] ==> AllSent(n, turns) == []
    ensures T.RunAll(n.timed, AllEvents(turns)).log != [] ==>
      j < |turns| && IsTurn(turns[j]) && AllSent(n, turns) == [AnswerOf(turns[j], k, sequence)]
  {
    hide T.RunAll, Replies, AnswerOf, IsTurn, S.Serve, IsFair, Heard;
    if |turns| == 0 {
      NoEventsRun(n.timed);
      j := 0;
    } else {
      var m := |turns| - 1;
      var rest, last, before := turns[..m], turns[m], AfterTurns(n, turns[..m]);
      var all, first := T.RunAll(n.timed, AllEvents(turns)).log, T.RunAll(n.timed, AllEvents(rest)).log;
      TimedThread(n, rest);
      T.RunAllConcat(n.timed, AllEvents(rest), last.events);
      var added := T.RunAll(before.timed, last.events).log;
      assert all == first + added;
      assert first == all[..|first|] && added == all[|first|..];
      assert forall i :: 0 <= i < m ==> rest[..i] == turns[..i];
      j := SlotsThread(n, rest, k, sequence);
      assert IsFair(before, last);
      if added == [] {
        QuietTurn(before, last);
      } else {
        AnsweringTurn(before, last, k, sequence);
        j := m;
      }
    }
  }

  lemma QuietTurn(n: Node, t: Turn)
    requires IsTurn(t) && n.slots == S.EMPTY && T.RunAll(n.timed, t.events).log == []
    ensures AfterTurn(n, t).slots == S.EMPTY && Sent(n, t) == []
  {
    hide T.RunAll, GoodReports, Replies, S.Serve;
    Silence(t.reports, t.oks);
  }

  lemma AnsweringTurn(n: Node, t: Turn, k: S.Kind, sequence: Octet)
    requires IsTurn(t) && n.slots == S.EMPTY && IsFair(n, t) && t.backlog <= 49
    requires T.RunAll(n.timed, t.events).log == [P.Delivered(Frame(S.RequestType(k), sequence, []))]
    ensures AfterTurn(n, t).slots == S.EMPTY && Sent(n, t) == [AnswerOf(t, k, sequence)]
  {
    hide T.RunAll, GoodReports, Replies, Response, S.Serve, S.IsFair, OnlyStatus;
    hide Protocol.Protocol.HandleLog;
    RequestIsAccepted(k, sequence);
    EverythingIsTaken(k, sequence, t.oks, t.backlog);
    OnlyReply(k, sequence, t.reports, t.oks);
    IdleAgain(k, sequence, t.oks);
  }

  /** One exchange: from idle, calls that read a status request send exactly one answer, with
      its sequence number and the report of one of the calls; the host reads that report; and
      the firmware is idle again. */
  lemma Exchange(n: Node, turns: seq<Turn>, k: S.Kind, sequence: Octet) returns (j: nat)
    requires IsIdle(n) && Hears(n, turns, Frame(S.RequestType(k), sequence, []))
    ensures IsIdle(AfterTurns(n, turns)) && j < |turns|
    ensures IsTurn(turns[j]) && AllSent(n, turns) == [AnswerOf(turns[j], k, sequence)]
    ensures Q.Judge(k, sequence, H.Spelled(EncodeAll(AllSent(n, turns))).0)
         == Ok(AsSeenByHost(turns[j].reports[k]))
  {
    hide Encode, EncodeAll, T.RunAll, T.BytesOf, Response, H.Spelled, Q.Judge, AsSeenByHost;
    hide AfterTurns, AllSent, AllEvents, AllFair, P.Feed;
    var f: WireFrame := Frame(S.RequestType(k), sequence, []);
    T.ClockDoesNotMatter(n.timed, AllEvents(turns));
    P.IdleDelivers(n.timed.parser, f);
    TimedThread(n, turns);
    j := SlotsThread(n, turns, k, sequence);
    HostReads(k, sequence, turns[j].reports);
  }

  // ----- a whole polling cycle -----

  function Flat(rounds: seq<seq<Turn>>): seq<Turn> {
    if |rounds| == 0 then [] else Flat(rounds[..|rounds| - 1]) + rounds[|rounds| - 1]
  }

  lemma {:induction false} TurnsConcat(n: Node, x: seq<Turn>, y: seq<Turn>)
    requires AreTurns(x) && AreTurns(y)
    ensures AreTurns(x + y) && AfterTurns(n, x + y) == AfterTurns(AfterTurns(n, x), y)
    ensures AllSent(n, x + y) == AllSent(n, x) + AllSent(AfterTurns(n, x), y)
    decreases |y|
  {
    hide AfterTurn, Sent, IsTurn;
    if |y| == 0 {
      assert x + y == x;
    } else {
      assert (x + y)[..|x + y| - 1] == x + y[..|y| - 1];
      TurnsConcat(n, x, y[..|y| - 1]);
    }
  }

  /** The transmitter is fair to a part of a run if it is to the whole. */
  lemma FairToPart(n: Node, x: seq<Turn>, y: seq<Turn>)
    requires AreTurns(x) && AreTurns(y) && AreTurns(x + y) && AllFair(n, x + y)
    ensures AllFair(AfterTurns(n, x), y)
  {
    hide AfterTurns, IsTurn, IsFair;
    forall i | 0 <= i < |y| ensures IsFair(AfterTurns(AfterTurns(n, x), y[..i]), y[i]) {
      TurnsConcat(n, x, y[..i]);
      assert (x + y)[..|x| + i] == x + y[..i] && (x + y)[|x| + i] == y[i];
      assert IsFair(AfterTurns(n, (x + y)[..|x| + i]), (x + y)[|x| + i]);
    }
  }

  /** From `n` on, round `i` of calls reads request `i`: the state runs through the rounds. */
  ghost predicate CycleIsHeard(n: Node, rounds: seq<seq<Turn>>, first: Octet)
    requires |rounds| <= Q.CYCLE
  {
    |rounds| > 0 ==>
      var i := |rounds| - 1;
      && CycleIsHeard(n, rounds[..i], first) && AreTurns(Flat(rounds[..i]))
      && Hears(AfterTurns(n, Flat(rounds[..i])), rounds[i], Q.Request(i, first))
  }

  /** Each report in `asked` was read by one of the calls of its round. */
  ghost predicate AreReadings(rounds: seq<seq<Turn>>, asked: seq<Report>) {
    && |asked| == |rounds| <= Q.CYCLE
    && forall i :: 0 <= i < |rounds| ==>
         exists t :: t in rounds[i] && IsTurn(t) && asked[i] == t.reports[Q.KindAt(i)]
  }

  /** The answers to the first requests of a cycle. */
  function FirstAnswers(asked: seq<Report>, first: Octet): (r: seq<WireFrame>)
    requires forall i :: 0 <= i < |asked| ==> FitsC(asked[i])
    ensures |r| == |asked|
  {
    seq(|asked|, i requires 0 <= i < |asked| => Response(asked[i], (first + i) % 256))
  }

  /** Over the rounds of a polling cycle, one state running through all calls, the firmware
      sends exactly the answers that the poller expects, and is idle at the end. */
  lemma {:induction false} RoundsAreAnswered(n: Node, rounds: seq<seq<Turn>>, first: Octet)
    returns (asked: seq<Report>)
    requires IsIdle(n) && |rounds| <= Q.CYCLE && CycleIsHeard(n, rounds, first)
    ensures AreTurns(Flat(rounds)) && IsIdle(AfterTurns(n, Flat(rounds)))
    ensures |asked| == |rounds| && AreReadings(rounds, asked)
    ensures forall i :: 0 <= i < |asked| ==> FitsC(asked[i]) && KindOf(asked[i]) == Q.KindAt(i)
    ensures AllSent(n, Flat(rounds)) == FirstAnswers(asked, first)
    decreases |rounds|
  {
    hide AfterTurns, AllSent, Response, IsTurn, IsIdle, Hears, FitsC, AreReadings, AreTurns, KindOf;
    if |rounds| == 0 {
      asked := [];
      NoRounds(n, first);
      NoReadings();
    } else {
      var i := |rounds| - 1;
      var rest, round := rounds[..i], rounds[i];
      var before := RoundsAreAnswered(n, rest, first);
      var j, reading := OneRound(AfterTurns(n, Flat(rest)), round, first, i);
      TurnsConcat(n, Flat(rest), round);
      asked := before + [reading];
      assert FirstAnswers(asked, first) == FirstAnswers(before, first)
                                           + [Response(reading, (first + i) % 256)];
      OneMoreReading(rounds, before, reading, j);
    }
  }

  lemma OneMoreReading(rounds: seq<seq<Turn>>, before: seq<Report>, reading: Report, j: nat)
    requires 0 < |rounds| <= Q.CYCLE && AreReadings(rounds[..|rounds| - 1], before)
    requires var i := |rounds| - 1;
      j < |rounds[i]| && IsTurn(rounds[i][j]) && reading == rounds[i][j].reports[Q.KindAt(i)]
    ensures AreReadings(rounds, before + [reading])
  {
    hide IsTurn;
    var i := |rounds| - 1;
    assert rounds[i][j] in rounds[i];
    assert forall m :: 0 <= m < i ==> rounds[..i][m] == rounds[m];
  }

  lemma NoReadings()
    ensures AreReadings([], [])
  {
  }

  lemma NoRounds(n: Node, first: Octet)
    ensures AreTurns(Flat([])) && AfterTurns(n, Flat([])) == n
    ensures AllSent(n, Flat([])) == [] == FirstAnswers([], first)
  {
  }

  lemma OneRound(n: Node, round: seq<Turn>, first: Octet, i: nat) returns (j: nat, reading: Report)
    requires i < Q.CYCLE && IsIdle(n) && Hears(n, round, Q.Request(i, first))
    ensures AreTurns(round) && IsIdle(AfterTurns(n, round))
    ensures j < |round| && IsTurn(round[j]) && reading == round[j].reports[Q.KindAt(i)]
    ensures FitsC(reading) && KindOf(reading) == Q.KindAt(i)
    ensures AllSent(n, round) == [Response(reading, (first + i) % 256)]
  {
    hide AfterTurns, AllSent, Response, IsIdle, FitsC, Q.Judge, H.Spelled;
    var k: S.Kind := Q.KindAt(i);
    j := Exchange(n, round, k, (first + i) % 256);
    reading := round[j].reports[k];
    assert KindOf(reading) == k && FitsC(reading);
  }

  /** A whole cycle: what the firmware accepts for transmission is a stream of right answers,
      as `Poller.DashboardPoller.RequestAll` asks for, so the host gets exactly these reports. */
  lemma CycleIsAnswered(n: Node, rounds: seq<seq<Turn>>, first: Octet) returns (asked: seq<Report>)
    requires IsIdle(n) && |rounds| == Q.CYCLE && CycleIsHeard(n, rounds, first)
    ensures AreTurns(Flat(rounds)) && IsIdle(AfterTurns(n, Flat(rounds)))
    ensures AreReadings(rounds, asked) && Q.IsAnswer(asked)
    ensures AllSent(n, Flat(rounds)) == Q.Answers(asked, first)
    ensures Q.Remains(EncodeAll(AllSent(n, Flat(rounds))), asked, first, 0, [])
  {
    hide AfterTurns, AllSent, Response, IsTurn, IsIdle, FitsC, EncodeAll, Q.Remains, FirstAnswers, Q.Answers;
    asked := RoundsAreAnswered(n, rounds, first);
    AnswersRemain(asked, first);
  }

  lemma AnswersRemain(asked: seq<Report>, first: Octet)
    requires Q.IsAnswer(asked)
    ensures FirstAnswers(asked, first) == Q.Answers(asked, first)
    ensures Q.Remains(EncodeAll(Q.Answers(asked, first)), asked, first, 0, [])
  {
    hide Response, FitsC, EncodeAll;
    assert Q.Answers(asked, first)[0..] == Q.Answers(asked, first);
  }

  /** The calls of a round read one request, within 100 ms of `t0`, with little unsent. */
  ghost predicate IsPrompt(round: seq<Turn>, f: WireFrame, t0: nat) {
    && T.BytesOf(AllEvents(round)) == Encode(f) && T.AreWithin(AllEvents(round), t0, t0 + 100)
    && forall t :: t in round ==> t.backlog <= 49
  }

  lemma FairToFront(n: Node, x: seq<Turn>, y: seq<Turn>)
    requires AreTurns(x + y) && AllFair(n, x + y)
    ensures AreTurns(x) && AreTurns(y) && AllFair(n, x)
  {
    hide AfterTurns, IsTurn, IsFair;
    assert forall t :: t in x || t in y ==> t in x + y;
    assert forall i :: 0 <= i < |x| ==> (x + y)[..i] == x[..i] && (x + y)[i] == x[i];
  }

  /** A cycle is heard in any run of `Communication.RunTask`, whose contract gives the
      fairness, when the host sends each request promptly after the answer to the last. */
  lemma {:induction false} PromptCycleIsHeard(n: Node, rounds: seq<seq<Turn>>, first: Octet,
                                              times: seq<nat>)
    requires IsIdle(n) && |times| == |rounds| <= Q.CYCLE
    requires AreTurns(Flat(rounds)) && AllFair(n, Flat(rounds))
    requires forall i :: 0 <= i < |rounds| ==> IsPrompt(rounds[i], Q.Request(i, first), times[i])
    ensures CycleIsHeard(n, rounds, first)
    decreases |rounds|
  {
    hide AfterTurns, AllFair, AreTurns, IsPrompt, Hears, IsIdle;
    if |rounds| > 0 {
      var i := |rounds| - 1;
      var rest := rounds[..i];
      FairToFront(n, Flat(rest), rounds[i]);
      assert forall m :: 0 <= m < i ==> rest[m] == rounds[m] && times[..i][m] == times[m];
      PromptCycleIsHeard(n, rest, first, times[..i]);
      var asked := RoundsAreAnswered(n, rest, first);
      FairToPart(n, Flat(rest), rounds[i]);
      PromptRoundIsHeard(AfterTurns(n, Flat(rest)), rounds[i], Q.Request(i, first), times[i]);
    }
  }

  lemma PromptRoundIsHeard(n: Node, round: seq<Turn>, f: WireFrame, t0: nat)
    requires IsIdle(n) && AreTurns(round) && AllFair(n, round) && IsPrompt(round, f, t0)
    ensures Hears(n, round, f)
  {
    PromptRequestIsHeard(n, round, f, t0);
  }
}
