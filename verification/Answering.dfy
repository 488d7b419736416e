/** How soon the main loop answers: from a request in the receive ring to its answer in the
    transmit ring. */
module Answering {
  import opened Bytes
  import opened Frames
  import opened Status
  import opened Reaction
  import opened Inputs
  import P = Parser
  import T = ParserTiming
  import L = Slots
  import S = Scheduler
  import U = Uart
  import A = Application
  import C = Capture
  import PR = Protocol
  import H = HostLink
  import Q = Poller
  import opened M = Communication
  import opened EndToEnd
  import opened Firmware

  lemma {:induction false} BytesNeverTimeOut(s: T.Timed, events: seq<T.Event>)
    requires forall e :: e in events ==> e.Byte?
    ensures P.TimedOut !in T.RunAll(s, events).log
    decreases |events|
  {
    if |events| > 0 {
      BytesNeverTimeOut(T.Do(s, events[0]).state, events[1..]);
    }
  }

  /** A call that begins between two frames does not time out. */
  lemma CallIsInTime(s: T.Timed, events: seq<T.Event>, t: nat)
    requires s.parser.state == P.WaitSof && IsCallAt(events, t)
    ensures P.TimedOut !in T.RunAll(s, events).log
  {
    BytesNeverTimeOut(s, events[1..]);
  }

  function StatusRequest(k: L.Kind, sequence: Octet): WireFrame {
    Frame(L.RequestType(k), sequence, [])
  }

  /** One call that reads a whole request from idle answers it at once. */
  lemma CallAnswers(n: Node, turn: Turn, input: Input, k: L.Kind, sequence: Octet)
    requires IsIdle(n) && IsCallWith(turn, input) && IsFair(n, turn) && turn.backlog <= 49
    requires T.BytesOf(turn.events) == Encode(StatusRequest(k, sequence))
    ensures IsIdle(AfterTurn(n, turn)) && Sent(n, turn) == [AnswerOf(turn, k, sequence)]
    ensures Q.Judge(k, sequence, H.Spelled(EncodeAll(Sent(n, turn))).0)
         == Ok(AsSeenByHost(turn.reports[k]))
  {
    hide Encode, EncodeAll, T.RunAll, T.BytesOf, IsTurn, IsFair, AfterTurn, Sent, AnswerOf;
    hide Q.Judge, H.Spelled, AsSeenByHost, IsIdle;
    OneTurn(n, turn);
    WaitsForSof(n);
    CallIsInTime(n.timed, turn.events, input.t);
    var j := Exchange(n, [turn], k, sequence);
  }

  lemma WaitsForSof(n: Node)
    ensures IsIdle(n) ==> n.timed.parser.state == P.WaitSof
  {
  }

  lemma OneTurn(n: Node, turn: Turn)
    requires IsTurn(turn)
    ensures AreTurns([turn]) && AfterTurns(n, [turn]) == AfterTurn(n, turn)
    ensures AllSent(n, [turn]) == Sent(n, turn) && AllEvents([turn]) == turn.events
    ensures IsFair(n, turn) ==> AllFair(n, [turn])
  {
    hide AfterTurn, Sent, IsTurn, IsFair;
    assert [turn][..0] == [];
  }

  /** A call that reads a whole status request from idle is not asked to block. */
  lemma NoBlock(n: Node, events: seq<T.Event>, t: nat, k: L.Kind, sequence: Octet)
    requires IsIdle(n) && IsCallAt(events, t)
    requires T.BytesOf(events) == Encode(StatusRequest(k, sequence))
    ensures !AsksForBlock(T.RunAll(n.timed, events).log)
  {
    hide Encode, T.RunAll, T.BytesOf, P.Feed;
    CallIsInTime(n.timed, events, t);
    T.ClockDoesNotMatter(n.timed, events);
    P.IdleDelivers(n.timed.parser, StatusRequest(k, sequence));
  }

  /** The next call of the communication task answers a request that it finds whole. */
  lemma AnsweredNow(f: Firmware, before: seq<Turn>, t: Tick, unsent: int, accepted: seq<Octet>,
                    k: L.Kind, sequence: Octet)
    requires f.Valid() && f.HasCalled(before, t, unsent) && unsent <= 49
    requires AreTurns(before) && IsIdle(AfterTurns(BOOT, before))
    requires accepted == EncodeAll(AllSent(BOOT, before))
    requires f.uart.delivered == T.BytesOf(AllEvents(before)) + Encode(StatusRequest(k, sequence))
    ensures !f.halted && IsAnswered(f, before, t, accepted, k, sequence)
  {
    hide Firmware.Apart, S.Scheduler.Valid, A.Application.Valid, PR.Protocol.Valid, U.Uart.Valid;
    hide Encode, EncodeAll, T.RunAll, T.BytesOf, AfterTurns, AllSent, AllEvents, AllFair, AsksForBlock;
    hide IsFair, AfterTurn, Sent, Q.Judge, H.Spelled, AsSeenByHost, IsIdle, Table, AnswerOf, IsCallAt;
    var n := AfterTurns(BOOT, before);
    var heard, request := T.BytesOf(AllEvents(before)), Encode(StatusRequest(k, sequence));
    if f.halted {
      SameEnd(heard, T.BytesOf(f.final), request);
      NoBlock(n, f.final, t.clock, k, sequence);
      assert false;
    } else {
      var turn := f.turns[|before|];
      assert f.turns == before + [turn];
      OneMoreTurn(BOOT, before, turn);
      FairAtEnd(BOOT, before, turn);
      NoBytes();
      SameEnd(heard, T.BytesOf(turn.events), request);
      CallAnswers(n, turn, InputOf(t), k, sequence);
      assert EncodeAll([AnswerOf(turn, k, sequence)]) == Encode(AnswerOf(turn, k, sequence)) by {
        OneFrame(AnswerOf(turn, k, sequence));
      }
    }
  }

  lemma SameEnd(a: seq<Octet>, x: seq<Octet>, y: seq<Octet>)
    requires a + x == a + y
    ensures x == y
  {
    assert x == (a + x)[|a|..] && y == (a + y)[|a|..];
  }

  lemma OneFrame(x: WireFrame)
    ensures EncodeAll([x]) == Encode(x)
  {
    hide Encode;
    assert [x][1..] == [];
  }

  lemma FairAtEnd(n: Node, before: seq<Turn>, turn: Turn)
    requires AreTurns(before + [turn]) && AllFair(n, before + [turn])
    ensures AreTurns(before) && IsFair(AfterTurns(n, before), turn)
  {
    hide IsFair, AfterTurns, IsTurn;
    assert (before + [turn])[..|before|] == before && (before + [turn])[|before|] == turn;
    assert forall x :: x in before ==> x in before + [turn];
  }

  /** The task has been called once more, in the pass `t`, and has queued the answer to one
      status request and nothing else; the host reads it as the report of that moment. */
  ghost predicate IsAnswered(f: Firmware, before: seq<Turn>, t: Tick, accepted: seq<Octet>,
                             k: L.Kind, sequence: Octet)
    requires f.protocol.Valid()
    reads f, f.protocol, f.protocol.framePayload, f.protocol.pendingPayload, f.uart
  {
    && IsIdle(NodeOf(f.protocol)) && |f.turns| == |before| + 1
    && var turn := f.turns[|before|];
      && IsCallWith(turn, InputOf(t))
      && f.uart.accepted == accepted + Encode(AnswerOf(turn, k, sequence))
      && Q.Judge(k, sequence, H.Spelled(Encode(AnswerOf(turn, k, sequence))).0)
         == Ok(AsSeenByHost(turn.reports[k]))
  }

  /** A status request is in the receive ring, behind it nothing more comes, parser and slots are
      idle, and at most 49 bytes are still to be sent. */
  ghost predicate HoldsRequest(f: Firmware, k: L.Kind, sequence: Octet)
    requires f.protocol.Valid()
    reads f, f.protocol, f.protocol.framePayload, f.protocol.pendingPayload, f.uart
  {
    && !f.halted && IsIdle(NodeOf(f.protocol)) && f.uart.line == [] && f.uart.Unsent() <= 49
    && f.uart.kept == f.uart.delivered + Encode(StatusRequest(k, sequence))
  }

  lemma WhatWasHeard(f: Firmware)
    requires f.Valid() && !f.halted
    ensures AreTurns(f.turns) && NodeOf(f.protocol) == AfterTurns(BOOT, f.turns)
    ensures f.uart.delivered == T.BytesOf(AllEvents(f.turns))
    ensures f.uart.accepted == EncodeAll(AllSent(BOOT, f.turns))
  {
    hide Firmware.Apart, S.Scheduler.Valid, A.Application.Valid, PR.Protocol.Valid, U.Uart.Valid;
    hide EncodeAll, T.BytesOf, AfterTurns, AllSent, AllEvents, AllFair, Table;
    NoBytes();
  }

  /** Nothing has changed for the request: the task has not been called. */
  ghost predicate StillHolds(f: Firmware, turns: seq<Turn>, kept: seq<Octet>, delivered: seq<Octet>,
                             accepted: seq<Octet>)
    reads f, f.uart
  {
    && !f.halted && f.turns == turns && f.uart.line == [] && f.uart.kept == kept
    && f.uart.delivered == delivered && f.uart.accepted == accepted && f.uart.Unsent() <= 49
  }

  lemma WhatIsHeld(f: Firmware, k: L.Kind, sequence: Octet)
    requires f.Valid() && HoldsRequest(f, k, sequence)
    ensures !f.halted && IsIdle(NodeOf(f.protocol))
    ensures f.uart.kept == f.uart.delivered + Encode(StatusRequest(k, sequence))
    ensures StillHolds(f, f.turns, f.uart.kept, f.uart.delivered, f.uart.accepted)
  {
    hide Encode, IsIdle;
  }

  lemma NotLate(f: Firmware, now: nat)
    requires OnTime(f.Abstract(), now)
    ensures f.last[COMMUNICATION] <= now <= f.last[COMMUNICATION] + 9
  {
  }

  /** After a pass without the communication task, no task is overdue. */
  lemma NextIsOnTime(f: Firmware, s: System, at: Watch, t: Tick, from: nat, g: nat)
    requires OnTime(s, from) && s.last == at.last && f.Knows(Inputs.Next(at, t))
    requires from <= t.time <= from + g && 30 + g <= S.WRAP
    ensures OnTime(f.Abstract(), t.time)
    ensures !Calls(at.last, t.time, COMMUNICATION) ==> f.last[COMMUNICATION] == s.last[COMMUNICATION]
  {
    hide Calls, NextStarted, Hear, Firmware.Tied;
    StaysOnTime(s, t.time, from, g);
  }

  /** One pass while a request is held: it is answered if the communication task is due, and
      held on otherwise. */
  method PassOn(f: Firmware, t: Tick, ghost at: Watch, ghost turns: seq<Turn>, ghost kept: seq<Octet>,
                ghost accepted: seq<Octet>, ghost k: L.Kind, ghost sequence: Octet)
    requires f.Valid() && f.Knows(at) && OtherReports(t.others) && f.uart.cycle <= t.begin <= t.end
    requires AreTurns(turns) && IsIdle(AfterTurns(BOOT, turns))
    requires accepted == EncodeAll(AllSent(BOOT, turns))
    requires kept == T.BytesOf(AllEvents(turns)) + Encode(StatusRequest(k, sequence))
    requires StillHolds(f, turns, kept, T.BytesOf(AllEvents(turns)), accepted)
    modifies f, f.scheduler.tasks, f.app, f.app.servo, f.app.sensor
    modifies f.protocol, f.protocol.framePayload, f.protocol.pendingPayload
    modifies f.uart, f.uart.rxBuffer, f.uart.txBuffer
    ensures f.Valid() && f.Knows(Inputs.Next(at, t)) && f.uart.cycle <= t.end
    ensures Calls(at.last, t.time, COMMUNICATION) ==>
      !f.halted && IsAnswered(f, turns, t, accepted, k, sequence)
    ensures !Calls(at.last, t.time, COMMUNICATION) ==>
      StillHolds(f, turns, kept, T.BytesOf(AllEvents(turns)), accepted)
  {
    hide Firmware.Valid, Firmware.HasCalled, IsAnswered, OtherReports, Calls, NextLast, NextStarted;
    hide Encode, EncodeAll, T.BytesOf, AfterTurns, AllSent, AllEvents, IsIdle, Firmware.Tied, Hear;
    hide DoPass, C.Capture.HasResult, Evaluates, HeardNear, AreTurns;
    ghost var unsent := f.uart.Unsent();
    ghost var pass := f.Pass(t, at.hearing);
    f.QuietLine();
    if Calls(at.last, t.time, COMMUNICATION) {
      AnsweredNow(f, turns, t, unsent, accepted, k, sequence);
    }
  }

  /** The response time. With passes at most `g` ms apart, a status request that is whole in the
      receive ring after the pass at `from` has its answer in the transmit ring by
      `from + 9 + g`: the first call of the communication task reads it, answers it with the
      readings of that pass and nothing else, and leaves parser and slots idle. */
  method Respond(f: Firmware, ticks: seq<Tick>, w: Watch, ghost from: nat, ghost g: nat,
                 ghost k: L.Kind, ghost sequence: Octet) returns (n: nat)
    requires f.Valid() && f.Knows(w) && HoldsRequest(f, k, sequence)
    requires OnTime(f.Abstract(), from) && ArePaced(ticks, from, g) && 30 + g <= S.WRAP
    requires AreOrdered(ticks, f.uart.cycle) && from + 10 <= TimeBefore(ticks, from, |ticks|)
    requires forall i :: 0 <= i < |ticks| ==> OtherReports(ticks[i].others)
    modifies f, f.scheduler.tasks, f.app, f.app.servo, f.app.sensor
    modifies f.protocol, f.protocol.framePayload, f.protocol.pendingPayload
    modifies f.uart, f.uart.rxBuffer, f.uart.txBuffer
    ensures f.Valid() && !f.halted && 0 < n <= |ticks| && ticks[n - 1].time <= from + 9 + g
    ensures IsAnswered(f, old(f.turns), ticks[n - 1], old(f.uart.accepted), k, sequence)
  {
    hide Firmware.Valid, Firmware.HasCalled, IsAnswered, HoldsRequest, OtherReports, OnTime;
    hide Encode, EncodeAll, T.BytesOf, AfterTurns, AllSent, AllEvents, IsIdle, Calls, StillHolds;
    hide Firmware.Tied, Hear, AreTurns, Firmware.Knows, Inputs.Next, A.Application.Abstract;
    ghost var turns, kept, sent := f.turns, f.uart.kept, f.uart.accepted;
    WhatIsHeld(f, k, sequence);
    WhatWasHeard(f);
    NotLate(f, from);
    n := 0;
    while n < |ticks|
      invariant n <= |ticks| && f.Valid()
      invariant StillHolds(f, turns, kept, T.BytesOf(AllEvents(turns)), sent)
      invariant f.Knows(WatchAt(w, ticks, n)) && OnTime(f.Abstract(), TimeBefore(ticks, from, n))
      invariant f.last[COMMUNICATION] <= from && TimeBefore(ticks, from, n) <= from + 9
      invariant f.uart.cycle <= EndBefore(ticks, old(f.uart.cycle), n)
    {
      ghost var s := f.Abstract();
      f.SameSchedule(WatchAt(w, ticks, n));
      var at := WatchAt(w, ticks, n);
      assert EndBefore(ticks, old(f.uart.cycle), n) <= ticks[n].begin <= ticks[n].end;
      PassOn(f, ticks[n], at, turns, kept, sent, k, sequence);
      n := n + 1;
      if Calls(at.last, ticks[n - 1].time, COMMUNICATION) {
        return;
      }
      NextIsOnTime(f, s, at, ticks[n - 1], TimeBefore(ticks, from, n - 1), g);
      NotLate(f, ticks[n - 1].time);
    }
    assert false;
  }
}
