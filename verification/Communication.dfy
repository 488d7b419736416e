/** `communication_task` of firmware/main.c: from the bytes the UART delivers to the bytes
    it accepts for transmission. */
module Communication {
  import opened Bytes
  import opened Frames
  import P = Parser
  import T = ParserTiming
  import S = Slots
  import opened Status
  import R = Ring
  import U = Uart
  import opened Protocol

  lemma {:induction false} RunAllAppend(s: T.Timed, events: seq<T.Event>, e: T.Event)
    ensures var r := T.RunAll(s, events);
      T.RunAll(s, events + [e]) == T.Run(T.Do(r.state, e).state, r.log + T.Do(r.state, e).log)
    decreases |events|
  {
    hide T.Do;
    if |events| == 0 {
      assert (events + [e])[1..] == [];
    } else {
      assert (events + [e])[1..] == events[1..] + [e];
      RunAllAppend(T.Do(s, events[0]).state, events[1..], e);
    }
  }

  lemma {:induction false} HandleLogConcat(s: S.Slots, x: seq<P.Ending>, y: seq<P.Ending>)
    ensures Protocol.HandleLog(s, x + y) == Protocol.HandleLog(Protocol.HandleLog(s, x), y)
    decreases |x|
  {
    hide S.HandleFrame;
    if |x| == 0 {
      assert x + y == y;
    } else {
      assert (x + y)[1..] == x[1..] + y;
      var e := x[0];
      HandleLogConcat(if e.Delivered? && e.frame.WellFormed() then S.HandleFrame(s, e.frame) else s,
                      x[1..], y);
    }
  }

  lemma {:induction false} BytesOfAppend(events: seq<T.Event>, e: T.Event)
    ensures T.BytesOf(events + [e]) == T.BytesOf(events) + (if e.Byte? then [e.b] else [])
    decreases |events|
  {
    if |events| == 0 {
      assert (events + [e])[1..] == [];
    } else {
      assert (events + [e])[1..] == events[1..] + [e];
      BytesOfAppend(events[1..], e);
    }
  }

  /** The answers a service pass sends; `reports[k]` is the report for status kind k. */
  function Replies(s: S.Slots, reports: seq<Report>, oks: seq<bool>): seq<WireFrame>
    requires |oks| <= S.SLOTS && GoodReports(reports)
  {
    if |oks| == 0 then []
    else
      var n := |oks| - 1;
      Replies(s, reports, oks[..n])
        + (if oks[n] && S.Owed(s, n).Some? then [Reply(s, reports, n)] else [])
  }

  predicate GoodReports(reports: seq<Report>) {
    && |reports| == S.STATUS_KINDS
    && forall k: S.Kind :: KindOf(reports[k]) == k && FitsC(reports[k])
  }

  /** The complete answer of slot `i`. */
  function Reply(s: S.Slots, reports: seq<Report>, i: S.Slot): WireFrame
    requires GoodReports(reports) && S.Owed(s, i).Some?
  {
    if i == 0 then s.shared.value else Response(reports[i - 1], s.status[i - 1].value)
  }

  lemma ReplySize(s: S.Slots, reports: seq<Report>, i: S.Slot)
    requires GoodReports(reports) && S.Owed(s, i).Some?
    ensures |Encode(Reply(s, reports, i))| == S.Size(s, i)
    ensures Reply(s, reports, i).frameType == S.Owed(s, i).value.frameType
    ensures Reply(s, reports, i).sequence == S.Owed(s, i).value.sequence
  {
    hide Payload, FitsC;
  }

  ghost predicate Separate(p: Protocol, u: U.Uart)
  {
    var mine: set<object>, theirs: set<object> :=
      {p, p.framePayload, p.pendingPayload}, {u, u.rxBuffer, u.txBuffer};
    mine !! theirs
  }

  /** The protocol object is where the parser and slot machines are after `events`. */
  ghost predicate Follows(p: Protocol, t0: T.Timed, s0: S.Slots, events: seq<T.Event>)
    requires p.Valid()
    reads p, p.framePayload, p.pendingPayload
  {
    && p.Timed() == T.RunAll(t0, events).state
    && p.Pending() == Protocol.HandleLog(s0, T.RunAll(t0, events).log)
  }

  /** One turn of the drain loop, with the time read for that byte. */
  method Absorb(p: Protocol, byte: Octet, ghost t0: T.Timed, ghost s0: S.Slots,
                ghost events: seq<T.Event>) returns (ghost longer: seq<T.Event>)
    requires p.Valid() && Follows(p, t0, s0, events)
    modifies p, p.framePayload, p.pendingPayload
    ensures p.Valid() && Follows(p, t0, s0, longer)
    ensures events < longer && |longer| == |events| + 1 && longer[|events|].Byte?
    ensures T.BytesOf(longer) == T.BytesOf(events) + [byte]
  {
    hide T.ProcessByte, S.HandleFrame;
    var t: nat := *;
    longer := events + [T.Byte(byte, t)];
    RunAllAppend(t0, events, T.Byte(byte, t));
    HandleLogConcat(s0, T.RunAll(t0, events).log, T.ProcessByte(p.Timed(), byte, T.Millis(t)).log);
    BytesOfAppend(events, T.Byte(byte, t));
    p.ProcessByte(byte, T.Millis(t));
  }

  lemma NeverReadsAhead(u: U.Uart)
    requires u.Valid()
    ensures |u.delivered| <= |u.seen|
  {
    hide R.Contents;
    u.HistoriesAreFifo();
  }

  /** The drain loop: every byte that `uart_read_byte` returns goes to the parser. */
  method Drain(p: Protocol, u: U.Uart, ghost t0: T.Timed, ghost s0: S.Slots,
               ghost first: seq<T.Event>) returns (ghost events: seq<T.Event>)
    requires p.Valid() && u.Valid() && Separate(p, u) && Follows(p, t0, s0, first)
    requires T.BytesOf(first) == []
    modifies p, p.framePayload, p.pendingPayload, u, u.rxBuffer
    ensures p.Valid() && u.Valid() && u.Grown() && u.accepted == old(u.accepted)
    ensures Follows(p, t0, s0, events) && first <= events
    ensures forall i :: |first| <= i < |events| ==> events[i].Byte?
    ensures u.delivered == old(u.delivered) + T.BytesOf(events)
    ensures u.WasEmptied() && (old(u.line) == [] ==> u.kept == u.delivered)
  {
    hide T.RunAll, T.BytesOf, R.Contents, U.Uart.Valid, Protocol.Valid, Follows;
    events := first;
    var ok, byte := u.ReadByte();
    while ok
      invariant p.Valid() && u.Valid() && u.Grown() && u.accepted == old(u.accepted)
      invariant Follows(p, t0, s0, events) && first <= events
      invariant forall i :: |first| <= i < |events| ==> events[i].Byte?
      invariant u.delivered == old(u.delivered) + T.BytesOf(events) + (if ok then [byte] else [])
      invariant !ok ==> u.WasEmptied()
      invariant old(u.line) == [] ==> u.line == [] && (!ok ==> u.kept == u.delivered)
      decreases |u.seen + u.line| - |u.delivered|, ok
    {
      events := Absorb(p, byte, t0, s0, events);
      ok, byte := u.ReadByte();
      NeverReadsAhead(u);
    }
  }

  // ----- the service pass -----

  /** The report of every status kind, in service order. */
  function Reports(comm: Report, others: seq<Report>): (r: seq<Report>)
    requires KindOf(comm) == 0 && FitsC(comm) && OtherReports(others)
    ensures GoodReports(r)
    ensures r[0] == comm && r[1..] == others
  {
    hide FitsC;
    [comm] + others
  }

  predicate OtherReports(others: seq<Report>) {
    && |others| == S.STATUS_KINDS - 1
    && forall k :: 0 <= k < |others| ==> KindOf(others[k]) == k + 1 && FitsC(others[k])
  }

  /** Where the two objects are after the first `|oks|` slots of a pass from `s`; `sent` had
      been accepted before it and `done` bytes of that had left. */
  ghost predicate Served(p: Protocol, u: U.Uart, t: T.Timed, s: S.Slots, sent: seq<Octet>,
                         done: nat, reports: seq<Report>, oks: seq<bool>)
    requires p.Valid() && u.Valid() && GoodReports(reports) && |oks| <= S.SLOTS && done <= |sent|
    reads p, p.framePayload, p.pendingPayload, u, u.rxBuffer, u.txBuffer
  {
    && p.Timed() == t && p.Pending() == S.Serve(s, oks)
    && u.accepted == sent + EncodeAll(Replies(s, reports, oks))
    && done <= |u.sent| && S.IsFair(s, oks, |sent| - done)
  }

  lemma {:induction false} RepliesSize(s: S.Slots, reports: seq<Report>, oks: seq<bool>)
    requires |oks| <= S.SLOTS && GoodReports(reports)
    ensures |EncodeAll(Replies(s, reports, oks))| == S.SentBytes(s, oks)
  {
    hide GoodReports, Encode, S.Owed, S.Size, Reply;
    if |oks| > 0 {
      var n := |oks| - 1;
      RepliesSize(s, reports, oks[..n]);
      if oks[n] && S.Owed(s, n).Some? {
        EncodeAllAppend(Replies(s, reports, oks[..n]), Reply(s, reports, n));
        ReplySize(s, reports, n);
      } else {
        NothingOwed(s, n);
        assert Replies(s, reports, oks) == Replies(s, reports, oks[..n]);
      }
    }
  }

  lemma NothingOwed(s: S.Slots, i: S.Slot)
    ensures S.Owed(s, i).None? ==> S.Size(s, i) == 0
  {
  }

  /** One test of the service order and the send that it guards. */
  method OfferSlot(p: Protocol, u: U.Uart, i: S.Slot, reports: seq<Report>) returns (ok: bool)
    requires p.Valid() && u.Valid() && Separate(p, u) && GoodReports(reports)
    modifies p, p.framePayload, p.pendingPayload, u, u.rxBuffer, u.txBuffer
    ensures p.Valid() && u.Valid() && u.Grown() && u.delivered == old(u.delivered)
    ensures p.Timed() == old(p.Timed())
    ensures p.Pending() == S.Do(old(p.Pending()), S.Offer(i, ok))
    ensures u.accepted == old(u.accepted)
      + (if ok && S.Owed(old(p.Pending()), i).Some? then Encode(Reply(old(p.Pending()), reports, i))
         else [])
    ensures |old(u.accepted)| - |old(u.sent)| + S.Size(old(p.Pending()), i) <= U.TX_FREE ==> ok
  {
    hide R.Contents, FitsC, Payload, Encode, P.Sound;
    if i == 0 {
      ok := p.SendResponse(u);
    } else {
      ok := p.SendStatus(i - 1, reports[i - 1], u);
    }
  }

  lemma OneMoreSlot(s: S.Slots, reports: seq<Report>, oks: seq<bool>, ok: bool, backlog: nat)
    requires |oks| < S.SLOTS && GoodReports(reports)
    ensures var n, longer, now := |oks|, oks + [ok], S.Serve(s, oks);
      && S.Serve(s, longer) == S.Do(now, S.Offer(n, ok))
      && EncodeAll(Replies(s, reports, longer)) == EncodeAll(Replies(s, reports, oks))
           + (if ok && S.Owed(now, n).Some? then Encode(Reply(now, reports, n)) else [])
      && S.Size(now, n) == S.Size(s, n)
      && (S.IsFair(s, oks, backlog)
          && (backlog + S.SentBytes(s, oks) + S.Size(s, n) <= 63 ==> ok)
          ==> S.IsFair(s, longer, backlog))
  {
    hide GoodReports, Encode, S.Do, S.Owed, S.Size, Reply;
    var n, longer := |oks|, oks + [ok];
    assert longer[..n] == oks;
    S.ServeSlot(s, oks, n);
    SameReply(s, S.Serve(s, oks), reports, n);
    if ok && S.Owed(s, n).Some? {
      EncodeAllAppend(Replies(s, reports, oks), Reply(s, reports, n));
    } else {
      assert Replies(s, reports, longer) == Replies(s, reports, oks);
    }
    assert forall i: S.Slot :: i < n ==> longer[..i] == oks[..i];
  }

  /** The next slot of a pass. */
  method Next(p: Protocol, u: U.Uart, ghost t: T.Timed, ghost s: S.Slots, ghost sent: seq<Octet>,
              ghost done: nat, n: S.Slot, reports: seq<Report>, ghost oks: seq<bool>)
    returns (ghost longer: seq<bool>)
    requires p.Valid() && u.Valid() && Separate(p, u) && GoodReports(reports) && |oks| == n
    requires done <= |sent|
    requires Served(p, u, t, s, sent, done, reports, oks)
    modifies p, p.framePayload, p.pendingPayload, u, u.rxBuffer, u.txBuffer
    ensures p.Valid() && u.Valid() && u.Grown() && u.delivered == old(u.delivered)
    ensures |longer| == n + 1 && oks < longer
    ensures Served(p, u, t, s, sent, done, reports, longer)
  {
    hide R.Contents, GoodReports, Encode, S.Do, S.Owed, S.Size, S.Serve, S.SentBytes, Reply, Replies;
    hide Protocol.Valid, U.Uart.RxInv, S.IsFair;
    RepliesSize(s, reports, oks);
    u.HistoriesAreFifo();
    var ok := OfferSlot(p, u, n, reports);
    longer := oks + [ok];
    OneMoreSlot(s, reports, oks, ok, |sent| - done);
  }

  lemma SameReply(a: S.Slots, b: S.Slots, reports: seq<Report>, i: S.Slot)
    requires GoodReports(reports) && S.Owed(a, i) == S.Owed(b, i)
    ensures S.Owed(a, i).Some? ==> Reply(a, reports, i) == Reply(b, reports, i)
  {
    hide Payload, FitsC;
  }

  // ----- what makes the task block -----

  /** The only frame that asks for a watchdog block, but for its sequence number. */
  function BlockFrame(sequence: Octet): WireFrame {
    Frame(S.TYPE_INJECT_WATCHDOG_BLOCK, sequence, [])
  }

  ghost predicate AsksForBlock(log: seq<P.Ending>) {
    exists sequence: Octet :: P.Delivered(BlockFrame(sequence)) in log
  }

  /** Handling a log requests a block exactly when the log holds such a frame. */
  lemma {:induction false} BlockIsAskedFor(s: S.Slots, log: seq<P.Ending>)
    ensures Protocol.HandleLog(s, log).blockRequested <==> s.blockRequested || AsksForBlock(log)
    decreases |log|
  {
    hide S.HandleFrame;
    if |log| > 0 {
      var e, rest := log[0], log[1..];
      var first := e.Delivered? && e.frame.WellFormed();
      var next := if first then S.HandleFrame(s, e.frame) else s;
      BlockIsAskedFor(next, rest);
      if first {
        S.HandlerDoesItsDuty(s, e.frame, 0);
        assert S.DutyOf(e.frame).Block? <==> e.frame == BlockFrame(e.frame.sequence);
      }
      assert log == [e] + rest;
      forall sequence: Octet
        ensures P.Delivered(BlockFrame(sequence)) in log
          <==> e == P.Delivered(BlockFrame(sequence)) || P.Delivered(BlockFrame(sequence)) in rest
      {
      }
    }
  }

  /** Such a frame is among the bytes received. */
  ghost predicate HasBlock(bytes: seq<Octet>) {
    exists sequence: Octet :: T.Occurs(Encode(BlockFrame(sequence)), bytes)
  }

  // ----- the task as a machine -----

  /** Where parser and slots are between two calls of the task. */
  datatype Node = Node(timed: T.Timed, slots: S.Slots)

  const BOOT := Node(T.Timed(P.RESET, 0, 0, 0), S.EMPTY)

  /** What a call meets and reads: the check and the bytes with their times, the reports of
      that moment, what the transmitter took, and what was unsent when the call began. */
  datatype Turn = Turn(events: seq<T.Event>, reports: seq<Report>, oks: seq<bool>, backlog: nat)

  predicate IsTurn(t: Turn) {
    GoodReports(t.reports) && |t.oks| == S.SLOTS
  }

  /** A call at clock reading `t` checks for a timeout once, and then reads bytes. */
  predicate IsCallAt(events: seq<T.Event>, t: nat) {
    |events| > 0 && events[0] == T.Check(t) && forall i :: 1 <= i < |events| ==> events[i].Byte?
  }

  /** The slots when the bytes of the call have been handled. */
  function Heard(n: Node, t: Turn): S.Slots {
    Protocol.HandleLog(n.slots, T.RunAll(n.timed, t.events).log)
  }

  function AfterTurn(n: Node, t: Turn): Node
    requires IsTurn(t)
  {
    Node(T.RunAll(n.timed, t.events).state, S.Serve(Heard(n, t), t.oks))
  }

  /** The frames that the call queues. */
  function Sent(n: Node, t: Turn): seq<WireFrame>
    requires IsTurn(t)
  {
    Replies(Heard(n, t), t.reports, t.oks)
  }

  ghost predicate IsFair(n: Node, t: Turn) {
    S.IsFair(Heard(n, t), t.oks, t.backlog)
  }

  ghost function NodeOf(p: Protocol): Node
    requires p.Valid()
    reads p, p.framePayload, p.pendingPayload
  {
    Node(p.Timed(), p.Pending())
  }

  ghost function Unsent(u: U.Uart): (n: nat)
    requires u.Valid()
    reads u, u.rxBuffer, u.txBuffer
    ensures n == |u.accepted| - |u.sent|
  {
    hide R.Contents;
    |u.TxQueue()|
  }

  lemma FairWithMore(s: S.Slots, oks: seq<bool>, less: nat, more: nat)
    requires S.IsFair(s, oks, less) && less <= more
    ensures S.IsFair(s, oks, more)
  {
    hide S.SentBytes, S.Size;
  }

  /** The first half of `communication_task`: the timeout check and the drain loop. */
  method Receive(p: Protocol, u: U.Uart, t: nat) returns (ghost events: seq<T.Event>)
    requires p.Valid() && u.Valid() && Separate(p, u)
    modifies p, p.framePayload, p.pendingPayload, u, u.rxBuffer, u.txBuffer
    ensures p.Valid() && u.Valid() && u.Grown() && u.accepted == old(u.accepted)
    ensures IsCallAt(events, t) && u.delivered == old(u.delivered) + T.BytesOf(events)
    ensures u.WasEmptied() && (old(u.line) == [] ==> u.kept == u.delivered)
    ensures p.Timed() == T.RunAll(old(p.Timed()), events).state
    ensures p.Pending() == Protocol.HandleLog(old(p.Pending()), T.RunAll(old(p.Timed()), events).log)
  {
    hide P.Sound, R.Contents, U.Uart.Rings, U.Uart.RxLogged;
    u.Interrupts();
    ghost var t0, s0 := p.Timed(), p.Pending();
    ghost var first := [T.Check(t)];
    p.CheckTimeout(T.Millis(t));
    CheckFirst(t0, s0, t);
    events := Drain(p, u, t0, s0, first);
  }

  /** `communication_task`, with the readings of the profilers in `others`. When a watchdog
      block has been requested nothing is sent and the task does not return. */
  method CommunicationTask(p: Protocol, u: U.Uart, t: nat, others: seq<Report>)
    returns (blocked: bool, ghost turn: Turn)
    requires p.Valid() && u.Valid() && Separate(p, u) && OtherReports(others)
    modifies p, p.framePayload, p.pendingPayload, u, u.rxBuffer, u.txBuffer
    ensures p.Valid() && u.Valid() && u.Grown()
    // Every byte read goes to the parser, after one timeout check, until none is left.
    ensures IsCallAt(turn.events, t)
    ensures u.delivered == old(u.delivered) + T.BytesOf(turn.events)
    ensures u.WasEmptied() && (old(u.line) == [] ==> u.kept == u.delivered)
    // Then the slots are served once each in order, or the block is obeyed.
    ensures blocked == Heard(old(NodeOf(p)), turn).blockRequested
    ensures blocked ==> p.Timed() == T.RunAll(old(p.Timed()), turn.events).state
                        && p.Pending() == Heard(old(NodeOf(p)), turn) && u.accepted == old(u.accepted)
    ensures !blocked ==>
      && IsTurn(turn) && turn.reports[1..] == others
      && CountersRead(p, u, turn.reports[0], old(u.dropped))
      && NodeOf(p) == AfterTurn(old(NodeOf(p)), turn)
      && u.accepted == old(u.accepted) + EncodeAll(Sent(old(NodeOf(p)), turn))
      && IsFair(old(NodeOf(p)), turn) && turn.backlog == |old(u.accepted)| - |old(u.sent)|
  {
    hide S.IsFair, R.Contents, Protocol.Valid, U.Uart.Valid, OtherReports, GoodReports;
    hide Replies, EncodeAll, S.Serve, T.RunAll, T.BytesOf, Protocol.HandleLog;
    ghost var n, backlog := NodeOf(p), Unsent(u);
    ghost var events := Receive(p, u, t);
    blocked := p.watchdogBlockPending;
    ghost var reports, oks := [], [];
    if !blocked {
      ghost var s, left := p.Pending(), Unsent(u);
      u.NothingCame();
      label heard:
      reports, oks := ServePass(p, u, others);
      u.NothingCame@heard();
      FairWithMore(s, oks, left, backlog);
    }
    turn := Turn(events, reports, oks, backlog);
  }

  lemma CheckFirst(t0: T.Timed, s0: S.Slots, t: nat)
    ensures var r := T.CheckTimeout(t0, T.Millis(t));
      T.RunAll(t0, [T.Check(t)]) == r && Protocol.HandleLog(s0, r.log) == s0
    ensures T.BytesOf([T.Check(t)]) == []
  {
    var r := T.CheckTimeout(t0, T.Millis(t));
    assert [T.Check(t)][1..] == [] && r.log + [] == r.log;
    assert r.log == [] || (r.log == [P.TimedOut] && r.log[1..] == []);
  }

  lemma FirstSlotHasNoReport(s: S.Slots, a: seq<Report>, b: seq<Report>, oks: seq<bool>)
    requires |oks| == 1 && GoodReports(a) && GoodReports(b)
    ensures Replies(s, a, oks) == Replies(s, b, oks)
  {
    hide FitsC;
  }

  /** Four slots of a pass, one after the other. */
  method NextFour(p: Protocol, u: U.Uart, ghost t: T.Timed, ghost s: S.Slots, ghost sent: seq<Octet>,
                  ghost done: nat, n: nat, reports: seq<Report>, ghost oks: seq<bool>)
    returns (ghost longer: seq<bool>)
    requires p.Valid() && u.Valid() && Separate(p, u) && GoodReports(reports)
    requires done <= |sent| && |oks| == n && n + 4 <= S.SLOTS && Served(p, u, t, s, sent, done, reports, oks)
    modifies p, p.framePayload, p.pendingPayload, u, u.rxBuffer, u.txBuffer
    ensures p.Valid() && u.Valid() && u.Grown() && u.delivered == old(u.delivered)
    ensures |longer| == n + 4 && Served(p, u, t, s, sent, done, reports, longer)
  {
    hide R.Contents, GoodReports, Served, Protocol.Valid, U.Uart.Valid;
    longer := Next(p, u, t, s, sent, done, n, reports, oks);
    longer := Next(p, u, t, s, sent, done, n + 1, reports, longer);
    longer := Next(p, u, t, s, sent, done, n + 2, reports, longer);
    longer := Next(p, u, t, s, sent, done, n + 3, reports, longer);
  }

  /** The nine tests of the service order. The three communication counters are read after
      the shared slot has been served. */
  method ServePass(p: Protocol, u: U.Uart, others: seq<Report>)
    returns (ghost reports: seq<Report>, ghost oks: seq<bool>)
    requires p.Valid() && u.Valid() && Separate(p, u) && OtherReports(others)
    modifies p, p.framePayload, p.pendingPayload, u, u.rxBuffer, u.txBuffer
    ensures p.Valid() && u.Valid() && u.Grown() && u.delivered == old(u.delivered)
    ensures |oks| == S.SLOTS && GoodReports(reports) && reports[1..] == others
    ensures |old(u.sent)| <= |old(u.accepted)|
    ensures Served(p, u, old(p.Timed()), old(p.Pending()), old(u.accepted),
                   |old(u.sent)|, reports, oks)
    ensures CountersRead(p, u, reports[0], old(u.dropped))
  {
    hide R.Contents, GoodReports, Encode, S.Do, Replies, S.IsFair, FitsC;
    hide Protocol.Valid, U.Uart.Valid, Protocol.HandleLog;
    hide S.Serve, T.CheckTimeout;
    ghost var t, s, sent, done := p.Timed(), p.Pending(), u.accepted, |u.sent|;
    var blank := Blank(others);
    NothingServed(p, u, blank);
    oks := Next(p, u, t, s, sent, done, 0, blank, []);
    var now := ReadCounters(p, u, others);
    reports := now;
    SwitchReports(p, u, t, s, sent, done, blank, now, oks);
    oks := NextFour(p, u, t, s, sent, done, 1, now, oks);
    oks := NextFour(p, u, t, s, sent, done, 5, now, oks);
  }

  function Blank(others: seq<Report>): (r: seq<Report>)
    requires OtherReports(others)
    ensures GoodReports(r)
  {
    Reports(CommStatus(0, 0, 0), others)
  }

  lemma NothingServed(p: Protocol, u: U.Uart, reports: seq<Report>)
    requires p.Valid() && u.Valid() && GoodReports(reports)
    ensures |u.sent| <= |u.accepted|
    ensures Served(p, u, p.Timed(), p.Pending(), u.accepted, |u.sent|, reports, [])
  {
    hide R.Contents, GoodReports, Protocol.Valid;
    u.HistoriesAreFifo();
  }

  lemma SwitchReports(p: Protocol, u: U.Uart, t: T.Timed, s: S.Slots, sent: seq<Octet>, done: nat,
                      a: seq<Report>, b: seq<Report>, oks: seq<bool>)
    requires p.Valid() && u.Valid() && |oks| == 1 && GoodReports(a) && GoodReports(b) && done <= |sent|
    requires Served(p, u, t, s, sent, done, a, oks)
    ensures Served(p, u, t, s, sent, done, b, oks)
  {
    hide R.Contents, GoodReports, Protocol.Valid;
    FirstSlotHasNoReport(s, a, b, oks);
  }

  /** A report of the three counters, made when `before` bytes or more had been lost. */
  ghost predicate CountersRead(p: Protocol, u: U.Uart, report: Report, before: nat)
    reads p, u
  {
    && report.CommStatus?
    && report.parserTimeouts == p.timeoutCount && report.crcErrors == p.crcErrorCount
    && Min(255, before) <= report.uartRxOverflow <= Min(255, u.dropped)
  }

  method ReadCounters(p: Protocol, u: U.Uart, others: seq<Report>) returns (reports: seq<Report>)
    requires p.Valid() && u.Valid() && OtherReports(others)
    ensures GoodReports(reports) && reports[1..] == others
    ensures CountersRead(p, u, reports[0], u.dropped)
  {
    hide R.Contents, GoodReports, OtherReports;
    var comm := CommStatus(u.rxOverflowCount, p.timeoutCount, p.crcErrorCount);
    reports := Reports(comm, others);
  }

  // ----- whole runs of the task -----

  function AfterTurns(n: Node, turns: seq<Turn>): Node
    requires AreTurns(turns)
  {
    if |turns| == 0 then n else AfterTurn(AfterTurns(n, turns[..|turns| - 1]), turns[|turns| - 1])
  }

  /** All frames that the calls queue, in order. */
  function AllSent(n: Node, turns: seq<Turn>): seq<WireFrame>
    requires AreTurns(turns)
  {
    if |turns| == 0 then []
    else
      var rest, last := turns[..|turns| - 1], turns[|turns| - 1];
      AllSent(n, rest) + Sent(AfterTurns(n, rest), last)
  }

  function AllEvents(turns: seq<Turn>): seq<T.Event> {
    if |turns| == 0 then [] else AllEvents(turns[..|turns| - 1]) + turns[|turns| - 1].events
  }

  ghost predicate AllFair(n: Node, turns: seq<Turn>)
    requires AreTurns(turns)
  {
    forall i :: 0 <= i < |turns| ==> IsFair(AfterTurns(n, turns[..i]), turns[i])
  }

  /** What a run of calls does to the slots. */
  function SlotEvents(n: Node, turns: seq<Turn>): seq<S.Event>
    requires AreTurns(turns)
  {
    if |turns| == 0 then []
    else
      var rest, last := turns[..|turns| - 1], turns[|turns| - 1];
      SlotEvents(n, rest) + OfTurn(AfterTurns(n, rest), last)
  }

  function OfTurn(n: Node, t: Turn): seq<S.Event>
    requires IsTurn(t)
  {
    Arrivals(T.RunAll(n.timed, t.events).log) + Offers(t.oks)
  }

  function Arrivals(log: seq<P.Ending>): seq<S.Event>
    decreases |log|
  {
    if |log| == 0 then []
    else
      (if log[0].Delivered? && log[0].frame.WellFormed() then [S.Arrive(log[0].frame)] else [])
        + Arrivals(log[1..])
  }

  function Offers(oks: seq<bool>): (r: seq<S.Event>)
    requires |oks| <= S.SLOTS
    ensures |r| == |oks| && forall i: S.Slot :: i < |oks| ==> r[i] == S.Offer(i, oks[i])
  {
    seq(|oks|, i requires 0 <= i < |oks| => S.Offer(i, oks[i]))
  }

  lemma {:induction false} DoAllConcat(s: S.Slots, x: seq<S.Event>, y: seq<S.Event>, i: S.Slot)
    ensures S.DoAll(s, x + y) == S.DoAll(S.DoAll(s, x), y)
    ensures S.Queued(s, x + y, i) == S.Queued(s, x, i) + S.Queued(S.DoAll(s, x), y, i)
    decreases |x|
  {
    hide S.Do, S.Paid;
    if |x| == 0 {
      assert x + y == y;
    } else {
      assert (x + y)[1..] == x[1..] + y;
      DoAllConcat(S.Do(s, x[0]), x[1..], y, i);
    }
  }

  lemma {:induction false} ArrivalsHandled(s: S.Slots, log: seq<P.Ending>, i: S.Slot)
    ensures S.DoAll(s, Arrivals(log)) == Protocol.HandleLog(s, log)
    ensures S.Queued(s, Arrivals(log), i) == []
    decreases |log|
  {
    hide S.HandleFrame, S.Owed;
    if |log| > 0 {
      var e, rest := log[0], Arrivals(log[1..]);
      if e.Delivered? && e.frame.WellFormed() {
        assert Arrivals(log)[0] == S.Arrive(e.frame) && Arrivals(log)[1..] == rest;
        ArrivalsHandled(S.HandleFrame(s, e.frame), log[1..], i);
      } else {
        assert Arrivals(log) == rest;
        ArrivalsHandled(s, log[1..], i);
      }
    }
  }

  lemma {:induction false} OffersServed(s: S.Slots, oks: seq<bool>, i: S.Slot)
    requires |oks| <= S.SLOTS
    ensures S.DoAll(s, Offers(oks)) == S.Serve(s, oks)
    ensures S.Queued(s, Offers(oks), i)
         == (if i < |oks| && oks[i] then S.AsSeq(S.Owed(s, i)) else [])
  {
    hide S.Do, S.Owed, S.DoAll, S.Queued, S.Serve, S.AsSeq, Offers;
    if |oks| == 0 {
      NoOffers(s, oks, i);
    } else {
      var n := |oks| - 1;
      var before, offer := oks[..n], [S.Offer(n, oks[n])];
      OffersServed(s, before, i);
      OneMoreOffer(s, oks);
      DoAllConcat(s, Offers(before), offer, i);
      S.ServeSlot(s, before, i);
      OneOffer(S.Serve(s, before), n, oks[n], i);
    }
  }

  lemma NoOffers(s: S.Slots, oks: seq<bool>, i: S.Slot)
    requires |oks| == 0
    ensures S.DoAll(s, Offers(oks)) == S.Serve(s, oks) && S.Queued(s, Offers(oks), i) == []
  {
    assert Offers(oks) == [];
    NoEvents(s, i);
  }

  lemma OneMoreOffer(s: S.Slots, oks: seq<bool>)
    requires 0 < |oks| <= S.SLOTS
    ensures var n := |oks| - 1;
      && Offers(oks) == Offers(oks[..n]) + [S.Offer(n, oks[n])]
      && S.Serve(s, oks) == S.Do(S.Serve(s, oks[..n]), S.Offer(n, oks[n]))
  {
    hide S.Do;
  }

  lemma OneOffer(s: S.Slots, n: S.Slot, ok: bool, i: S.Slot)
    ensures S.DoAll(s, [S.Offer(n, ok)]) == S.Do(s, S.Offer(n, ok))
    ensures S.Queued(s, [S.Offer(n, ok)], i) == if i == n && ok then S.AsSeq(S.Owed(s, i)) else []
  {
    hide S.Do, S.Owed;
    assert [S.Offer(n, ok)][1..] == [];
    NoEvents(S.Do(s, S.Offer(n, ok)), i);
  }

  // ----- the frames of one slot -----

  /** The slot whose answers have this type. */
  function SlotOf(f: WireFrame): S.Slot {
    if S.ResponseType(0) <= f.frameType <= S.ResponseType(6) then f.frameType - S.ResponseType(0) + 1
    else if f.frameType == S.ResponseType(7) then 8
    else 0
  }

  function InSlot(frames: seq<WireFrame>, i: S.Slot): seq<WireFrame> {
    if |frames| == 0 then []
    else
      var last := frames[|frames| - 1];
      InSlot(frames[..|frames| - 1], i) + (if SlotOf(last) == i then [Head(last)] else [])
  }

  /** A frame as it was owed: the report of a status answer is not fixed until it is sent. */
  function Head(f: WireFrame): WireFrame {
    if SlotOf(f) == 0 then f else f.(payload := [])
  }

  lemma {:induction false} InSlotConcat(x: seq<WireFrame>, y: seq<WireFrame>, i: S.Slot)
    ensures InSlot(x + y, i) == InSlot(x, i) + InSlot(y, i)
    decreases |y|
  {
    hide SlotOf, Head;
    if |y| == 0 {
      assert x + y == x;
    } else {
      assert (x + y)[..|x + y| - 1] == x + y[..|y| - 1];
      InSlotConcat(x, y[..|y| - 1], i);
    }
  }

  /** The shared slot holds a PONG, an ACK or a NACK. */
  predicate SharedIsImmediate(s: S.Slots) {
    s.shared.Some? ==> s.shared.value.frameType in {S.TYPE_PONG, S.TYPE_ACK, S.TYPE_NACK}
  }

  lemma {:induction false} HeardIsImmediate(s: S.Slots, log: seq<P.Ending>)
    requires SharedIsImmediate(s)
    ensures SharedIsImmediate(Protocol.HandleLog(s, log))
    decreases |log|
  {
    if |log| > 0 {
      var e := log[0];
      HeardIsImmediate(if e.Delivered? && e.frame.WellFormed() then S.HandleFrame(s, e.frame) else s,
                       log[1..]);
    }
  }

  lemma HeadOfReply(s: S.Slots, reports: seq<Report>, i: S.Slot)
    requires GoodReports(reports) && SharedIsImmediate(s) && S.Owed(s, i).Some?
    ensures SlotOf(Reply(s, reports, i)) == i && Head(Reply(s, reports, i)) == S.Owed(s, i).value
  {
    hide FitsC, Payload;
  }

  /** A pass sends, for each slot that the transmitter takes, what the slot owes. */
  lemma {:induction false} RepliesInSlot(s: S.Slots, reports: seq<Report>, oks: seq<bool>, i: S.Slot)
    requires GoodReports(reports) && SharedIsImmediate(s) && |oks| <= S.SLOTS
    ensures InSlot(Replies(s, reports, oks), i)
         == (if i < |oks| && oks[i] then S.AsSeq(S.Owed(s, i)) else [])
  {
    hide GoodReports, S.Owed, SlotOf, Head, Reply, SharedIsImmediate, InSlot;
    if |oks| == 0 {
      NoEvents(s, i);
    } else {
      var n := |oks| - 1;
      RepliesInSlot(s, reports, oks[..n], i);
      if oks[n] && S.Owed(s, n).Some? {
        HeadOfReply(s, reports, n);
        InSlotConcat(Replies(s, reports, oks[..n]), [Reply(s, reports, n)], i);
        OneInSlot(Reply(s, reports, n), i);
      } else {
        assert Replies(s, reports, oks) == Replies(s, reports, oks[..n]);
      }
    }
  }

  lemma OneInSlot(f: WireFrame, i: S.Slot)
    ensures InSlot([f], i) == if SlotOf(f) == i then [Head(f)] else []
  {
    hide SlotOf, Head;
    assert [f][..0] == [];
  }

  /** A run of calls is a run of the slot machine, which queues what the frames sent say. */
  lemma {:induction false} TurnsAreEvents(n: Node, turns: seq<Turn>, i: S.Slot)
    requires SharedIsImmediate(n.slots) && AreTurns(turns)
    ensures S.DoAll(n.slots, SlotEvents(n, turns)) == AfterTurns(n, turns).slots
    ensures S.Queued(n.slots, SlotEvents(n, turns), i) == InSlot(AllSent(n, turns), i)
    ensures SharedIsImmediate(AfterTurns(n, turns).slots)
  {
    hide S.DoAll, S.Queued, Protocol.HandleLog, S.Serve, S.Owed, Arrivals, Offers, InSlot, Replies;
    hide IsTurn;
    if |turns| == 0 {
      NoEvents(n.slots, i);
    } else {
      var rest, last := turns[..|turns| - 1], turns[|turns| - 1];
      TurnsAreEvents(n, rest, i);
      OneTurnEvents(AfterTurns(n, rest), last, i);
      InSlotConcat(AllSent(n, rest), Sent(AfterTurns(n, rest), last), i);
      DoAllConcat(n.slots, SlotEvents(n, rest), OfTurn(AfterTurns(n, rest), last), i);
    }
  }

  lemma OneTurnEvents(n: Node, t: Turn, i: S.Slot)
    requires SharedIsImmediate(n.slots) && IsTurn(t)
    ensures S.DoAll(n.slots, OfTurn(n, t)) == AfterTurn(n, t).slots
    ensures S.Queued(n.slots, OfTurn(n, t), i) == InSlot(Sent(n, t), i)
    ensures SharedIsImmediate(AfterTurn(n, t).slots)
  {
    hide S.DoAll, S.Queued, Protocol.HandleLog, S.Serve, S.Owed, Arrivals, Offers, InSlot, Replies;
    hide GoodReports, SharedIsImmediate;
    var log := T.RunAll(n.timed, t.events).log;
    HeardIsImmediate(n.slots, log);
    ArrivalsHandled(n.slots, log, i);
    OffersServed(Heard(n, t), t.oks, i);
    DoAllConcat(n.slots, Arrivals(log), Offers(t.oks), i);
    RepliesInSlot(Heard(n, t), t.reports, t.oks, i);
    ServedIsImmediate(Heard(n, t), t.oks);
  }

  lemma ServedIsImmediate(s: S.Slots, oks: seq<bool>)
    requires SharedIsImmediate(s) && |oks| == S.SLOTS
    ensures SharedIsImmediate(S.Serve(s, oks))
  {
    hide S.Serve;
    S.ServeSlot(s, oks, 0);
  }

  lemma NoEvents(s: S.Slots, i: S.Slot)
    ensures S.DoAll(s, []) == s && S.Queued(s, [], i) == [] && InSlot([], i) == []
  {
  }

  /** Over a run of calls from start-up, the frames of slot `i` on the wire, with the one still
      owed, are the answers of the requests that the slot accepted, in order. */
  ghost predicate AnswersInOrder(turns: seq<Turn>, i: S.Slot)
    requires AreTurns(turns)
  {
    S.Accepted(S.EMPTY, SlotEvents(BOOT, turns), i)
      == InSlot(AllSent(BOOT, turns), i) + S.AsSeq(S.Owed(AfterTurns(BOOT, turns).slots, i))
  }

  /** Every request is answered exactly once. */
  lemma EveryRequestOnce(turns: seq<Turn>, i: S.Slot)
    requires AreTurns(turns)
    ensures AnswersInOrder(turns, i)
  {
    hide AllSent, SlotEvents, AfterTurns, S.Accepted, S.Queued, InSlot, S.DoAll, IsTurn;
    S.AnsweredExactlyOnce(S.EMPTY, SlotEvents(BOOT, turns), i);
    TurnsAreEvents(BOOT, turns, i);
    assert S.AsSeq(S.Owed(S.EMPTY, i)) == [];
  }

  predicate AreTurns(turns: seq<Turn>) {
    forall t :: t in turns ==> IsTurn(t)
  }

  /** One more call at the end of a run. */
  lemma OneMoreTurn(n: Node, turns: seq<Turn>, t: Turn)
    requires AreTurns(turns) && IsTurn(t)
    ensures var longer, before := turns + [t], AfterTurns(n, turns);
      && AreTurns(longer) && AfterTurns(n, longer) == AfterTurn(before, t)
      && EncodeAll(AllSent(n, longer)) == EncodeAll(AllSent(n, turns)) + EncodeAll(Sent(before, t))
      && T.BytesOf(AllEvents(longer)) == T.BytesOf(AllEvents(turns)) + T.BytesOf(t.events)
      && (AllFair(n, turns) && IsFair(before, t) ==> AllFair(n, longer))
  {
    hide AfterTurn, Sent, IsTurn, IsFair;
    var longer := turns + [t];
    assert longer[..|longer| - 1] == turns;
    EncodeAllConcat(AllSent(n, turns), Sent(AfterTurns(n, turns), t));
    T.BytesOfConcat(AllEvents(turns), t.events);
    assert forall i :: 0 <= i < |turns| ==> longer[..i] == turns[..i];
    assert longer[..|turns|] == turns;
  }

  lemma NoTurns(n: Node)
    ensures AreTurns([]) && AllFair(n, []) && AfterTurns(n, []) == n
    ensures EncodeAll(AllSent(n, [])) == [] && T.BytesOf(AllEvents([])) == []
  {
  }

  /** The time and the profilers' readings at one call of the task. */
  datatype Input = Input(t: nat, others: seq<Report>)

  /** A call that read this clock and these readings. */
  predicate IsCallWith(turn: Turn, input: Input) {
    IsTurn(turn) && IsCallAt(turn.events, input.t) && turn.reports[1..] == input.others
  }

  /** A run of calls from `n` ended in one that heard `last` and did not return, because a block
      was already requested or one of the frames it heard asks for it. */
  ghost predicate EndsInBlock(n: Node, turns: seq<Turn>, last: seq<T.Event>)
    requires AreTurns(turns)
  {
    n.slots.blockRequested || AsksForBlock(T.RunAll(AfterTurns(n, turns).timed, last).log)
  }

  lemma {:induction false} TimedThread(n: Node, turns: seq<Turn>)
    requires AreTurns(turns)
    ensures AfterTurns(n, turns).timed == T.RunAll(n.timed, AllEvents(turns)).state
  {
    hide IsTurn, T.RunAll, Heard;
    if |turns| == 0 {
      NoEventsRun(n.timed);
    } else {
      var rest, last := turns[..|turns| - 1], turns[|turns| - 1];
      TimedThread(n, rest);
      T.RunAllConcat(n.timed, AllEvents(rest), last.events);
    }
  }

  lemma NoEventsRun(s: T.Timed)
    ensures T.RunAll(s, []) == T.Run(s, [])
  {
  }

  /** From power-up, a run that ends in a block has received a frame that asks for one. */
  lemma BlockWasReceived(turns: seq<Turn>, last: seq<T.Event>)
    requires AreTurns(turns) && EndsInBlock(BOOT, turns, last)
    ensures HasBlock(T.BytesOf(AllEvents(turns)) + T.BytesOf(last))
  {
    hide AfterTurns, AllEvents, T.RunAll, T.BytesOf, Encode, T.Occurs, IsTurn;
    var before := AfterTurns(BOOT, turns).timed;
    var sequence: Octet :| P.Delivered(BlockFrame(sequence)) in T.RunAll(before, last).log;
    TimedThread(BOOT, turns);
    T.RunAllConcat(BOOT.timed, AllEvents(turns), last);
    T.BytesOfConcat(AllEvents(turns), last);
    T.DeliveredIsReceived(BOOT.timed, [], AllEvents(turns) + last, BlockFrame(sequence));
    assert [] + T.BytesOf(AllEvents(turns) + last) == T.BytesOf(AllEvents(turns) + last);
  }

  /** No slots ever lose or gain a block request but by a frame. */
  lemma BlockStays(n: Node, t: Turn)
    requires IsTurn(t)
    ensures AfterTurn(n, t).slots.blockRequested == Heard(n, t).blockRequested
  {
    hide Heard, S.Serve, T.RunAll, GoodReports;
    S.ServeSlot(Heard(n, t), t.oks, 0);
  }

  /** The task, called once for every input or until a watchdog block. The turns are the calls
      that returned, and `last` is what a call that did not return has heard, which asked for
      the block; the bytes read are those that the calls have heard. What was accepted for
      transmission is what the calls sent, and from start-up that answers every accepted
      request once, in order, slot by slot. */
  method RunTask(p: Protocol, u: U.Uart, inputs: seq<Input>)
    returns (blocked: bool, ghost turns: seq<Turn>, ghost last: seq<T.Event>)
    requires p.Valid() && u.Valid() && Separate(p, u)
    requires forall i :: 0 <= i < |inputs| ==> OtherReports(inputs[i].others)
    modifies p, p.framePayload, p.pendingPayload, u, u.rxBuffer, u.txBuffer
    ensures p.Valid() && u.Valid() && u.Grown()
    ensures AreTurns(turns) && AllFair(old(NodeOf(p)), turns)
    ensures |turns| + (if blocked then 1 else 0) <= |inputs|
    ensures forall i :: 0 <= i < |turns| ==> IsCallWith(turns[i], inputs[i])
    ensures u.accepted == old(u.accepted) + EncodeAll(AllSent(old(NodeOf(p)), turns))
    ensures u.delivered == old(u.delivered) + (T.BytesOf(AllEvents(turns)) + T.BytesOf(last))
    ensures !blocked ==>
      |turns| == |inputs| && NodeOf(p) == AfterTurns(old(NodeOf(p)), turns) && last == []
    ensures blocked ==> IsCallAt(last, inputs[|turns|].t) && EndsInBlock(old(NodeOf(p)), turns, last)
    ensures blocked && old(NodeOf(p)) == BOOT ==> HasBlock(u.delivered[|old(u.delivered)|..])
    ensures old(NodeOf(p)) == BOOT ==> forall i: S.Slot :: AnswersInOrder(turns, i)
  {
    hide Protocol.Valid, U.Uart.Valid, OtherReports, IsTurn, IsFair, EncodeAll, T.BytesOf, T.RunAll;
    hide AfterTurn, Sent, AnswersInOrder, CountersRead, AfterTurns, AllSent, AllEvents, AllFair;
    hide AsksForBlock, HasBlock, Protocol.HandleLog;
    ghost var n := NodeOf(p);
    blocked, turns, last := false, [], [];
    NoTurns(n);
    NoBytes();
    for i := 0 to |inputs|
      invariant p.Valid() && u.Valid() && u.Grown() && !blocked && |turns| == i && AreTurns(turns)
      invariant AllFair(n, turns) && NodeOf(p) == AfterTurns(n, turns) && last == []
      invariant i > 0 ==> !p.Pending().blockRequested
      invariant forall j :: 0 <= j < i ==> IsCallWith(turns[j], inputs[j])
      invariant u.accepted == old(u.accepted) + EncodeAll(AllSent(n, turns))
      invariant u.delivered == old(u.delivered) + T.BytesOf(AllEvents(turns))
    {
      ghost var turn, before := Turn([], [], [], 0), NodeOf(p);
      blocked, turn := CommunicationTask(p, u, inputs[i].t, inputs[i].others);
      BlockIsAskedFor(before.slots, T.RunAll(before.timed, turn.events).log);
      if blocked {
        last := turn.events;
        break;
      }
      BlockStays(before, turn);
      OneMoreTurn(n, turns, turn);
      turns := turns + [turn];
      assert IsCallWith(turn, inputs[i]);
    }
    if blocked && n == BOOT {
      BlockWasReceived(turns, last);
    }
    forall i: S.Slot ensures AnswersInOrder(turns, i) {
      EveryRequestOnce(turns, i);
    }
  }

  lemma NoBytes()
    ensures T.BytesOf([]) == []
  {
  }
}
