/** The bounded response slots of firmware/protocol/protocol.c and the order in which
    `communication_task` serves them: what is owed, to whom, and when it is paid. */
module Slots {
  import opened Bytes
  import opened Frames

  const TYPE_PING: Octet := 0x01
  const TYPE_ECHO: Octet := 0x02
  const TYPE_GET_COMM_STATUS: Octet := 0x03
  const TYPE_GET_TIMING_STATUS: Octet := 0x04
  const TYPE_GET_JITTER_STATUS: Octet := 0x05
  const TYPE_GET_RUNTIME_MEMORY_STATUS: Octet := 0x06
  const TYPE_GET_CPU_LOAD_STATUS: Octet := 0x07
  const TYPE_GET_OVERRUN_STATUS: Octet := 0x08
  const TYPE_GET_RESET_CAUSE: Octet := 0x09
  const TYPE_INJECT_WATCHDOG_BLOCK: Octet := 0x0A
  const TYPE_GET_WATCHDOG_STATUS: Octet := 0x0B
  const TYPE_PONG: Octet := 0x81
  const TYPE_ACK: Octet := 0x90
  const TYPE_NACK: Octet := 0x91
  const NACK_UNSUPPORTED_TYPE: Octet := 0x01
  const NACK_INVALID_LENGTH: Octet := 0x02

  /** The eight status types, numbered in the order in which they are served. */
  const STATUS_KINDS := 8
  type Kind = k: nat | k < STATUS_KINDS

  function RequestType(k: Kind): Octet {
    if k == 7 then TYPE_GET_WATCHDOG_STATUS else TYPE_GET_COMM_STATUS + k
  }

  /** A status response has the request's type with the top bit set. */
  function ResponseType(k: Kind): Octet {
    0x80 + RequestType(k)
  }

  function ResponseLength(k: Kind): nat {
    if k == 0 then 3 else if k == 3 then 6 else if k >= 6 then 1 else 8
  }

  /** `*_request_pending` with `*_sequence`, `response_pending` with `pending_frame`, and
      `watchdog_block_request_pending`. */
  datatype RawSlots = Slots(status: seq<Option<Octet>>, shared: Option<WireFrame>,
                            blockRequested: bool)
  type Slots = s: RawSlots | |s.status| == STATUS_KINDS
    witness Slots([None, None, None, None, None, None, None, None], None, false)

  const EMPTY: Slots := Slots([None, None, None, None, None, None, None, None], None, false)

  // ----- protocol_handle_frame, branch by branch -----

  function PrepareNack(s: Slots, sequence: Octet, reason: Octet): Slots {
    s.(shared := Some(Frame(TYPE_NACK, sequence, [reason])))
  }

  function HandleStatus(s: Slots, k: Kind, f: WireFrame): Slots {
    if f.payload == [] then
      if s.status[k].None? then s.(status := s.status[k := Some(f.sequence)]) else s
    else if s.shared.None? then PrepareNack(s, f.sequence, NACK_INVALID_LENGTH)
    else s
  }

  function HandleFrame(s: Slots, f: WireFrame): Slots {
    if f.frameType == TYPE_GET_COMM_STATUS then HandleStatus(s, 0, f)
    else if f.frameType == TYPE_GET_TIMING_STATUS then HandleStatus(s, 1, f)
    else if f.frameType == TYPE_GET_JITTER_STATUS then HandleStatus(s, 2, f)
    else if f.frameType == TYPE_GET_RUNTIME_MEMORY_STATUS then HandleStatus(s, 3, f)
    else if f.frameType == TYPE_GET_CPU_LOAD_STATUS then HandleStatus(s, 4, f)
    else if f.frameType == TYPE_GET_OVERRUN_STATUS then HandleStatus(s, 5, f)
    else if f.frameType == TYPE_GET_RESET_CAUSE then HandleStatus(s, 6, f)
    else if f.frameType == TYPE_GET_WATCHDOG_STATUS then HandleStatus(s, 7, f)
    else if f.frameType == TYPE_INJECT_WATCHDOG_BLOCK then
      if f.payload == [] then s.(blockRequested := true)
      else if s.shared.None? then PrepareNack(s, f.sequence, NACK_INVALID_LENGTH)
      else s
    else if s.shared.Some? then s
    else if f.frameType == TYPE_PING then
      if f.payload == [] then s.(shared := Some(Frame(TYPE_PONG, f.sequence, [])))
      else PrepareNack(s, f.sequence, NACK_INVALID_LENGTH)
    else if f.frameType == TYPE_ECHO then
      if f.payload == [] then PrepareNack(s, f.sequence, NACK_INVALID_LENGTH)
      else s.(shared := Some(Frame(TYPE_ACK, f.sequence, f.payload)))
    else PrepareNack(s, f.sequence, NACK_UNSUPPORTED_TYPE)
  }

  // ----- what the protocol document says is owed -----

  /** Slot 0 is shared by PONG, ACK and NACK; slot 1 + k answers status kind k. */
  const SLOTS := 9
  type Slot = i: nat | i < SLOTS

  /** The slot a request is for, and the header of its answer. */
  datatype Duty = Answer(slot: Slot, reply: WireFrame) | Block

  predicate Supported(t: int) {
    0x01 <= t <= 0x0B
  }

  /** The exact payload length of the registry; ECHO takes anything but 0. */
  predicate LengthIsRight(f: WireFrame) {
    if f.frameType == 0x02 then f.payload != [] else f.payload == []
  }

  /** Sections 6 and 7 of docs/protocol/uart_binary_protocol.md: PONG is 0x81, ACK 0x90 with the
      payload received, NACK 0x91 with reason 1 (unsupported type) or 2 (wrong length), 0x0A
      blocks, and a status answer has the type of its request with the top bit set. */
  function DutyOf(f: WireFrame): Duty {
    if !Supported(f.frameType) then Answer(0, Frame(0x91, f.sequence, [1]))
    else if !LengthIsRight(f) then Answer(0, Frame(0x91, f.sequence, [2]))
    else if f.frameType == 0x01 then Answer(0, Frame(0x81, f.sequence, []))
    else if f.frameType == 0x02 then Answer(0, Frame(0x90, f.sequence, f.payload))
    else if f.frameType == 0x0A then Block
    else Answer(if f.frameType == 0x0B then 8 else f.frameType - 2,
                Frame(0x80 + f.frameType, f.sequence, []))
  }

  /** The answer a slot owes; for a status slot only its header is fixed yet. */
  function Owed(s: Slots, i: Slot): Option<WireFrame> {
    if i == 0 then s.shared
    else match s.status[i - 1]
      case None => None
      case Some(sequence) => Some(Frame(ResponseType(i - 1), sequence, []))
  }

  /** The handler does what the document says: a request takes its slot if that is free, is
      dropped if it is not, and touches no other slot. */
  lemma HandlerDoesItsDuty(s: Slots, f: WireFrame, i: Slot)
    ensures var after, duty := HandleFrame(s, f), DutyOf(f);
      && Owed(after, i) == (if duty.Answer? && duty.slot == i && Owed(s, i).None?
                            then Some(duty.reply) else Owed(s, i))
      && after.blockRequested == (s.blockRequested || duty.Block?)
  {
  }

  // ----- answering -----

  /** The slot once its answer has been queued. */
  function Release(s: Slots, i: Slot): Slots {
    if i == 0 then s.(shared := None) else s.(status := s.status[i - 1 := None])
  }

  /** A frame arrives, or a slot is offered to the transmitter, which may be full. */
  datatype Event = Arrive(f: WireFrame) | Offer(i: Slot, accepted: bool)

  function Do(s: Slots, e: Event): Slots {
    match e
    case Arrive(f) => HandleFrame(s, f)
    case Offer(i, accepted) => if Owed(s, i).Some? && accepted then Release(s, i) else s
  }

  function DoAll(s: Slots, events: seq<Event>): Slots
    decreases |events|
  {
    if |events| == 0 then s else DoAll(Do(s, events[0]), events[1..])
  }

  function AsSeq(o: Option<WireFrame>): seq<WireFrame> {
    if o.Some? then [o.value] else []
  }

  /** A request for slot `i` that finds it free, as the answer it is owed. */
  function Taken(s: Slots, e: Event, i: Slot): seq<WireFrame> {
    if e.Arrive? && DutyOf(e.f).Answer? && DutyOf(e.f).slot == i && Owed(s, i).None? then
      [DutyOf(e.f).reply]
    else []
  }

  /** The answer of slot `i` that the transmitter takes. */
  function Paid(s: Slots, e: Event, i: Slot): seq<WireFrame> {
    if e.Offer? && e.i == i && e.accepted then AsSeq(Owed(s, i)) else []
  }

  function Accepted(s: Slots, events: seq<Event>, i: Slot): seq<WireFrame>
    decreases |events|
  {
    if |events| == 0 then []
    else Taken(s, events[0], i) + Accepted(Do(s, events[0]), events[1..], i)
  }

  function Queued(s: Slots, events: seq<Event>, i: Slot): seq<WireFrame>
    decreases |events|
  {
    if |events| == 0 then []
    else Paid(s, events[0], i) + Queued(Do(s, events[0]), events[1..], i)
  }

  /** Over every run and for every slot, the queued answers are those of the accepted
      requests, in order, once each, with at most one still pending. */
  lemma {:induction false} AnsweredExactlyOnce(s: Slots, events: seq<Event>, i: Slot)
    ensures AsSeq(Owed(s, i)) + Accepted(s, events, i)
         == Queued(s, events, i) + AsSeq(Owed(DoAll(s, events), i))
    decreases |events|
  {
    hide Do, Taken, Paid, Owed;
    if |events| > 0 {
      var e, next, rest := events[0], Do(s, events[0]), events[1..];
      AnsweredExactlyOnce(next, rest, i);
      OneStep(s, e, i);
      Reassociate(AsSeq(Owed(s, i)), Taken(s, e, i), Accepted(next, rest, i),
                  Paid(s, e, i), AsSeq(Owed(next, i)), Queued(next, rest, i),
                  AsSeq(Owed(DoAll(next, rest), i)));
    }
  }

  lemma Reassociate<T>(a: seq<T>, b: seq<T>, c: seq<T>, p: seq<T>, d: seq<T>, q: seq<T>, r: seq<T>)
    requires a + b == p + d && d + c == q + r
    ensures a + (b + c) == (p + q) + r
  {
    assert a + (b + c) == (a + b) + c;
    assert (p + d) + c == p + (d + c);
    assert p + (q + r) == (p + q) + r;
  }

  lemma OneStep(s: Slots, e: Event, i: Slot)
    ensures AsSeq(Owed(s, i)) + Taken(s, e, i) == Paid(s, e, i) + AsSeq(Owed(Do(s, e), i))
  {
    if e.Arrive? {
      HandlerDoesItsDuty(s, e.f, i);
    }
  }

  // ----- draining -----

  /** The bytes of the answer that slot `i` owes. */
  function Size(s: Slots, i: Slot): nat {
    if Owed(s, i).None? then 0
    else OVERHEAD + (if i == 0 then |s.shared.value.payload| else ResponseLength(i - 1))
  }

  /** A service pass, slot by slot: `oks[i]` says whether the transmitter took slot `i`. */
  function Serve(s: Slots, oks: seq<bool>): Slots
    requires |oks| <= SLOTS
  {
    if |oks| == 0 then s
    else
      var n := |oks| - 1;
      Do(Serve(s, oks[..n]), Offer(n, oks[n]))
  }

  /** The bytes that such a pass queues. */
  function SentBytes(s: Slots, oks: seq<bool>): nat
    requires |oks| <= SLOTS
  {
    if |oks| == 0 then 0
    else
      var n := |oks| - 1;
      SentBytes(s, oks[..n]) + (if oks[n] then Size(s, n) else 0)
  }

  /** The transmitter refuses only what does not fit beside the `backlog` that was unsent at
      the start of the pass and the bytes queued since; it may take more, since bytes leave
      the ring meanwhile. */
  ghost predicate IsFair(s: Slots, oks: seq<bool>, backlog: nat) {
    && |oks| <= SLOTS
    && forall i: Slot :: i < |oks| && backlog + SentBytes(s, oks[..i]) + Size(s, i) <= 63
                         ==> oks[i]
  }

  ghost predicate StartsEmpty(s: Slots, oks: seq<bool>) {
    |oks| == SLOTS && IsFair(s, oks, 0)
  }

  lemma {:induction false} ServeSlot(s: Slots, oks: seq<bool>, j: Slot)
    requires |oks| <= SLOTS
    ensures Owed(Serve(s, oks), j) == (if j < |oks| && oks[j] then None else Owed(s, j))
    ensures Size(Serve(s, oks), j) == (if j < |oks| && oks[j] then 0 else Size(s, j))
    ensures Serve(s, oks).blockRequested == s.blockRequested
  {
    if |oks| > 0 {
      ServeSlot(s, oks[..|oks| - 1], j);
    }
  }

  /** Unanswered bytes in the slots before `i`. */
  function SumOfSizes(s: Slots, i: nat): nat
    requires i <= SLOTS
  {
    if i == 0 then 0 else SumOfSizes(s, i - 1) + Size(s, i - 1)
  }

  lemma {:induction false} SentAtMost(s: Slots, oks: seq<bool>)
    requires |oks| <= SLOTS
    ensures SentBytes(s, oks) <= SumOfSizes(s, |oks|)
  {
    if |oks| > 0 {
      SentAtMost(s, oks[..|oks| - 1]);
    }
  }

  /** Slots 0 to 4 together never owe more than the ring holds: 14 + 9 + 14 + 14 + 12. */
  lemma FirstFiveFit(s: Slots, oks: seq<bool>, i: Slot)
    requires StartsEmpty(s, oks) && i <= 4
    ensures oks[i]
  {
    SentAtMost(s, oks[..i]);
    SizesOfFive(s, i);
  }

  lemma SizesOfFive(s: Slots, i: Slot)
    requires i <= 4
    ensures SumOfSizes(s, i) + Size(s, i) <= 63
  {
    var i1, i2, i3, i4 := 1, 2, 3, 4;
    assert SumOfSizes(s, i1) <= 14;
    assert SumOfSizes(s, i2) <= 23;
    assert SumOfSizes(s, i3) <= 37;
    assert SumOfSizes(s, i4) <= 51;
  }

  lemma LastFourFit(s: Slots, oks: seq<bool>, i: Slot)
    requires StartsEmpty(s, oks) && forall j: Slot :: j <= 4 ==> Owed(s, j).None?
    ensures oks[i]
  {
    SentAtMost(s, oks[..i]);
    SizesOfLast(s, i);
  }

  lemma {:induction false} SizesOfLast(s: Slots, i: Slot)
    requires forall j: Slot :: j <= 4 ==> Owed(s, j).None?
    ensures SumOfSizes(s, i) + Size(s, i) <= if i <= 4 then 0 else 14 * (i - 4)
  {
    if i > 0 {
      SizesOfLast(s, i - 1);
    }
  }

  /** With nothing new arriving, two passes that each start with an empty transmit ring
      queue everything that is owed. */
  lemma TwoPassesDrain(s: Slots, oks1: seq<bool>, oks2: seq<bool>)
    requires StartsEmpty(s, oks1) && StartsEmpty(Serve(s, oks1), oks2)
    ensures forall i: Slot :: Owed(Serve(Serve(s, oks1), oks2), i).None?
  {
    var mid := Serve(s, oks1);
    forall j: Slot ensures j <= 4 ==> Owed(mid, j).None? {
      ServeSlot(s, oks1, j);
      if j <= 4 {
        FirstFiveFit(s, oks1, j);
      }
    }
    forall i: Slot ensures Owed(Serve(mid, oks2), i).None? {
      LastFourFit(mid, oks2, i);
      ServeSlot(mid, oks2, i);
    }
  }

  lemma {:induction false} UnansweredAtMost(s: Slots, n: nat)
    requires n <= SLOTS
    ensures SumOfSizes(s, n) <= [0, 14, 23, 37, 51, 63, 77, 91, 98, 105][n]
  {
    if n > 0 {
      UnansweredAtMost(s, n - 1);
    }
  }

  lemma SizeAfterOffer(s: Slots, i: Slot, accepted: bool, j: Slot)
    ensures Size(Do(s, Offer(i, accepted)), j) == if accepted && i == j then 0 else Size(s, j)
  {
  }

  /** The unanswered bytes, at most 105, fall by the answer's size whenever one is taken. */
  lemma {:induction false} UnansweredFalls(s: Slots, i: Slot, accepted: bool, n: nat)
    requires n <= SLOTS
    ensures SumOfSizes(s, n) <= 105
    ensures SumOfSizes(Do(s, Offer(i, accepted)), n)
         == SumOfSizes(s, n) - (if accepted && i < n then Size(s, i) else 0)
  {
    hide Do, Size;
    UnansweredAtMost(s, n);
    if n > 0 {
      SizeAfterOffer(s, i, accepted, n - 1);
      UnansweredFalls(s, i, accepted, n - 1);
    }
  }

  function Repeat(b: bool, n: nat): (oks: seq<bool>)
    ensures |oks| == n && forall i :: 0 <= i < n ==> oks[i] == b
  {
    seq(n, _ => b)
  }

  lemma {:induction false} SentByGrants(s: Slots, n: nat)
    requires n <= SLOTS
    ensures SentBytes(s, Repeat(true, n)) == SumOfSizes(s, n)
  {
    if n > 0 {
      SentByGrants(s, n - 1);
      assert Repeat(true, n)[..n - 1] == Repeat(true, n - 1);
    }
  }

  lemma {:induction false} SentByRefusals(s: Slots, oks: seq<bool>, n: nat)
    requires |oks| + n <= SLOTS
    ensures SentBytes(s, oks + Repeat(false, n)) == SentBytes(s, oks)
  {
    if n == 0 {
      assert oks + Repeat(false, 0) == oks;
    } else {
      SentByRefusals(s, oks, n - 1);
      assert (oks + Repeat(false, n))[..|oks| + n - 1] == oks + Repeat(false, n - 1);
    }
  }

  /** One pass is not enough: when everything is owed, the 63 bytes of slots 0 to 4 fill the
      ring and slot 5 is still owed. */
  lemma OnePassIsNotEnough() returns (s: Slots, oks: seq<bool>)
    ensures StartsEmpty(s, oks) && Owed(Serve(s, oks), 5).Some?
  {
    var one := Some(1);
    s := Slots([one, one, one, one, one, one, one, one],
               Some(Frame(TYPE_ACK, 1, [0, 0, 0, 0, 0, 0, 0, 0])), false);
    var five := Repeat(true, 5);
    oks := five + Repeat(false, 4);
    SentByGrants(s, 5);
    var i1, i2, i3, i4 := 1, 2, 3, 4;
    assert SumOfSizes(s, i1) == 14;
    assert SumOfSizes(s, i2) == 23;
    assert SumOfSizes(s, i3) == 37;
    assert SumOfSizes(s, i4) == 51;
    assert SumOfSizes(s, 5) == 63;
    forall i: Slot | i >= 5 ensures SentBytes(s, oks[..i]) == 63 {
      SentByRefusals(s, five, i - 5);
      assert oks[..i] == five + Repeat(false, i - 5);
    }
    ServeSlot(s, oks, 5);
  }
}
