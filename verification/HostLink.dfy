/** The host end of the wire: `SerialLink` of supervisor/serial_link.py and
    `read_protocol_frame` of supervisor/main.py, under any chunking of the stream. */
module HostLink {
  import opened Bytes
  import opened Frames

  /** What one turn of the read loop meets: the deadline, `select` without data,
      `BlockingIOError`, or a read that may return up to `n` bytes (0 gives an empty chunk). */
  datatype Turn = DeadlinePassed | NotReadable | WouldBlock | Chunk(n: nat)

  datatype LinkError =
    | NegativeSize
    | NegativeTimeout
    | AlreadyOpen
    | NotOpen
    | TimedOut
    | PartialWrite
    | FlushFailed
    | Malformed(error: ProtocolError)

  /** How many of `want` bytes arrive before the turns run out. */
  function Received(turns: seq<Turn>, want: nat, available: nat): (n: nat)
    ensures n <= want && n <= available
    decreases |turns|
  {
    if want == 0 || |turns| == 0 then 0
    else match turns[0]
      case DeadlinePassed => 0
      case NotReadable => 0
      case WouldBlock => Received(turns[1..], want, available)
      case Chunk(n) =>
        var k := Min(n, Min(want, available));
        k + Received(turns[1..], want - k, available - k)
  }

  /** The turns that are left when the read ends; the turn that times out is spent. */
  function Left(turns: seq<Turn>, want: nat, available: nat): seq<Turn>
    decreases |turns|
  {
    if want == 0 || |turns| == 0 then turns
    else match turns[0]
      case DeadlinePassed => turns[1..]
      case NotReadable => turns[1..]
      case WouldBlock => Left(turns[1..], want, available)
      case Chunk(n) =>
        var k := Min(n, Min(want, available));
        Left(turns[1..], want - k, available - k)
  }

  // ----- when a read ends, without following it turn by turn -----

  /** A turn that ends the read in a timeout. */
  predicate IsStop(t: Turn) {
    t.DeadlinePassed? || t.NotReadable?
  }

  /** The turns before the first stop. */
  function BeforeStop(turns: seq<Turn>): (n: nat)
    ensures n <= |turns| && (n < |turns| ==> IsStop(turns[n]))
    ensures forall i :: 0 <= i < n ==> !IsStop(turns[i])
  {
    if |turns| == 0 || IsStop(turns[0]) then 0 else 1 + BeforeStop(turns[1..])
  }

  /** What the chunks of these turns offer together. */
  function Offered(turns: seq<Turn>): nat {
    if |turns| == 0 then 0
    else (if turns[0].Chunk? then turns[0].n else 0) + Offered(turns[1..])
  }

  /** Some turns without a stop offer `size` bytes, and so many are coming. */
  ghost predicate Arrives(turns: seq<Turn>, size: nat, available: nat) {
    size <= available && exists n: nat :: n <= |turns| && Offers(turns, n, size)
  }

  ghost predicate Offers(turns: seq<Turn>, n: nat, size: nat)
    requires n <= |turns|
  {
    (forall i :: 0 <= i < n ==> !IsStop(turns[i])) && Offered(turns[..n]) >= size
  }

  /** The first `n` turns are just enough for `size` bytes. */
  ghost predicate Brings(turns: seq<Turn>, n: nat, size: nat) {
    n <= |turns| && Offers(turns, n, size) && forall m: nat :: m < n ==> !Offers(turns, m, size)
  }

  lemma OffersNext(turns: seq<Turn>, n: nat, size: nat)
    requires 0 < n <= |turns| && !IsStop(turns[0])
    ensures var k := if turns[0].Chunk? then turns[0].n else 0;
      Offers(turns, n, size) <==> Offers(turns[1..], n - 1, if k < size then size - k else 0)
  {
    var rest := turns[1..];
    assert turns[..n][1..] == rest[..n - 1];
    assert (forall i :: 0 <= i < n ==> !IsStop(turns[i])) <==>
           (forall i :: 0 <= i < n - 1 ==> !IsStop(rest[i])) by {
      if forall i :: 0 <= i < n - 1 ==> !IsStop(rest[i]) {
        assert forall i :: 1 <= i < n ==> turns[i] == rest[i - 1];
      }
    }
  }

  /** How much is received, and which turns are left. */
  lemma {:induction false} ReceivedIs(turns: seq<Turn>, want: nat, available: nat)
    ensures Received(turns, want, available)
         == Min(want, Min(available, Offered(turns[..BeforeStop(turns)])))
    ensures Received(turns, want, available) < want ==>
      Left(turns, want, available) == turns[Min(|turns|, BeforeStop(turns) + 1)..]
    decreases |turns|
  {
    if want > 0 && |turns| > 0 && !IsStop(turns[0]) {
      var rest, b := turns[1..], BeforeStop(turns);
      var k := if turns[0].Chunk? then Min(turns[0].n, Min(want, available)) else 0;
      assert Received(turns, want, available) == k + Received(rest, want - k, available - k);
      assert Left(turns, want, available) == Left(rest, want - k, available - k);
      hide Received, Left;
      ReceivedIs(rest, want - k, available - k);
      assert turns[..b][1..] == rest[..b - 1];
    }
  }

  /** All is received exactly when it arrives, and the read takes just enough turns. */
  lemma {:induction false} ReceivedWhen(turns: seq<Turn>, want: nat, available: nat)
    ensures Received(turns, want, available) == want <==> Arrives(turns, want, available)
    ensures Received(turns, want, available) == want ==>
      exists n: nat :: Brings(turns, n, want) && Left(turns, want, available) == turns[n..]
    decreases |turns|
  {
    hide Offers;
    if want == 0 {
      NothingToOffer(turns);
      assert Brings(turns, 0, want) && turns[0..] == turns;
    } else if |turns| == 0 || IsStop(turns[0]) {
      NoOffer(turns, want);
    } else if available >= want {
      var rest := turns[1..];
      var k := if turns[0].Chunk? then Min(turns[0].n, Min(want, available)) else 0;
      ReceivedWhen(rest, want - k, available - k);
      ArrivesNext(turns, want, available);
      if Received(turns, want, available) == want {
        var m: nat :| Brings(rest, m, want - k) && Left(rest, want - k, available - k) == rest[m..];
        assert Brings(turns, m + 1, want) && turns[m + 1..] == rest[m..];
      }
    }
  }

  lemma ArrivesNext(turns: seq<Turn>, want: nat, available: nat)
    requires |turns| > 0 && !IsStop(turns[0]) && 0 < want <= available
    ensures var k := if turns[0].Chunk? then Min(turns[0].n, want) else 0;
      && Arrives(turns, want, available) == Arrives(turns[1..], want - k, available - k)
      && (forall m: nat :: m > 0 && Brings(turns[1..], m - 1, want - k) ==> Brings(turns, m, want))
  {
    hide Offers;
    var k, rest := if turns[0].Chunk? then Min(turns[0].n, want) else 0, turns[1..];
    NoOfferYet(turns, want);
    forall i: nat | 0 < i <= |turns|
      ensures Offers(turns, i, want) <==> Offers(rest, i - 1, want - k)
    {
      OffersNext(turns, i, want);
    }
    if Arrives(rest, want - k, available - k) {
      var i: nat :| i <= |rest| && Offers(rest, i, want - k);
      assert Offers(turns, i + 1, want);
    }
    if Arrives(turns, want, available) {
      var i: nat :| i <= |turns| && Offers(turns, i, want);
      assert Offers(rest, i - 1, want - k);
    }
  }

  lemma NothingToOffer(turns: seq<Turn>)
    ensures Offers(turns, 0, 0)
  {
  }

  lemma NoOfferYet(turns: seq<Turn>, size: nat)
    requires size > 0
    ensures !Offers(turns, 0, size)
  {
  }

  lemma NoOffer(turns: seq<Turn>, size: nat)
    requires size > 0 && (|turns| == 0 || IsStop(turns[0]))
    ensures forall n: nat :: n <= |turns| ==> !Offers(turns, n, size)
    ensures turns[..BeforeStop(turns)] == []
  {
  }

  /** The chunks that bring something before the first deadline. */
  function Productive(turns: seq<Turn>): nat
    decreases |turns|
  {
    if |turns| == 0 then 0
    else match turns[0]
      case DeadlinePassed => 0
      case NotReadable => 0
      case WouldBlock => Productive(turns[1..])
      case Chunk(n) => (if n > 0 then 1 else 0) + Productive(turns[1..])
  }

  ghost function ProductiveTurns(turns: seq<Turn>): set<nat> {
    set i: nat | i < BeforeStop(turns) && turns[i].Chunk? && turns[i].n > 0
  }

  lemma {:induction false} ProductiveAreCounted(turns: seq<Turn>)
    ensures Productive(turns) == |ProductiveTurns(turns)|
    decreases |turns|
  {
    if |turns| == 0 || IsStop(turns[0]) {
      assert ProductiveTurns(turns) == {};
    } else {
      ProductiveAreCounted(turns[1..]);
      OneTurnMore(turns);
    }
  }

  lemma OneTurnMore(turns: seq<Turn>)
    requires |turns| > 0 && !IsStop(turns[0])
    ensures |ProductiveTurns(turns)|
         == (if turns[0].Chunk? && turns[0].n > 0 then 1 else 0) + |ProductiveTurns(turns[1..])|
  {
    var all, rest := ProductiveTurns(turns), ProductiveTurns(turns[1..]);
    var later := all - {0};
    assert forall i: nat :: i in later <==> i > 0 && i - 1 in rest;
    SameSize(rest, later);
    if 0 in all {
      assert all == later + {0};
    } else {
      assert all == later;
    }
  }

  lemma {:induction false} SameSize(s: set<nat>, shifted: set<nat>)
    requires forall i: nat :: i in shifted <==> i > 0 && i - 1 in s
    ensures |shifted| == |s|
    decreases |s|
  {
    if s != {} {
      var x :| x in s;
      assert x + 1 - 1 in s;
      SameSize(s - {x}, shifted - {x + 1});
    } else {
      assert shifted == {};
    }
  }

  /** Chunks of any size: as many productive ones as bytes wanted suffice, and each byte read
      costs at most one of them. */
  lemma {:induction false} EnoughArrives(turns: seq<Turn>, want: nat, available: nat)
    requires want <= Productive(turns) && want <= available
    ensures Received(turns, want, available) == want
    ensures Productive(Left(turns, want, available)) >= Productive(turns) - want
    decreases |turns|
  {
    if want > 0 {
      match turns[0] {
        case WouldBlock => EnoughArrives(turns[1..], want, available);
        case Chunk(n) =>
          var k := Min(n, Min(want, available));
          EnoughArrives(turns[1..], want - k, available - k);
      }
    }
  }

  /** A read of a frame: its result, the bytes it takes and the turns it leaves. */
  datatype Reading = Reading(result: Result<Frame, LinkError>, taken: nat, left: seq<Turn>)

  function ReadFrame(turns: seq<Turn>, stream: seq<Octet>): (r: Reading)
    ensures r.taken <= |stream|
  {
    var header, left := Received(turns, 5, |stream|), Left(turns, 5, |stream|);
    if header < 5 then Reading(Err(TimedOut), header, left)
    else if stream[4] > MAX_PAYLOAD then Reading(Err(Malformed(LengthTooLarge)), 5, left)
    else
      var want := stream[4] + 1;
      var rest, later := Received(left, want, |stream| - 5), Left(left, want, |stream| - 5);
      if rest < want then Reading(Err(TimedOut), 5 + rest, later)
      else Reading(AsLinkResult(DecodeFrame(stream[..5 + want])), 5 + want, later)
  }

  /** The header arrives in the first `n` turns, and the rest, if it asks for any, after them. */
  ghost predicate ArrivesAfter(turns: seq<Turn>, stream: seq<Octet>, n: nat) {
    && Brings(turns, n, 5) && |stream| >= 5
    && (stream[4] > 8 || Arrives(turns[n..], stream[4] + 1, |stream| - 5))
  }

  ghost predicate FrameArrives(turns: seq<Turn>, stream: seq<Octet>) {
    exists n: nat :: ArrivesAfter(turns, stream, n)
  }

  /** A read of a frame does not time out exactly when the frame arrives; then it is judged by
      its length byte, and if that is at most 8 by all of its bytes. */
  lemma FrameIsReadWhen(turns: seq<Turn>, stream: seq<Octet>)
    ensures var r := ReadFrame(turns, stream);
      && (r.result != Err(TimedOut) <==> FrameArrives(turns, stream))
      && (FrameArrives(turns, stream) && stream[4] > 8 ==>
            r.result == Err(Malformed(LengthTooLarge)) && r.taken == 5)
      && (FrameArrives(turns, stream) && stream[4] <= 8 ==>
            && |stream| >= 6 + stream[4] && r.taken == 6 + stream[4]
            && r.result == AsLinkResult(DecodeFrame(stream[..6 + stream[4]])))
  {
    hide DecodeFrame, Received, Left, Arrives, Offers;
    ReceivedWhen(turns, 5, |stream|);
    if Received(turns, 5, |stream|) == 5 {
      var left := Left(turns, 5, |stream|);
      var n: nat :| Brings(turns, n, 5) && left == turns[n..];
      forall m: nat | Brings(turns, m, 5) ensures m == n {
        BringsOnce(turns, m, n, 5);
      }
      if stream[4] <= 8 {
        ReceivedWhen(left, stream[4] + 1, |stream| - 5);
      }
      assert ArrivesAfter(turns, stream, n)
        <==> stream[4] > 8 || Arrives(left, stream[4] + 1, |stream| - 5);
    } else {
      NoHeader(turns, stream);
    }
  }

  lemma BringsOnce(turns: seq<Turn>, m: nat, n: nat, size: nat)
    requires Brings(turns, m, size) && Brings(turns, n, size)
    ensures m == n
  {
  }

  lemma NoHeader(turns: seq<Turn>, stream: seq<Octet>)
    requires !Arrives(turns, 5, |stream|)
    ensures !FrameArrives(turns, stream)
  {
    hide Offers;
  }

  /** The chunks do not matter: a read gives what the stream spells, or it times out. */
  lemma ChunksDoNotMatter(turns: seq<Turn>, stream: seq<Octet>)
    ensures var r := ReadFrame(turns, stream);
      r.result != Err(TimedOut) ==> (r.result, r.taken) == Spelled(stream)
  {
  }

  /** It does not time out when the stream spells something and as many productive chunks come
      before the deadline as bytes are to be taken. */
  lemma ReadSucceeds(turns: seq<Turn>, stream: seq<Octet>)
    requires Spelled(stream).0 != Err(TimedOut) && Spelled(stream).1 <= Productive(turns)
    ensures var r := ReadFrame(turns, stream);
      && (r.result, r.taken) == Spelled(stream)
      && Productive(r.left) >= Productive(turns) - r.taken
  {
    hide DecodeFrame, Productive, Received, Left;
    EnoughArrives(turns, 5, |stream|);
    if stream[4] <= MAX_PAYLOAD {
      EnoughArrives(Left(turns, 5, |stream|), stream[4] + 1, |stream| - 5);
    }
  }

  /** How much of a write of `n` bytes the operating system takes; what is not told is all. */
  function TakenBy(writes: seq<nat>, n: nat): (k: nat)
    ensures k <= n
  {
    if |writes| == 0 then n else Min(writes[0], n)
  }

  class SerialLink {
    /** `_fd is not None`. */
    var isOpen: bool
    /** The bytes that this session will bring and that are still unread. */
    var incoming: seq<Octet>
    /** Everything written so far. */
    var outgoing: seq<Octet>
    /** The coming turns of read loops; when they run out the deadline passes. */
    var turns: seq<Turn>
    /** How much the coming writes take. */
    var writes: seq<nat>
    /** What the coming flushes find: how much of what is to come has arrived by then and is
        discarded, or an error. What is not told finds nothing. */
    var flushes: seq<Option<nat>>
    /** The recoveries that have been tried, and whether the flush was done. */
    ghost var recoveries: seq<bool>

    constructor (stream: seq<Octet>, turns: seq<Turn>, writes: seq<nat>, flushes: seq<Option<nat>>)
      ensures !isOpen && incoming == stream && outgoing == []
      ensures this.turns == turns && this.writes == writes && this.flushes == flushes
      ensures recoveries == []
    {
      isOpen, incoming, outgoing, recoveries := false, stream, [], [];
      this.turns, this.writes, this.flushes := turns, writes, flushes;
    }

    /** `open`, when the operating system lets it. */
    method Open() returns (r: Result<(), LinkError>)
      modifies `isOpen
      ensures isOpen && r == (if old(isOpen) then Err(AlreadyOpen) else Ok(()))
    {
      if isOpen {
        return Err(AlreadyOpen);
      }
      isOpen := true;
      r := Ok(());
    }

    /** `write`: all of the data, or an error after the part that was taken. */
    method Write(data: seq<Octet>) returns (r: Result<(), LinkError>)
      modifies `outgoing, `writes
      ensures data == [] ==> r == Ok(())
      ensures data != [] && !isOpen ==> r == Err(NotOpen)
      ensures data == [] || !isOpen ==> outgoing == old(outgoing) && writes == old(writes)
      ensures data != [] && isOpen ==>
        var k := TakenBy(old(writes), |data|);
        && k == (if old(writes) == [] then |data| else Min(old(writes)[0], |data|))
        && outgoing == old(outgoing) + data[..k]
        && r == (if k == |data| then Ok(()) else Err(PartialWrite))
        && writes == (if |old(writes)| == 0 then [] else old(writes)[1..])
    {
      if data == [] {
        return Ok(());
      }
      if !isOpen {
        return Err(NotOpen);
      }
      var written := TakenBy(writes, |data|);
      if writes != [] {
        writes := writes[1..];
      }
      outgoing := outgoing + data[..written];
      if written != |data| {
        return Err(PartialWrite);
      }
      r := Ok(());
    }

    /** `recover_rx_after_timeout`: what has arrived meanwhile is thrown away. */
    method RecoverRxAfterTimeout() returns (r: Result<(), LinkError>)
      modifies `incoming, `recoveries, `flushes
      ensures recoveries == old(recoveries) + [r.Ok?]
      ensures !isOpen ==>
        r == Err(NotOpen) && incoming == old(incoming) && flushes == old(flushes)
      ensures isOpen ==>
        var arrived := if old(flushes) == [] then Some(0) else old(flushes)[0];
        && r == (if arrived.Some? then Ok(()) else Err(FlushFailed))
        && incoming == (if arrived.Some?
                        then old(incoming)[Min(arrived.value, |old(incoming)|)..]
                        else old(incoming))
        && flushes == (if old(flushes) == [] then [] else old(flushes)[1..])
    {
      if !isOpen {
        recoveries := recoveries + [false];
        return Err(NotOpen);
      }
      var arrived := Some(0);
      if flushes != [] {
        arrived, flushes := flushes[0], flushes[1..];
      }
      recoveries := recoveries + [arrived.Some?];
      if arrived.None? {
        return Err(FlushFailed);
      }
      incoming := incoming[Min(arrived.value, |incoming|)..];
      r := Ok(());
    }

    /** `os.read` for at most `size` bytes. */
    method OsRead(n: nat, size: nat) returns (chunk: seq<Octet>)
      modifies `incoming
      ensures |chunk| == Min(n, Min(size, |old(incoming)|)) && old(incoming) == chunk + incoming
    {
      var k := Min(n, Min(size, |incoming|));
      chunk := incoming[..k];
      incoming := incoming[k..];
    }

    /** `read_exact`. It succeeds exactly when all the bytes arrive in time, and then returns
        and consumes precisely those; a timeout loses the bytes received so far. */
    method ReadExact(size: int, timeout: real) returns (r: Result<seq<Octet>, LinkError>)
      modifies `incoming, `turns
      ensures size < 0 ==> r == Err(NegativeSize)
      ensures size >= 0 && timeout < 0.0 ==> r == Err(NegativeTimeout)
      ensures size == 0 && timeout >= 0.0 ==> r == Ok([])
      ensures size > 0 && timeout >= 0.0 && !isOpen ==> r == Err(NotOpen)
      ensures size <= 0 || timeout < 0.0 || !isOpen ==>
        incoming == old(incoming) && turns == old(turns)
      ensures size > 0 && timeout >= 0.0 && isOpen ==>
        var n := Received(old(turns), size, |old(incoming)|);
        && incoming == old(incoming)[n..] && turns == Left(old(turns), size, |old(incoming)|)
        && r == (if n == size then Ok(old(incoming)[..size]) else Err(TimedOut))
      ensures r.Ok? ==> |r.value| == size && old(incoming) == r.value + incoming
      // That is: it succeeds if and only if the bytes arrive before a deadline, in just enough
      // turns; otherwise it times out with what the chunks before the deadline brought.
      ensures size > 0 && timeout >= 0.0 && isOpen ==>
        && (r.Ok? <==> Arrives(old(turns), size, |old(incoming)|))
        && (r.Ok? ==> exists n: nat :: Brings(old(turns), n, size) && turns == old(turns)[n..])
      ensures size > 0 && timeout >= 0.0 && isOpen && r.Err? ==>
        var n := BeforeStop(old(turns));
        && r.error == TimedOut && turns == old(turns)[Min(|old(turns)|, n + 1)..]
        && incoming == old(incoming)[Min(|old(incoming)|, Offered(old(turns)[..n]))..]
    {
      hide Received, Left, BeforeStop, Offered, Arrives, Offers;
      if size < 0 {
        return Err(NegativeSize);
      }
      if timeout < 0.0 {
        return Err(NegativeTimeout);
      }
      if size == 0 {
        return Ok([]);
      }
      if !isOpen {
        return Err(NotOpen);
      }
      ReceivedWhen(turns, size, |incoming|);
      ReceivedIs(turns, size, |incoming|);
      r := ReadTurns(size);
    }

    /** The read loop, turn by turn. */
    method ReadTurns(size: nat) returns (r: Result<seq<Octet>, LinkError>)
      modifies `incoming, `turns
      ensures var n := Received(old(turns), size, |old(incoming)|);
        && incoming == old(incoming)[n..] && turns == Left(old(turns), size, |old(incoming)|)
        && r == (if n == size then Ok(old(incoming)[..size]) else Err(TimedOut))
    {
      var received: seq<Octet> := [];
      while |received| < size
        invariant |received| <= size && old(incoming) == received + incoming
        invariant Received(old(turns), size, |old(incoming)|)
               == |received| + Received(turns, size - |received|, |incoming|)
        invariant Left(old(turns), size, |old(incoming)|)
               == Left(turns, size - |received|, |incoming|)
        decreases |turns|
      {
        if turns == [] {
          return Err(TimedOut);
        }
        var turn := turns[0];
        turns := turns[1..];
        if turn == DeadlinePassed || turn == NotReadable {
          return Err(TimedOut);
        }
        if turn.Chunk? {
          var chunk := OsRead(turn.n, size - |received|);
          received := received + chunk;
        }
      }
      r := Ok(received);
    }

    /** `read_protocol_frame`. `ReadFrame` is exact; `ReadSucceeds` says when it gives what the
        stream spells, and `ChunksDoNotMatter` that it never gives anything else. */
    method ReadProtocolFrame(timeout: real) returns (r: Result<Frame, LinkError>)
      modifies `incoming, `turns
      ensures timeout < 0.0 ==> r == Err(NegativeTimeout)
      ensures timeout >= 0.0 && !isOpen ==> r == Err(NotOpen)
      ensures timeout < 0.0 || !isOpen ==> incoming == old(incoming) && turns == old(turns)
      ensures timeout >= 0.0 && isOpen ==>
        var reading := ReadFrame(old(turns), old(incoming));
        && r == reading.result && turns == reading.left
        && incoming == old(incoming)[reading.taken..]
      ensures timeout >= 0.0 && isOpen ==>
        (r == Err(TimedOut) <==> !FrameArrives(old(turns), old(incoming)))
    {
      hide Received, Left, DecodeFrame, FrameArrives, Arrives, Brings, BeforeStop, Offered;
      FrameIsReadWhen(turns, incoming);
      var header := ReadExact(5, timeout);
      if header.Err? {
        return Err(header.error);
      }
      var payloadLength := header.value[4];
      if payloadLength > MAX_PAYLOAD {
        return Err(Malformed(LengthTooLarge));
      }
      var rest := ReadExact(payloadLength + 1, timeout);
      if rest.Err? {
        return Err(rest.error);
      }
      var data := header.value + rest.value;
      assert old(incoming) == data + incoming;
      r := AsLinkResult(DecodeFrame(data));
    }
  }

  function AsLinkResult(r: Result<Frame, ProtocolError>): Result<Frame, LinkError> {
    match r
    case Ok(f) => Ok(f)
    case Err(e) => Err(Malformed(e))
  }

  /** The answer that the head of a stream spells, and the number of bytes that it takes. */
  function Spelled(stream: seq<Octet>): (Result<Frame, LinkError>, nat) {
    if |stream| < 5 then (Err(TimedOut), 0)
    else if stream[4] > MAX_PAYLOAD then (Err(Malformed(LengthTooLarge)), 5)
    else
      var n := OVERHEAD + stream[4];
      if |stream| < n then (Err(TimedOut), 5)
      else (AsLinkResult(DecodeFrame(stream[..n])), n)
  }

  /** A stream that starts with an encoded frame spells that frame. */
  lemma SpelledFrame(f: WireFrame, rest: seq<Octet>)
    ensures Spelled(Encode(f) + rest) == (Ok(f), OVERHEAD + |f.payload|)
  {
    hide Crc8.Crc;
    var stream, n := Encode(f) + rest, OVERHEAD + |f.payload|;
    assert stream[..n] == Encode(f);
    RoundTrip(f);
  }

  lemma {:induction false} EncodedPrefix(frames: seq<WireFrame>, j: nat, m: nat)
    requires j <= m <= |frames|
    ensures |EncodeAll(frames[..j])| <= |EncodeAll(frames[..m])|
    ensures j < |frames| ==>
      |EncodeAll(frames[..j + 1])| == |EncodeAll(frames[..j])| + |Encode(frames[j])|
    decreases m
  {
    hide Encode;
    if j < m {
      EncodedPrefix(frames, j, m - 1);
      assert frames[..m] == frames[..m - 1] + [frames[m - 1]];
      EncodeAllAppend(frames[..m - 1], frames[m - 1]);
    }
    if j < |frames| {
      assert frames[..j + 1] == frames[..j] + [frames[j]];
      EncodeAllAppend(frames[..j], frames[j]);
    }
  }

  /** Reading frame `j` of a list that began when `start` productive chunks were left. */
  lemma NextComes(frames: seq<WireFrame>, j: nat, turns: seq<Turn>, stream: seq<Octet>,
                  rest: seq<Octet>, start: nat)
    requires j < |frames| && stream == EncodeAll(frames[j..]) + rest
    requires start >= |EncodeAll(frames[..j])| ==>
      Productive(turns) >= start - |EncodeAll(frames[..j])|
    ensures var r := ReadFrame(turns, stream);
      && (r.result == Ok(frames[j]) || r.result == Err(TimedOut))
      && (r.result.Ok? ==> stream[r.taken..] == EncodeAll(frames[j + 1..]) + rest)
      && (start >= |EncodeAll(frames[..j + 1])| ==>
            r.result.Ok? && Productive(r.left) >= start - |EncodeAll(frames[..j + 1])|)
      && (r.result.Err? ==> forall m :: j < m <= |frames| ==> start < |EncodeAll(frames[..m])|)
  {
    hide Encode, DecodeFrame, Spelled, ReadFrame, Productive;
    var f, later := frames[j], frames[j + 1..];
    assert frames[j..][1..] == later;
    assert stream == Encode(f) + (EncodeAll(later) + rest);
    SpelledFrame(f, EncodeAll(later) + rest);
    ChunksDoNotMatter(turns, stream);
    hide EncodeAll;
    EncodedPrefix(frames, j, j);
    if start >= |EncodeAll(frames[..j + 1])| {
      ReadSucceeds(turns, stream);
    }
    forall m | j < m <= |frames| ensures |EncodeAll(frames[..j + 1])| <= |EncodeAll(frames[..m])| {
      EncodedPrefix(frames, j + 1, m);
    }
  }

  /** The frames of any list, sent by either end, are read back one by one, each taking
      exactly its own bytes, in any chunking: as many of them as there are productive chunks
      for before a deadline, and all of them when there are as many as bytes. */
  method ReadBack(link: SerialLink, ghost frames: seq<WireFrame>, ghost rest: seq<Octet>, count: nat,
                  timeout: real) returns (received: seq<Frame>, last: Result<(), LinkError>)
    requires link.isOpen && timeout >= 0.0 && count == |frames|
    requires link.incoming == EncodeAll(frames) + rest
    modifies link`incoming, link`turns
    ensures |received| <= |frames| && received == frames[..|received|]
    ensures last.Ok? ==> received == frames && link.incoming == rest
    ensures last.Err? ==> last.error == TimedOut && |received| < |frames|
    ensures forall m :: 0 <= m <= |frames| && Productive(old(link.turns)) >= |EncodeAll(frames[..m])|
                        ==> m <= |received|
    ensures Productive(old(link.turns)) >= |EncodeAll(frames)| ==> last.Ok?
  {
    hide EncodeAll, ReadFrame, Productive, FrameArrives;
    received, last := [], Ok(());
    while |received| < count
      invariant |received| <= |frames| && received == frames[..|received|]
      invariant link.incoming == EncodeAll(frames[|received|..]) + rest
      invariant Productive(old(link.turns)) >= |EncodeAll(frames[..|received|])| ==>
        Productive(link.turns) >= Productive(old(link.turns)) - |EncodeAll(frames[..|received|])|
    {
      NextComes(frames, |received|, link.turns, link.incoming, rest, Productive(old(link.turns)));
      var r := link.ReadProtocolFrame(timeout);
      if r.Err? {
        assert frames[..|frames|] == frames;
        return received, Err(r.error);
      }
      received := received + [r.value];
    }
    assert frames[..|frames|] == frames;
    NothingLeft(frames);
  }

  lemma NothingLeft(frames: seq<WireFrame>)
    ensures EncodeAll(frames[|frames|..]) == []
  {
  }
}
