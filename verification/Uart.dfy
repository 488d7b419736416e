/** firmware/hal/uart.c: two rings shared with interrupt routines, without locks.

    Interrupts are modelled by `Interrupts()`, which runs the two service routines any
    number of times in any order and is called between every two accesses that foreground
    code makes to shared memory. Routines themselves are not interrupted. */
module Uart {
  import opened Bytes
  import opened Ring
  import F = RxTiming

  const RX_SIZE := 32
  const TX_SIZE := 64
  const TX_FREE := TX_SIZE - 1

  /** The enable bits of UCSR0B. */
  datatype Control = Control(txen: bool, rxen: bool, rxcie: bool, udrie: bool)

  /** The arrived bytes that were not lost. */
  function Survivors(arrived: seq<Octet>, stored: seq<bool>): (r: seq<Octet>)
    requires |arrived| == |stored|
    ensures |r| <= |arrived|
  {
    if |arrived| == 0 then []
    else
      var n := |arrived| - 1;
      Survivors(arrived[..n], stored[..n]) + (if stored[n] then [arrived[n]] else [])
  }

  lemma OneMore(arrived: seq<Octet>, stored: seq<bool>, b: Octet, kept: bool)
    requires |arrived| == |stored|
    ensures Survivors(arrived + [b], stored + [kept])
         == Survivors(arrived, stored) + (if kept then [b] else [])
  {
    assert (arrived + [b])[..|arrived|] == arrived && (stored + [kept])[..|arrived|] == stored;
  }

  class Uart {
    const rxBuffer: array<Octet>
    var rxHead: nat
    var rxTail: nat
    var rxOverflowCount: nat
    const txBuffer: array<Octet>
    var txHead: nat
    var txTail: nat
    var ucsr0b: Control

    /** Bytes still to come over the wire. */
    var line: seq<Octet>

    // Histories: arrived (and whether each byte was stored), stored in the ring, lost,
    // returned to the caller; accepted for transmission, and written to UDR0.
    ghost var seen: seq<Octet>
    ghost var stored: seq<bool>
    ghost var kept: seq<Octet>
    ghost var dropped: nat
    ghost var delivered: seq<Octet>
    ghost var accepted: seq<Octet>
    ghost var sent: seq<Octet>

    // CPU cycles so far, and what has happened to the receive ring, with its times.
    ghost var cycle: nat
    ghost var rxLog: seq<F.Event>

    /** The caller may say until when the time at hand lasts. */
    ghost var horizon: Option<nat>

    // The state of an unfinished `uart_tx_write`: bytes copied past the published head,
    // and whether the interrupt enable is still to be stored.
    ghost var staged: seq<Octet>
    ghost var stagedHead: nat
    ghost var kicking: bool

    ghost predicate RxShape()
      reads `rxHead, `rxTail
    {
      rxBuffer.Length == RX_SIZE && rxHead < RX_SIZE && rxTail < RX_SIZE
    }

    ghost predicate TxShape()
      reads `txHead, `txTail, `stagedHead
    {
      txBuffer.Length == TX_SIZE && txHead < TX_SIZE && txTail < TX_SIZE && stagedHead < TX_SIZE
    }

    ghost function RxQueue(): seq<Octet>
      requires RxShape()
      reads `rxHead, `rxTail, rxBuffer
    {
      Contents(rxBuffer[..], rxHead, rxTail)
    }

    ghost function TxQueue(): seq<Octet>
      requires TxShape()
      reads `txHead, `txTail, `stagedHead, txBuffer
    {
      Contents(txBuffer[..], txHead, txTail)
    }

    /** How full the ring is and what has been lost, as `RxTiming` counts them. */
    ghost function Level(): F.Fill
      requires RxShape()
      reads `rxHead, `rxTail, rxBuffer, `dropped
    {
      F.Fill(|RxQueue()|, dropped)
    }

    /** The log is a run of the counting model, up to now, and ends where the ring is. */
    ghost predicate RxLogged()
      requires RxShape()
      reads `rxHead, `rxTail, rxBuffer, `dropped, `cycle, `rxLog
    {
      && F.IsRun(F.Fill(0, 0), rxLog, 0) && F.LastTime(rxLog, 0) <= cycle
      && F.DoAll(F.Fill(0, 0), rxLog) == Level()
    }

    /** The receive side is a FIFO that loses only what it counts. */
    ghost predicate RxInv()
      requires RxShape()
      reads `rxHead, `rxTail, rxBuffer, `rxOverflowCount,
        `seen, `stored, `kept, `dropped, `delivered
    {
      && kept == delivered + RxQueue()
      && |stored| == |seen| && kept == Survivors(seen, stored)
      && |seen| == |kept| + dropped
      && rxOverflowCount == Min(255, dropped)
    }

    /** The transmit side is a FIFO, and outside the kick a non-empty ring is being sent. */
    ghost predicate TxInv()
      requires TxShape()
      reads `txHead, `txTail, `stagedHead, txBuffer, `ucsr0b, `accepted, `sent, `staged, `kicking
    {
      && accepted == sent + TxQueue()
      && Contents(txBuffer[..], stagedHead, txTail) == TxQueue() + staged
      && (txHead != txTail && !kicking ==> ucsr0b.udrie)
    }

    ghost predicate Rings()
      reads this, rxBuffer, txBuffer
    {
      rxBuffer != txBuffer && RxShape() && RxInv() && TxShape() && TxInv()
      && ucsr0b.txen && ucsr0b.rxen && ucsr0b.rxcie && (horizon.Some? ==> cycle <= horizon.value)
    }

    /** Holds at every instant, also inside foreground calls. */
    ghost predicate Inv()
      reads this, rxBuffer, txBuffer
    {
      Rings() && RxLogged()
    }

    /** Holds between foreground calls. */
    ghost predicate Valid()
      reads this, rxBuffer, txBuffer
    {
      Inv() && staged == [] && stagedHead == txHead && !kicking
    }

    constructor (wire: seq<Octet>)
      ensures Valid() && line == wire && fresh(rxBuffer) && fresh(txBuffer)
      ensures seen == kept == delivered == accepted == sent == [] && dropped == 0
      ensures rxLog == [] && cycle == 0 && horizon == None
    {
      rxBuffer := new Octet[RX_SIZE](_ => 0);
      txBuffer := new Octet[TX_SIZE](_ => 0);
      rxHead, rxTail, rxOverflowCount, txHead, txTail := 0, 0, 0, 0, 0;
      ucsr0b := Control(true, true, true, false);
      line := wire;
      seen, stored, kept, dropped, delivered, accepted, sent := [], [], [], 0, [], [], [];
      staged, stagedHead, kicking, cycle, rxLog, horizon := [], 0, false, 0, [], None;
    }

    /** The log catches up with the ring after event `e`. */
    ghost method Log(e: F.Event, was: F.Fill)
      requires Rings() && F.IsRun(F.Fill(0, 0), rxLog, 0) && F.LastTime(rxLog, 0) <= cycle
      requires F.DoAll(F.Fill(0, 0), rxLog) == was && Level() == F.Do(was, e)
      requires F.TimeOf(e) == cycle && (e.FoundEmpty? ==> was.queued == 0)
      modifies `rxLog
      ensures Inv() && rxLog == old(rxLog) + [e]
    {
      hide Contents, RxInv, TxInv, F.IsRun, F.DoAll, F.LastTime, F.Do;
      F.OneMoreEvent(F.Fill(0, 0), rxLog, 0, e);
      rxLog := rxLog + [e];
    }

    /** The two stores of `USART_RX_vect` when there is room. */
    method Keep(head: nat, byte: Octet)
      requires Rings() && head == rxHead && |RxQueue()| < RX_SIZE - 1
      modifies `rxHead, `seen, `stored, `kept, rxBuffer
      ensures Rings() && seen == old(seen) + [byte] && stored == old(stored) + [true]
      ensures kept == old(kept) + [byte] && |RxQueue()| == |old(RxQueue())| + 1
    {
      hide Contents, TxInv, Survivors;
      ghost var b := rxBuffer[..];
      EmptyAndFull(b, head, rxTail);
      Push(b, head, rxTail, byte);
      OneMore(seen, stored, byte, true);
      rxBuffer[head] := byte;
      rxHead := (head + 1) % RX_SIZE;
      assert rxHead == Next(head, RX_SIZE) && rxBuffer[..] == b[head := byte];
      seen, kept, stored := seen + [byte], kept + [byte], stored + [true];
    }

    /** The overflow branch of `USART_RX_vect`. */
    method Drop(ghost byte: Octet)
      requires Rings()
      modifies `rxOverflowCount, `seen, `stored, `dropped
      ensures Rings() && seen == old(seen) + [byte] && stored == old(stored) + [false]
      ensures dropped == old(dropped) + 1
    {
      hide Contents, TxInv, Survivors;
      OneMore(seen, stored, byte, false);
      if rxOverflowCount != UINT8_MAX {
        rxOverflowCount := rxOverflowCount + 1;
      }
      seen, dropped, stored := seen + [byte], dropped + 1, stored + [false];
    }

    /** `USART_RX_vect`. */
    method RxIsr()
      requires Inv() && line != []
      modifies `rxHead, `rxOverflowCount, `line, `seen, `stored, `kept, `dropped, `rxLog, rxBuffer
      ensures Inv() && line == old(line)[1..]
      ensures var full := |old(RxQueue())| == 31;
        && seen == old(seen) + [old(line)[0]] && stored == old(stored) + [!full]
        && kept == old(kept) + (if full then [] else [old(line)[0]])
        && dropped == old(dropped) + (if full then 1 else 0)
      ensures rxLog == old(rxLog) + [F.Arrive(cycle)]
    {
      hide Contents, RxInv, TxInv, F.IsRun, F.DoAll, F.LastTime;
      ghost var was := Level();
      var byte := line[0];
      line := line[1..];
      var head := rxHead;
      var nextHead := (head + 1) % RX_SIZE;
      assert nextHead == Next(head, RX_SIZE);
      EmptyAndFull(rxBuffer[..], rxHead, rxTail);
      if nextHead != rxTail {
        Keep(head, byte);
      } else {
        Drop(byte);
      }
      Log(F.Arrive(cycle), was);
    }

    /** `USART_UDRE_vect`. */
    method UdreIsr()
      requires Inv() && ucsr0b.udrie
      modifies `txTail, `ucsr0b, `sent
      ensures Inv()
      ensures old(TxQueue()) != [] ==> sent == old(sent) + [old(TxQueue())[0]]
      ensures old(TxQueue()) != [] ==> TxQueue() == old(TxQueue())[1..] && ucsr0b == old(ucsr0b)
      ensures old(TxQueue()) == [] ==> sent == old(sent) && TxQueue() == [] && !ucsr0b.udrie
    {
      hide Contents, RxInv, RxLogged;
      var tail := txTail;
      EmptyAndFull(txBuffer[..], txHead, txTail);
      if txHead != tail {
        Pop(txBuffer[..], txHead, tail);
        PopBoth(txBuffer[..], txHead, stagedHead, tail, staged);
        sent := sent + [txBuffer[tail]];
        txTail := (tail + 1) % TX_SIZE;
        assert txTail == Next(tail, TX_SIZE);
        assert accepted == sent + TxQueue();
      } else {
        ucsr0b := ucsr0b.(udrie := false);
      }
    }

    /** What interrupts may do to foreground code: histories grow, queues are consumed from
        the front and filled at the back, and nothing the foreground owns moves. */
    twostate predicate OnlyInterrupts()
      reads this, rxBuffer, txBuffer
    {
      && old(seen) <= seen && old(stored) <= stored
      && old(kept) <= kept && old(dropped) <= dropped
      && old(sent) <= sent && |old(line)| >= |line| && old(seen + line) == seen + line
      && old(rxLog) <= rxLog && old(cycle) <= cycle && horizon == old(horizon)
      && delivered == old(delivered) && accepted == old(accepted)
      && rxTail == old(rxTail) && txHead == old(txHead)
      && staged == old(staged) && stagedHead == old(stagedHead) && kicking == old(kicking)
      && txBuffer[..] == old(txBuffer[..])
    }

    /** What every foreground call guarantees. */
    twostate predicate Grown()
      reads this
    {
      Extended() && horizon == old(horizon)
    }

    /** The histories grow. */
    twostate predicate Extended()
      reads this
    {
      && old(seen) <= seen && old(stored) <= stored
      && old(kept) <= kept && old(dropped) <= dropped
      && old(sent) <= sent && old(accepted) <= accepted && old(delivered) <= delivered
      && old(seen + line) == seen + line && old(rxLog) <= rxLog && old(cycle) <= cycle
    }

    /** The ring has been found empty since. */
    twostate predicate WasEmptied()
      reads this
    {
      exists i: nat :: |old(rxLog)| <= i < |rxLog| && rxLog[i].FoundEmpty? && rxLog[i].t >= old(cycle)
    }

    /** While no write is published, interrupts can only free transmit space: a stale `tail`
        under-estimates it. */
    twostate lemma QueueOnlyShrinks()
      requires old(Inv()) && Inv() && OnlyInterrupts()
      ensures |TxQueue()| <= |old(TxQueue())|
    {
      hide Contents;
    }

    lemma Used(buffer: seq<Octet>, head: nat, tail: nat)
      requires |buffer| == TX_SIZE && InRing(buffer, head, tail)
      ensures (head - tail) % TX_SIZE == |Contents(buffer, head, tail)|
    {
    }

    /** `tx_buffer[head] = data[index]`: the slot is past everything published. */
    method Stage(head: nat, x: Octet)
      requires Inv() && head == stagedHead && |TxQueue()| + |staged| < TX_FREE
      modifies txBuffer, `staged, `stagedHead
      ensures Inv() && txBuffer[..] == old(txBuffer[..])[old(stagedHead) := x]
      ensures TxQueue() == old(TxQueue())
      ensures staged == old(staged) + [x] && stagedHead == (old(stagedHead) + 1) % TX_SIZE
    {
      hide Contents, RxInv, RxLogged;
      ghost var b := txBuffer[..];
      EmptyAndFull(b, stagedHead, txTail);
      Push(b, stagedHead, txTail, x);
      WriteBeyond(b, txHead, stagedHead, txTail, x);
      txBuffer[head] := x;
      assert txBuffer[..] == b[stagedHead := x];
      staged := staged + [x];
      stagedHead := (stagedHead + 1) % TX_SIZE;
      assert stagedHead == Next(old(stagedHead), TX_SIZE);
    }

    /** `tx_head = head`. */
    method Publish(head: nat)
      requires Inv() && head == stagedHead
      modifies `txHead, `accepted, `staged, `kicking
      ensures Inv() && kicking && staged == [] && stagedHead == txHead == head
      ensures accepted == old(accepted) + old(staged)
    {
      hide Contents, RxInv, RxLogged;
      txHead := head;
      accepted, staged, kicking := accepted + staged, [], true;
    }

    /** The store of `UCSR0B |= (1 << UDRIE0)`, with a value loaded earlier. */
    method Kick(loaded: Control)
      requires Inv() && kicking && loaded.txen && loaded.rxen && loaded.rxcie
      modifies `ucsr0b, `kicking
      ensures Inv() && !kicking
    {
      hide Contents, RxInv, RxLogged;
      ucsr0b := loaded.(udrie := true);
      kicking := false;
    }

    /** The two loads of `uart_read_byte` that look for a byte. */
    method LooksFull() returns (found: bool)
      requires Inv()
      modifies this, rxBuffer
      ensures Inv() && OnlyInterrupts() && found == (old(RxQueue()) != [])
      ensures !found ==> WasEmptied()
    {
      hide Contents, RxInv, TxInv, RxLogged;
      var head := rxHead;
      EmptyAndFull(rxBuffer[..], rxHead, rxTail);
      if head == rxTail {
        NoteEmpty();
        assert rxLog[|old(rxLog)|] == F.FoundEmpty(old(cycle));
      }
      label loaded:
      Interrupts();
      QueueOnlyGrows@loaded();
      found := head != rxTail;
      assert !found ==> rxLog[|old(rxLog)|] == F.FoundEmpty(old(cycle));
    }

    /** Ghost: the ring is empty now. */
    ghost method NoteEmpty()
      requires Inv() && RxQueue() == []
      modifies `rxLog
      ensures Inv() && rxLog == old(rxLog) + [F.FoundEmpty(cycle)]
    {
      hide Contents, RxInv, TxInv, F.IsRun, F.DoAll, F.LastTime;
      Log(F.FoundEmpty(cycle), Level());
    }

    /** The loads of `uart_read_byte`. */
    method Peek() returns (found: bool, byte: Octet)
      requires Inv()
      modifies this, rxBuffer
      ensures Inv() && OnlyInterrupts() && found == (old(RxQueue()) != [])
      ensures found ==> RxQueue() != [] && byte == RxQueue()[0] == old(RxQueue())[0]
      ensures !found ==> WasEmptied()
    {
      hide Contents, RxInv, TxInv, RxLogged;
      byte := 0;
      found := LooksFull();
      if found {
        QueueOnlyGrows();
        Interrupts();
        QueueOnlyGrows();
        var tail := rxTail;
        Interrupts();
        QueueOnlyGrows();
        FirstByte();
        byte := rxBuffer[tail];
        Interrupts();
        QueueOnlyGrows();
      }
    }

    /** `uart_read_byte`. A failing call has found the ring empty. */
    method ReadByte() returns (ok: bool, byte: Octet)
      requires Valid()
      modifies this, rxBuffer
      ensures Valid() && Grown() && accepted == old(accepted)
      ensures ok == (old(RxQueue()) != [])
      ensures ok ==> byte == old(RxQueue())[0] && delivered == old(delivered) + [byte]
      ensures !ok ==> delivered == old(delivered) && WasEmptied()
      ensures !ok && old(line) == [] ==> kept == delivered
    {
      hide Contents, RxInv, TxInv, RxLogged;
      ok, byte := Peek();
      if old(line) == [] {
        NothingArrives();
      }
      NothingUnread();
      if ok {
        Advance(rxTail, byte);
        Interrupts();
      }
    }

    /** Without foreground reads the receive queue only gains bytes at its end: no unread
        slot is overwritten. */
    twostate lemma QueueOnlyGrows()
      requires old(Inv()) && Inv() && OnlyInterrupts()
      ensures old(RxQueue()) <= RxQueue()
    {
      hide Contents;
      assert kept[..|old(kept)|] == old(kept);
      assert RxQueue() == kept[|delivered|..];
      assert old(RxQueue()) == old(kept)[|delivered|..];
    }

    /** Nothing can arrive from an idle line. */
    twostate lemma NothingArrives()
      requires old(Inv()) && Inv() && Extended() && old(line) == []
      ensures line == [] && kept == old(kept)
    {
      hide Contents, Survivors;
      assert |seen + line| == |old(seen)|;
      assert |kept| == |old(kept)|;
    }

    twostate lemma NothingCame()
      requires old(Valid()) && Valid() && Extended()
      ensures old(line) == [] ==> line == [] && kept == old(kept)
    {
      hide Contents, RxInv, TxInv, RxLogged;
      if old(line) == [] {
        NothingArrives();
      }
    }

    twostate lemma NothingUnread()
      requires old(Inv())
      ensures old(RxQueue()) == [] ==> old(kept) == old(delivered)
    {
      hide Contents, Survivors;
    }

    lemma FirstByte()
      requires Inv() && RxQueue() != []
      ensures RxQueue()[0] == rxBuffer[rxTail]
    {
      EmptyAndFull(rxBuffer[..], rxHead, rxTail);
      Pop(rxBuffer[..], rxHead, rxTail);
    }

    /** `rx_tail = (tail + 1) & mask`. */
    method Advance(tail: nat, ghost byte: Octet)
      requires Inv() && tail == rxTail && RxQueue() != [] && byte == RxQueue()[0]
      modifies `rxTail, `delivered, `rxLog
      ensures Inv() && delivered == old(delivered) + [byte]
      ensures RxQueue() == old(RxQueue())[1..] && rxLog == old(rxLog) + [F.Read(cycle)]
    {
      hide Contents, TxInv, F.IsRun, F.DoAll, F.LastTime;
      ghost var was := Level();
      EmptyAndFull(rxBuffer[..], rxHead, rxTail);
      Pop(rxBuffer[..], rxHead, rxTail);
      rxTail := (tail + 1) % RX_SIZE;
      assert rxTail == Next(tail, RX_SIZE);
      delivered := delivered + [byte];
      Log(F.Read(cycle), was);
    }

    ghost method TimePasses()
      requires Inv()
      modifies `cycle
      ensures Inv() && cycle >= old(cycle)
    {
      hide Contents, RxInv, TxInv;
      var passed: int := *;
      if passed > 0 && (horizon.Some? ==> cycle + passed <= horizon.value) {
        cycle := cycle + passed;
      }
    }

    /** The time at hand lasts until `end`. */
    ghost method Allow(end: nat)
      requires Valid() && cycle <= end
      modifies `horizon
      ensures Valid() && horizon == Some(end)
    {
      hide Contents, RxInv, TxInv, RxLogged;
      horizon := Some(end);
    }

    lemma InTime()
      requires Valid()
      ensures horizon.Some? ==> cycle <= horizon.value
      ensures F.IsRun(F.Fill(0, 0), rxLog, 0) && F.LastTime(rxLog, 0) <= cycle
    {
      hide Contents, RxInv, TxInv;
    }

    /** Time passes until `now`, with any interrupts. */
    method RunUntil(ghost now: nat)
      requires Valid() && cycle <= now
      modifies this, rxBuffer
      ensures Valid() && Extended() && cycle == now && horizon == Some(now)
      ensures accepted == old(accepted) && delivered == old(delivered)
    {
      hide Contents, RxInv, TxInv, F.IsRun, F.DoAll;
      Allow(now);
      Interrupts();
      cycle := now;
    }

    /** At most one interrupt. */
    method Interrupt()
      requires Inv()
      modifies this, rxBuffer
      ensures Inv() && OnlyInterrupts()
    {
      hide Contents, RxInv, TxInv, RxLogged;
      var receive: bool := *;
      if receive {
        if ucsr0b.rxcie && line != [] {
          RxIsr();
        }
      } else if ucsr0b.udrie {
        UdreIsr();
      }
    }

    method Interrupts()
      requires Inv()
      modifies this, rxBuffer
      ensures Inv() && OnlyInterrupts()
    {
      hide Contents, RxInv, TxInv, RxLogged;
      var n: nat := *;
      while n > 0
        invariant Inv() && OnlyInterrupts()
      {
        TimePasses();
        Interrupt();
        n := n - 1;
      }
    }

    /** The copy loop of `uart_tx_write`; `head` is its local copy of `tx_head`. */
    method CopyIn(data: array<Octet>, length: nat) returns (head: nat)
      requires Inv() && !kicking && staged == [] && stagedHead == txHead
      requires length <= data.Length && data != rxBuffer && data != txBuffer
      requires |TxQueue()| + length <= TX_FREE
      modifies this, rxBuffer, txBuffer
      ensures Inv() && Grown() && !kicking && accepted == old(accepted)
      ensures delivered == old(delivered)
      ensures head == stagedHead && staged == data[..length]
    {
      hide Contents, RxInv, TxInv, RxLogged;
      head := txHead;
      for index := 0 to length
        invariant Inv() && Grown() && !kicking && accepted == old(accepted)
        invariant delivered == old(delivered)
        invariant stagedHead == head && staged == data[..index]
        invariant |TxQueue()| + length <= TX_FREE
      {
        Stage(head, data[index]);
        head := (head + 1) % TX_SIZE;
        label stored:
        Interrupts();
        QueueOnlyShrinks@stored();
      }
    }

    /** The loads of `uart_tx_write`: `room` is computed from a `tail` that may be stale. */
    method FreeSpace() returns (room: nat)
      requires Inv()
      modifies this, rxBuffer
      ensures Inv() && OnlyInterrupts()
      ensures 63 - |old(TxQueue())| <= room <= 63 - |TxQueue()|
    {
      hide Contents, RxInv, TxInv, RxLogged;
      var head := txHead;
      Interrupts();
      QueueOnlyShrinks();
      var tail := txTail;
      var used := (head - tail) % TX_SIZE;
      Used(txBuffer[..], head, tail);
      room := TX_SIZE - 1 - used;
      label snapped:
      Interrupts();
      QueueOnlyShrinks@snapped();
    }

    /** The store of `tx_head` and the separate load and store of UCSR0B. */
    method Commit(head: nat)
      requires Inv() && head == stagedHead && !kicking
      modifies this, rxBuffer
      ensures Valid() && Grown() && delivered == old(delivered)
      ensures accepted == old(accepted) + old(staged)
    {
      hide Contents, RxInv, TxInv, RxLogged;
      Publish(head);
      Interrupts();
      var loaded := ucsr0b;
      Interrupts();
      Kick(loaded);
      Interrupts();
    }

    /** `uart_tx_write`. */
    method TxWrite(data: array?<Octet>, length: nat) returns (ok: bool)
      requires Valid() && length <= UINT8_MAX
      requires data != null ==> length <= data.Length && data != rxBuffer && data != txBuffer
      modifies this, rxBuffer, txBuffer
      ensures Valid() && Grown() && delivered == old(delivered)
      ensures ok ==> accepted == old(accepted) + (if data == null then [] else data[..length])
      ensures !ok ==> accepted == old(accepted) && length > 0
      ensures data == null ==> ok == (length == 0)
      ensures data != null && |old(TxQueue())| + length <= 63 ==> ok
    {
      hide Contents, RxInv, TxInv, RxLogged;
      if length == 0 {
        return true;
      }
      if data == null {
        return false;
      }
      var room := FreeSpace();
      if length > room {
        return false;
      }
      var head := CopyIn(data, length);
      Commit(head);
      ok := true;
    }

    /** The transmitter makes progress: with nothing newly accepted, exactly as many data
        register interrupts as there are bytes in the ring, each of them enabled, send all that
        was accepted, and one more disables the interrupt. */
    method TransmitAll(n: nat)
      requires Valid() && n == |TxQueue()|
      modifies `txTail, `ucsr0b, `sent
      ensures Valid() && sent == accepted && TxQueue() == [] && !ucsr0b.udrie
    {
      hide Contents, RxInv, RxLogged;
      for i := 0 to n
        invariant Valid() && |TxQueue()| == n - i && accepted == old(accepted)
        invariant sent + TxQueue() == accepted
      {
        QueueIsSent();
        UdreIsr();
      }
      if ucsr0b.udrie {
        UdreIsr();
      }
    }

    lemma QueueIsSent()
      requires Valid() && TxQueue() != []
      ensures ucsr0b.udrie
    {
    }

    /** How many accepted bytes are still to be sent. */
    ghost function Unsent(): int
      reads `accepted, `sent
    {
      |accepted| - |sent|
    }

    /** Whatever has been written to UDR0 is a prefix of what was accepted, whatever has
        been read is a prefix of what was kept, and a non-empty ring is being sent. */
    lemma HistoriesAreFifo()
      requires Valid()
      ensures sent <= accepted && delivered <= kept
      ensures |stored| == |seen| && kept == Survivors(seen, stored) && |seen| == |kept| + dropped
      ensures |kept| - |delivered| <= 31 && |accepted| - |sent| <= 63
      ensures sent != accepted ==> ucsr0b.udrie
    {
    }

    /** When arrivals are spaced and the ring has been drained in time, nothing has been lost
        since power-up: every byte that arrived has been delivered or is in the ring. */
    lemma NothingIsLost()
      requires Valid() && F.Spaced(rxLog, None) && F.Drained(rxLog, 0)
      ensures dropped == rxOverflowCount == 0 && seen == kept == delivered + RxQueue()
    {
      hide Contents, TxInv;
      F.NothingIsDropped(F.Fill(0, 0), rxLog, 0);
      AllSurvive(seen, stored);
    }
  }

  lemma {:induction false} AllSurvive(arrived: seq<Octet>, stored: seq<bool>)
    requires |arrived| == |stored| == |Survivors(arrived, stored)|
    ensures Survivors(arrived, stored) == arrived
  {
    if |arrived| > 0 {
      var n := |arrived| - 1;
      AllSurvive(arrived[..n], stored[..n]);
    }
  }
}
