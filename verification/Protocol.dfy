/** The static state of firmware/protocol/protocol.c as an object, proved against the
    parser and slot machines. */
module Protocol {
  import opened Bytes
  import Crc8
  import opened Frames
  import P = Parser
  import T = ParserTiming
  import S = Slots
  import opened Status
  import U = Uart

  class Protocol {
    var parserState: P.State
    var frameType: Octet
    var frameSequence: Octet
    var frameLength: Octet
    const framePayload: array<Octet>
    var payloadIndex: nat
    var lastByteMs: nat
    var timeoutCount: nat
    var crcErrorCount: nat

    var pendingType: Octet
    var pendingSequence: Octet
    var pendingLength: nat
    const pendingPayload: array<Octet>
    var responsePending: bool

    /** The eight `*_request_pending` flags, each with its `*_sequence`. */
    var status: seq<Option<Octet>>
    var watchdogBlockPending: bool

    ghost predicate Valid()
      reads this, framePayload, pendingPayload
    {
      && framePayload.Length == pendingPayload.Length == MAX_PAYLOAD
      && framePayload != pendingPayload
      && payloadIndex <= MAX_PAYLOAD && pendingLength <= MAX_PAYLOAD
      && |status| == S.STATUS_KINDS
      && timeoutCount <= UINT8_MAX && crcErrorCount <= UINT8_MAX
      && P.Sound(P.Parser(parserState, frameType, frameSequence, frameLength,
                          framePayload[..payloadIndex]))
    }

    ghost function Timed(): (t: T.Timed)
      requires Valid()
      reads this, framePayload, pendingPayload
      ensures P.Sound(t.parser)
    {
      T.Timed(P.Parser(parserState, frameType, frameSequence, frameLength,
                       framePayload[..payloadIndex]),
              lastByteMs, timeoutCount, crcErrorCount)
    }

    ghost function Pending(): (s: S.Slots)
      requires Valid()
      reads this, framePayload, pendingPayload
    {
      S.Slots(status,
              if responsePending
              then Some(Frame(pendingType, pendingSequence, pendingPayload[..pendingLength]))
              else None,
              watchdogBlockPending)
    }

    /** `protocol_init`. */
    constructor ()
      ensures Valid() && fresh(framePayload) && fresh(pendingPayload)
      ensures Timed() == T.Timed(P.RESET, 0, 0, 0) && Pending() == S.EMPTY
    {
      parserState, frameType, frameSequence, frameLength := P.WaitSof, 0, 0, 0;
      framePayload := new Octet[MAX_PAYLOAD](_ => 0);
      pendingPayload := new Octet[MAX_PAYLOAD](_ => 0);
      payloadIndex, lastByteMs, timeoutCount, crcErrorCount := 0, 0, 0, 0;
      pendingType, pendingSequence, pendingLength, responsePending := 0, 0, 0, false;
      status := [None, None, None, None, None, None, None, None];
      watchdogBlockPending := false;
    }

    /** `protocol_reset_parser`. */
    method ResetParser()
      requires Valid()
      modifies `parserState, `frameType, `frameSequence, `frameLength, `payloadIndex, `lastByteMs
      ensures Valid() && Pending() == old(Pending())
      ensures Timed() == T.Timed(P.RESET, 0, timeoutCount, crcErrorCount)
    {
      parserState, frameType, frameSequence, frameLength := P.WaitSof, 0, 0, 0;
      payloadIndex, lastByteMs := 0, 0;
    }

    /** `protocol_prepare_nack`. */
    method PrepareNack(sequence: Octet, reason: Octet)
      requires Valid()
      modifies `pendingType, `pendingSequence, `pendingLength, `responsePending, pendingPayload
      ensures Valid() && Timed() == old(Timed())
      ensures Pending() == S.PrepareNack(old(Pending()), sequence, reason)
    {
      pendingType, pendingSequence, pendingLength := S.TYPE_NACK, sequence, 1;
      pendingPayload[0] := reason;
      responsePending := true;
      assert pendingPayload[..1] == [reason];
    }

    /** One status branch of `protocol_handle_frame`. */
    method HandleStatus(k: S.Kind, sequence: Octet, length: nat, ghost f: WireFrame)
      requires Valid() && f.sequence == sequence && |f.payload| == length
      modifies `status, `pendingType, `pendingSequence, `pendingLength, `responsePending
      modifies pendingPayload
      ensures Valid() && Timed() == old(Timed())
      ensures Pending() == S.HandleStatus(old(Pending()), k, f)
    {
      if length == 0 {
        if status[k].None? {
          status := status[k := Some(sequence)];
        }
      } else if !responsePending {
        PrepareNack(sequence, S.NACK_INVALID_LENGTH);
      }
    }

    /** `protocol_handle_frame` on the received frame. */
    method HandleFrame(ghost f: WireFrame)
      requires Valid() && frameLength == payloadIndex
      requires f == Frame(frameType, frameSequence, framePayload[..payloadIndex])
      modifies `status, `pendingType, `pendingSequence, `pendingLength, `responsePending
      modifies `watchdogBlockPending, pendingPayload
      ensures Valid() && Timed() == old(Timed())
      ensures Pending() == S.HandleFrame(old(Pending()), f)
    {
      if frameType == S.TYPE_GET_COMM_STATUS {
        HandleStatus(0, frameSequence, frameLength, f);
      } else if frameType == S.TYPE_GET_TIMING_STATUS {
        HandleStatus(1, frameSequence, frameLength, f);
      } else if frameType == S.TYPE_GET_JITTER_STATUS {
        HandleStatus(2, frameSequence, frameLength, f);
      } else if frameType == S.TYPE_GET_RUNTIME_MEMORY_STATUS {
        HandleStatus(3, frameSequence, frameLength, f);
      } else if frameType == S.TYPE_GET_CPU_LOAD_STATUS {
        HandleStatus(4, frameSequence, frameLength, f);
      } else if frameType == S.TYPE_GET_OVERRUN_STATUS {
        HandleStatus(5, frameSequence, frameLength, f);
      } else if frameType == S.TYPE_GET_RESET_CAUSE {
        HandleStatus(6, frameSequence, frameLength, f);
      } else if frameType == S.TYPE_GET_WATCHDOG_STATUS {
        HandleStatus(7, frameSequence, frameLength, f);
      } else if frameType == S.TYPE_INJECT_WATCHDOG_BLOCK {
        if frameLength == 0 {
          watchdogBlockPending := true;
        } else if !responsePending {
          PrepareNack(frameSequence, S.NACK_INVALID_LENGTH);
        }
      } else if !responsePending {
        HandleImmediate(f);
      }
    }

    /** The last part of `protocol_handle_frame`: PING, ECHO and unsupported types. */
    method HandleImmediate(ghost f: WireFrame)
      requires Valid() && frameLength == payloadIndex && !responsePending
      requires f == Frame(frameType, frameSequence, framePayload[..payloadIndex])
      modifies `pendingType, `pendingSequence, `pendingLength, `responsePending, pendingPayload
      ensures Valid() && Timed() == old(Timed())
      ensures Pending() == old(Pending()).(shared :=
        if f.frameType == S.TYPE_PING && f.payload == [] then Some(Frame(S.TYPE_PONG, f.sequence, []))
        else if f.frameType == S.TYPE_ECHO && f.payload != [] then
          Some(Frame(S.TYPE_ACK, f.sequence, f.payload))
        else
          Some(Frame(S.TYPE_NACK, f.sequence,
                     [if f.frameType == S.TYPE_PING || f.frameType == S.TYPE_ECHO
                      then S.NACK_INVALID_LENGTH else S.NACK_UNSUPPORTED_TYPE])))
    {
      if frameType == S.TYPE_PING {
        if frameLength == 0 {
          pendingType, pendingSequence, pendingLength := S.TYPE_PONG, frameSequence, 0;
          responsePending := true;
        } else {
          PrepareNack(frameSequence, S.NACK_INVALID_LENGTH);
        }
      } else if frameType == S.TYPE_ECHO {
        if frameLength == 0 {
          PrepareNack(frameSequence, S.NACK_INVALID_LENGTH);
        } else {
          CopyEcho();
        }
      } else {
        PrepareNack(frameSequence, S.NACK_UNSUPPORTED_TYPE);
      }
    }

    /** The ACK of an ECHO, with its copy loop. */
    method CopyEcho()
      requires Valid() && frameLength == payloadIndex
      modifies `pendingType, `pendingSequence, `pendingLength, `responsePending, pendingPayload
      ensures Valid() && Timed() == old(Timed())
      ensures Pending() == old(Pending()).(shared :=
        Some(Frame(S.TYPE_ACK, frameSequence, framePayload[..payloadIndex])))
    {
      pendingType, pendingSequence, pendingLength := S.TYPE_ACK, frameSequence, frameLength;
      for index := 0 to frameLength
        invariant forall j :: 0 <= j < index ==> pendingPayload[j] == framePayload[j]
        modifies pendingPayload
      {
        pendingPayload[index] := framePayload[index];
      }
      responsePending := true;
      assert pendingPayload[..frameLength] == framePayload[..frameLength];
    }

    /** `protocol_compute_crc` on the received frame. */
    method ReceivedCrc() returns (crc: Octet)
      requires Valid() && frameLength == payloadIndex
      ensures crc == ComputeCrc(Frame(frameType, frameSequence, framePayload[..payloadIndex]))
    {
      crc := FrameCrcOf(frameType, frameSequence, frameLength, framePayload[..]);
      assert framePayload[..][..frameLength] == framePayload[..frameLength];
    }

    /** What a byte's log does to the slots. */
    static function HandleLog(s: S.Slots, log: seq<P.Ending>): S.Slots
      decreases |log|
    {
      if |log| == 0 then s
      else
        var e := log[0];
        HandleLog(if e.Delivered? && e.frame.WellFormed() then S.HandleFrame(s, e.frame) else s,
                  log[1..])
    }

    /** READ_PAYLOAD. */
    method StorePayload(byte: Octet)
      requires Valid() && parserState == P.ReadPayload
      modifies `parserState, `frameType, `frameSequence, `frameLength, `payloadIndex, `lastByteMs
      modifies framePayload
      ensures Valid() && Pending() == old(Pending())
      ensures Timed() == old(Timed()).(parser := P.Accept(old(Timed()).parser, byte).parser)
    {
      hide ComputeCrc;
      if payloadIndex < frameLength && payloadIndex < MAX_PAYLOAD {
        framePayload[payloadIndex] := byte;
        payloadIndex := payloadIndex + 1;
        assert framePayload[..payloadIndex] == old(framePayload[..payloadIndex]) + [byte];
        if payloadIndex == frameLength {
          parserState := P.ReadCrc;
        }
      } else {
        assert false;  // protocol.c resets the parser here; the branch is never taken
      }
    }

    /** READ_CRC. */
    method JudgeFrame(byte: Octet)
      requires Valid() && parserState == P.ReadCrc
      modifies this, pendingPayload
      ensures Valid()
      ensures var t, r := old(Timed()), P.Accept(old(Timed()).parser, byte);
        && Timed() == T.Timed(P.RESET, 0, t.timeouts,
                              if P.CrcError in r.log then T.Bump(t.crcErrors) else t.crcErrors)
        && Pending() == HandleLog(old(Pending()), r.log)
    {
      hide ComputeCrc, S.HandleFrame;
      ghost var f := Frame(frameType, frameSequence, framePayload[..payloadIndex]);
      ghost var log := P.Accept(Timed().parser, byte).log;
      assert log[1..] == [];
      var crc := ReceivedCrc();
      if byte == crc {
        HandleFrame(f);
      } else if crcErrorCount != UINT8_MAX {
        crcErrorCount := crcErrorCount + 1;
      }
      ResetParser();
    }

    /** WAIT_SOF. */
    method AcceptSof(byte: Octet, nowMs: nat)
      requires Valid() && parserState == P.WaitSof
      modifies `parserState, `frameType, `frameSequence, `frameLength, `payloadIndex, `lastByteMs
      ensures Valid() && Pending() == old(Pending())
      ensures var t, r := old(Timed()), P.Accept(old(Timed()).parser, byte);
        && r.log == []
        && Timed() == t.(parser := r.parser, lastByteMs := if byte == SOF then nowMs else t.lastByteMs)
    {
      hide ComputeCrc, S.HandleFrame;
      if byte == SOF {
        ResetParser();
        parserState := P.ReadVersion;
        lastByteMs := nowMs;
      }
    }

    /** The four header states. */
    method AcceptHeader(byte: Octet)
      requires Valid() && parserState != P.WaitSof
      requires parserState != P.ReadPayload && parserState != P.ReadCrc
      modifies `parserState, `frameType, `frameSequence, `frameLength, `payloadIndex, `lastByteMs
      ensures Valid() && Pending() == old(Pending())
      ensures var t, r := old(Timed()), P.Accept(old(Timed()).parser, byte);
        && P.CrcError !in r.log && HandleLog(Pending(), r.log) == Pending()
        && Timed() == t.(parser := r.parser,
                         lastByteMs := if r.parser.state == P.WaitSof then 0 else t.lastByteMs)
    {
      hide ComputeCrc, S.HandleFrame;
      match parserState {
        case ReadVersion =>
          if byte == VERSION {
            parserState := P.ReadType;
          } else {
            ResetParser();
          }
        case ReadType =>
          frameType := byte;
          parserState := P.ReadSequence;
        case ReadSequence =>
          frameSequence := byte;
          parserState := P.ReadLength;
        case ReadLength =>
          frameLength := byte;
          payloadIndex := 0;
          if byte > MAX_PAYLOAD {
            ResetParser();
          } else if byte == 0 {
            parserState := P.ReadCrc;
          } else {
            parserState := P.ReadPayload;
          }
      }
    }

    /** `protocol_process_byte`. */
    method ProcessByte(byte: Octet, nowMs: nat)
      requires Valid()
      modifies this, framePayload, pendingPayload
      ensures Valid()
      ensures Timed() == T.ProcessByte(old(Timed()), byte, nowMs).state
      ensures Pending() == HandleLog(old(Pending()), T.ProcessByte(old(Timed()), byte, nowMs).log)
    {
      hide ComputeCrc, S.HandleFrame;
      if parserState != P.WaitSof {
        lastByteMs := nowMs;
      }
      match parserState {
        case ReadPayload =>
          P.SoundIsKept(Timed().parser, byte);
          StorePayload(byte);
        case ReadCrc => JudgeFrame(byte);
        case WaitSof => AcceptSof(byte, nowMs);
        case _ => AcceptHeader(byte);
      }
    }

    /** `protocol_check_timeout`. */
    method CheckTimeout(nowMs: nat)
      requires Valid()
      modifies this
      ensures Valid() && Pending() == old(Pending())
      ensures Timed() == T.CheckTimeout(old(Timed()), nowMs).state
    {
      if parserState != P.WaitSof && (nowMs - lastByteMs) % 0x1_0000_0000 >= T.INTERBYTE_TIMEOUT_MS {
        ResetParser();
        if timeoutCount != UINT8_MAX {
          timeoutCount := timeoutCount + 1;
        }
      }
    }

    /** `protocol_get_response`, which copies the pending frame. */
    method GetResponse() returns (response: Option<WireFrame>)
      requires Valid()
      ensures response == Pending().shared
    {
      if !responsePending {
        return None;
      }
      var payload: seq<Octet> := [];
      for index := 0 to pendingLength
        invariant payload == pendingPayload[..index]
      {
        payload := payload + [pendingPayload[index]];
      }
      response := Some(Frame(pendingType, pendingSequence, payload));
    }

    /** The first step of the service order: `protocol_response_pending`,
        `protocol_send_frame` and `protocol_response_sent`. */
    method SendResponse(uart: U.Uart) returns (ok: bool)
      requires Valid() && uart.Valid()
      requires uart as object != this
      requires {uart.rxBuffer, uart.txBuffer} !! {framePayload, pendingPayload}
      modifies `responsePending, uart, uart.rxBuffer, uart.txBuffer
      ensures Valid() && uart.Valid() && uart.Grown() && uart.delivered == old(uart.delivered)
      ensures Timed() == old(Timed())
      ensures Pending() == S.Do(old(Pending()), S.Offer(0, ok))
      ensures uart.accepted == old(uart.accepted)
        + (if ok && old(Pending()).shared.Some? then Encode(old(Pending()).shared.value) else [])
      ensures |old(uart.TxQueue())| + S.Size(old(Pending()), 0) <= U.TX_FREE ==> ok
    {
      hide Encode;
      var response := GetResponse();
      if response.None? {
        return true;
      }
      ok := SendFrame(response, uart);
      if ok {
        responsePending := false;
      }
    }

    /** A `*_requested` test and the matching `protocol_send_*`. */
    method SendStatus(k: S.Kind, report: Report, uart: U.Uart) returns (ok: bool)
      requires Valid() && uart.Valid() && FitsC(report) && KindOf(report) == k
      requires uart as object != this
      requires {uart.rxBuffer, uart.txBuffer} !! {framePayload, pendingPayload}
      modifies `status, uart, uart.rxBuffer, uart.txBuffer
      ensures Valid() && uart.Valid() && uart.Grown() && uart.delivered == old(uart.delivered)
      ensures Timed() == old(Timed())
      ensures Pending() == S.Do(old(Pending()), S.Offer(k + 1, ok))
      ensures uart.accepted == old(uart.accepted)
        + (if ok && old(status)[k].Some? then Encode(Response(report, old(status)[k].value)) else [])
      ensures |old(uart.TxQueue())| + S.Size(old(Pending()), k + 1) <= U.TX_FREE ==> ok
    {
      hide Payload, Encode, FitsC, P.Sound, U.Uart.RxInv, U.Uart.TxInv;
      if status[k].None? {
        return true;
      }
      ok := SendFrame(Some(Response(report, status[k].value)), uart);
      if ok {
        status := status[k := None];
      }
    }
  }

  /** `protocol_send_frame`: a frame that fits is laid out in an array of 14 and offered to the
      UART; null and longer frames are refused. */
  method SendFrame(frame: Option<Frame>, uart: U.Uart) returns (ok: bool)
    requires uart.Valid()
    requires frame.Some? ==> 0 <= frame.value.frameType < 256 && 0 <= frame.value.sequence < 256
    modifies uart, uart.rxBuffer, uart.txBuffer
    ensures uart.Valid() && uart.Grown() && uart.delivered == old(uart.delivered)
    ensures ok ==> frame.Some? && frame.value.WellFormed()
    ensures uart.accepted == old(uart.accepted) + (if ok then Encode(frame.value) else [])
    ensures frame.Some? && frame.value.WellFormed() ==>
      (|old(uart.TxQueue())| + |Encode(frame.value)| <= U.TX_FREE ==> ok)
  {
    hide Encode;
    if frame.None? || |frame.value.payload| > MAX_PAYLOAD {
      return false;
    }
    var encoded, length := Layout(frame.value);
    ok := uart.TxWrite(encoded, length);
  }

  method Layout(f: WireFrame) returns (encoded: array<Octet>, length: nat)
    ensures fresh(encoded) && length == |Encode(f)| <= encoded.Length <= UINT8_MAX
    ensures encoded[..length] == Encode(f)
  {
    hide Encode, FrameCrc;
    var n := |f.payload|;
    var crc := FrameCrcOf(f.frameType, f.sequence, n, f.payload);
    assert f.payload[..n] == f.payload;
    ghost var target := Encode(f);
    EncodedAt(f);
    encoded := new Octet[OVERHEAD + MAX_PAYLOAD](_ => 0);
    encoded[0], encoded[1], encoded[2] := SOF, VERSION, f.frameType;
    encoded[3], encoded[4] := f.sequence, n;
    for index := 0 to n
      invariant forall j :: 0 <= j < 5 + index ==> encoded[j] == target[j]
    {
      encoded[5 + index] := f.payload[index];
    }
    encoded[5 + n] := crc;
    length := OVERHEAD + n;
    assert encoded[..length] == target;
  }

  lemma EncodedAt(f: WireFrame)
    ensures var bytes, n := Encode(f), |f.payload|;
      && bytes[0] == SOF && bytes[1] == VERSION && bytes[2] == f.frameType
      && bytes[3] == f.sequence && bytes[4] == n && bytes[5 + n] == FrameCrc(f)
      && forall j :: 5 <= j < 5 + n ==> bytes[j] == f.payload[j - 5]
  {
    hide Crc8.Crc;
  }

  /** `protocol_compute_crc`: the covered bytes are gathered in an array of 12. */
  method FrameCrcOf(frameType: Octet, sequence: Octet, length: Octet, payload: seq<Octet>)
    returns (crc: Octet)
    requires length <= MAX_PAYLOAD ==> length <= |payload|
    ensures crc == if length > MAX_PAYLOAD then 0
                   else ComputeCrc(Frame(frameType, sequence, payload[..length]))
  {
    hide Crc8.Crc;
    if length > MAX_PAYLOAD {
      return 0;
    }
    var crcData := new Octet[4 + MAX_PAYLOAD](_ => 0);
    ghost var body := Body(Frame(frameType, sequence, payload[..length]));
    crcData[0], crcData[1], crcData[2], crcData[3] := VERSION, frameType, sequence, length;
    for index := 0 to length
      invariant forall j :: 0 <= j < 4 + index ==> crcData[j] == body[j]
    {
      crcData[4 + index] := payload[index];
    }
    crc := Crc8.Crc8Compute(crcData, 4 + length);
    assert crcData[..4 + length] == body;
  }
}


