/** The eight status reports: the payloads that `protocol_send_*` builds in
    firmware/protocol/protocol.c and the decoders of supervisor/protocol.py. */
module Status {
  import opened Bytes
  import opened Frames
  import opened Slots

  datatype Report =
    | CommStatus(uartRxOverflow: nat, parserTimeouts: nat, crcErrors: nat)
    | TimingStatus(actuatorTicks: nat, controlTicks: nat, sensorSafetyTicks: nat,
                   communicationTicks: nat)
    | JitterStatus(actuatorMs: nat, controlMs: nat, sensorSafetyMs: nat, communicationMs: nat)
    | RuntimeMemoryStatus(minFreeBytes: nat, paintedBytes: nat, usedPaintedBytes: nat)
    | CpuLoadStatus(busyTicks: nat, elapsedMs: nat)
    | OverrunStatus(actuator: nat, control: nat, sensorSafety: nat, communication: nat)
    | ResetCause(cause: nat)
    | WatchdogStatus(timeoutMarker: nat)

  function KindOf(r: Report): Kind {
    match r
    case CommStatus(_, _, _) => 0
    case TimingStatus(_, _, _, _) => 1
    case JitterStatus(_, _, _, _) => 2
    case RuntimeMemoryStatus(_, _, _) => 3
    case CpuLoadStatus(_, _) => 4
    case OverrunStatus(_, _, _, _) => 5
    case ResetCause(_) => 6
    case WatchdogStatus(_) => 7
  }

  /** The parameter widths of `protocol_send_*`. */
  predicate FitsC(r: Report) {
    match r
    case CommStatus(a, b, c) => a <= UINT8_MAX && b <= UINT8_MAX && c <= UINT8_MAX
    case TimingStatus(a, b, c, d) => U16(a) && U16(b) && U16(c) && U16(d)
    case JitterStatus(a, b, c, d) => U16(a) && U16(b) && U16(c) && U16(d)
    case RuntimeMemoryStatus(a, b, c) => U16(a) && U16(b) && U16(c)
    case CpuLoadStatus(a, b) => a <= UINT32_MAX && b <= UINT32_MAX
    case OverrunStatus(a, b, c, d) => U16(a) && U16(b) && U16(c) && U16(d)
    case ResetCause(a) => a <= UINT8_MAX
    case WatchdogStatus(a) => a <= UINT8_MAX
  }

  predicate U16(x: nat) {
    x <= UINT16_MAX
  }

  function Word16(x: nat): (bytes: seq<Octet>)
    ensures |bytes| == 2
  {
    LittleEndian(x, 2)
  }

  function Payload(r: Report): (bytes: seq<Octet>)
    requires FitsC(r)
    ensures |bytes| == ResponseLength(KindOf(r))
  {
    match r
    case CommStatus(a, b, c) => [a, b, c]
    case TimingStatus(a, b, c, d) => Word16(a) + Word16(b) + Word16(c) + Word16(d)
    case JitterStatus(a, b, c, d) => Word16(a) + Word16(b) + Word16(c) + Word16(d)
    case RuntimeMemoryStatus(a, b, c) => Word16(a) + Word16(b) + Word16(c)
    case CpuLoadStatus(a, b) => LittleEndian(a, 4) + LittleEndian(b, 4)
    case OverrunStatus(a, b, c, d) => Word16(a) + Word16(b) + Word16(c) + Word16(d)
    case ResetCause(a) => [a]
    case WatchdogStatus(a) => [if a != 0 then 1 else 0]
  }

  /** The frame that carries a report. */
  function Response(r: Report, sequence: Octet): WireFrame
    requires FitsC(r)
  {
    Frame(ResponseType(KindOf(r)), sequence, Payload(r))
  }

  /** `int.from_bytes(payload[from:from + n], "little")`. */
  function Field(payload: seq<Octet>, from: nat, n: nat): nat
    requires from + n <= |payload|
  {
    FromLittleEndian(payload[from..from + n])
  }

  /** `decode_comm_status`, ..., `decode_watchdog_status`, selected by `k`. */
  function Decode(k: Kind, f: Frame): Result<Report, ProtocolError> {
    var p := f.payload;
    if f.frameType != ResponseType(k) then Err(WrongType)
    else if |p| != ResponseLength(k) then Err(WrongPayloadSize)
    else if k == 0 then Ok(CommStatus(p[0], p[1], p[2]))
    else if k == 1 then
      Ok(TimingStatus(Field(p, 0, 2), Field(p, 2, 2), Field(p, 4, 2), Field(p, 6, 2)))
    else if k == 2 then
      Ok(JitterStatus(Field(p, 0, 2), Field(p, 2, 2), Field(p, 4, 2), Field(p, 6, 2)))
    else if k == 3 then Ok(RuntimeMemoryStatus(Field(p, 0, 2), Field(p, 2, 2), Field(p, 4, 2)))
    else if k == 4 then Ok(CpuLoadStatus(Field(p, 0, 4), Field(p, 4, 4)))
    else if k == 5 then
      Ok(OverrunStatus(Field(p, 0, 2), Field(p, 2, 2), Field(p, 4, 2), Field(p, 6, 2)))
    else if k == 6 then Ok(ResetCause(p[0]))
    else if p[0] > 1 then Err(BadMarker)
    else Ok(WatchdogStatus(p[0]))
  }

  /** What the host reads: every value unchanged, the watchdog flag as 0 or 1. */
  function AsSeenByHost(r: Report): Report {
    if r.WatchdogStatus? then WatchdogStatus(if r.timeoutMarker != 0 then 1 else 0) else r
  }

  lemma Word16RoundTrip(x: nat)
    requires U16(x)
    ensures FromLittleEndian(Word16(x)) == x
  {
    assert Pow256(1) == 256;
    LittleEndianRoundTrip(x, 2);
  }

  lemma Word32RoundTrip(x: nat)
    requires x <= UINT32_MAX
    ensures FromLittleEndian(LittleEndian(x, 4)) == x
  {
    assert Pow256(1) == 256;
    assert Pow256(2) == 65536;
    assert Pow256(3) == 16777216;
    LittleEndianRoundTrip(x, 4);
  }

  lemma FourWords(a: nat, b: nat, c: nat, d: nat)
    requires U16(a) && U16(b) && U16(c) && U16(d)
    ensures var p := Word16(a) + Word16(b) + Word16(c) + Word16(d);
      Field(p, 0, 2) == a && Field(p, 2, 2) == b && Field(p, 4, 2) == c && Field(p, 6, 2) == d
  {
    hide LittleEndian, FromLittleEndian;
    Word16RoundTrip(a);
    Word16RoundTrip(b);
    Word16RoundTrip(c);
    Word16RoundTrip(d);
    var p := Word16(a) + Word16(b) + Word16(c) + Word16(d);
    assert p[0..2] == Word16(a) && p[2..4] == Word16(b);
    assert p[4..6] == Word16(c) && p[6..8] == Word16(d);
  }

  // ----- the bytes of a report -----

  /** Byte `i` of a number, counted from the least significant. */
  function ByteOf(x: nat, i: nat): Octet
    requires i < 4
  {
    x / [1, 256, 65536, 16777216][i] % 256
  }

  lemma WordIsLaidOut(x: nat)
    ensures LittleEndian(x, 2) == [ByteOf(x, 0), ByteOf(x, 1)]
    ensures LittleEndian(x, 4) == [ByteOf(x, 0), ByteOf(x, 1), ByteOf(x, 2), ByteOf(x, 3)]
  {
    var n0, n1, n2, n3, n4 := 0, 1, 2, 3, 4;
    assert LittleEndian(x, n1) == [x % 256] + LittleEndian(x / 256, n0);
    assert LittleEndian(x / 256, n1) == [x / 256 % 256] + LittleEndian(x / 256 / 256, n0);
    assert LittleEndian(x, n2) == [x % 256] + LittleEndian(x / 256, n1);
    assert x / 256 / 256 == x / 65536 && x / 65536 / 256 == x / 16777216;
    assert LittleEndian(x / 16777216, n1)
      == [x / 16777216 % 256] + LittleEndian(x / 16777216 / 256, n0);
    assert LittleEndian(x / 65536, n2) == [x / 65536 % 256] + LittleEndian(x / 16777216, n1);
    assert LittleEndian(x / 256, n3) == [x / 256 % 256] + LittleEndian(x / 65536, n2);
    assert LittleEndian(x, n4) == [x % 256] + LittleEndian(x / 256, n3);
  }

  /** The layouts of section 8 of docs/protocol/uart_binary_protocol.md: the type byte, then the
      fields in order, least significant byte first. */
  lemma ReportIsLaidOut(r: Report, sequence: Octet)
    requires FitsC(r)
    ensures Response(r, sequence) == match r
      case CommStatus(a, b, c) => Frame(0x83, sequence, [a, b, c])
      case TimingStatus(a, b, c, d) =>
        Frame(0x84, sequence, [ByteOf(a, 0), ByteOf(a, 1), ByteOf(b, 0), ByteOf(b, 1),
                               ByteOf(c, 0), ByteOf(c, 1), ByteOf(d, 0), ByteOf(d, 1)])
      case JitterStatus(a, b, c, d) =>
        Frame(0x85, sequence, [ByteOf(a, 0), ByteOf(a, 1), ByteOf(b, 0), ByteOf(b, 1),
                               ByteOf(c, 0), ByteOf(c, 1), ByteOf(d, 0), ByteOf(d, 1)])
      case RuntimeMemoryStatus(a, b, c) =>
        Frame(0x86, sequence, [ByteOf(a, 0), ByteOf(a, 1), ByteOf(b, 0), ByteOf(b, 1),
                               ByteOf(c, 0), ByteOf(c, 1)])
      case CpuLoadStatus(a, b) =>
        Frame(0x87, sequence, [ByteOf(a, 0), ByteOf(a, 1), ByteOf(a, 2), ByteOf(a, 3),
                               ByteOf(b, 0), ByteOf(b, 1), ByteOf(b, 2), ByteOf(b, 3)])
      case OverrunStatus(a, b, c, d) =>
        Frame(0x88, sequence, [ByteOf(a, 0), ByteOf(a, 1), ByteOf(b, 0), ByteOf(b, 1),
                               ByteOf(c, 0), ByteOf(c, 1), ByteOf(d, 0), ByteOf(d, 1)])
      case ResetCause(a) => Frame(0x89, sequence, [a])
      case WatchdogStatus(a) => Frame(0x8B, sequence, [if a != 0 then 1 else 0])
  {
    hide LittleEndian, ByteOf;
    match r {
      case CommStatus(_, _, _) =>
      case TimingStatus(a, b, c, d) => FourAreLaidOut(a, b, c, d);
      case JitterStatus(a, b, c, d) => FourAreLaidOut(a, b, c, d);
      case RuntimeMemoryStatus(a, b, c) => FourAreLaidOut(a, b, c, 0);
      case CpuLoadStatus(a, b) =>
        WordIsLaidOut(a);
        WordIsLaidOut(b);
      case OverrunStatus(a, b, c, d) => FourAreLaidOut(a, b, c, d);
      case ResetCause(_) =>
      case WatchdogStatus(_) =>
    }
  }

  lemma FourAreLaidOut(a: nat, b: nat, c: nat, d: nat)
    ensures Word16(a) + Word16(b) + Word16(c)
         == [ByteOf(a, 0), ByteOf(a, 1), ByteOf(b, 0), ByteOf(b, 1), ByteOf(c, 0), ByteOf(c, 1)]
    ensures Word16(a) + Word16(b) + Word16(c) + Word16(d)
         == [ByteOf(a, 0), ByteOf(a, 1), ByteOf(b, 0), ByteOf(b, 1),
             ByteOf(c, 0), ByteOf(c, 1), ByteOf(d, 0), ByteOf(d, 1)]
  {
    hide LittleEndian, ByteOf;
    WordIsLaidOut(a);
    WordIsLaidOut(b);
    WordIsLaidOut(c);
    WordIsLaidOut(d);
  }

  /** Only the frame of a report decodes to it: nothing else is ever taken for a report. */
  lemma DecodedIsReport(k: Kind, f: WireFrame, r: Report)
    ensures Decode(k, f) == Ok(r)
      <==> FitsC(r) && KindOf(r) == k && AsSeenByHost(r) == r && f == Response(r, f.sequence)
  {
    hide LittleEndian, FromLittleEndian, Word16;
    if FitsC(r) && KindOf(r) == k && f == Response(r, f.sequence) {
      ReportRoundTrip(r, f.sequence);
    }
    if Decode(k, f) == Ok(r) {
      var p := f.payload;
      if k == 1 || k == 2 || k == 5 {
        FourFields(p);
      } else if k == 3 {
        FieldIsWord(p, 0);
        FieldIsWord(p, 2);
        FieldIsWord(p, 4);
        assert p == p[0..2] + p[2..4] + p[4..6];
      } else if k == 4 {
        TwoFields(p);
      }
    }
  }

  /** Why a frame is not taken for a report of kind `k`. */
  lemma RefusedWhen(k: Kind, f: WireFrame)
    ensures var r, t, n := Decode(k, f), if k == 7 then 0x8B else 0x83 + k, [3, 8, 8, 6, 8, 8, 1, 1][k];
      && (r == Err(WrongType) <==> f.frameType != t)
      && (r == Err(WrongPayloadSize) <==> f.frameType == t && |f.payload| != n)
      && (r == Err(BadMarker) <==>
            k == 7 && f.frameType == t && |f.payload| == n && f.payload[0] > 1)
      && (r.Err? ==> r.error in {WrongType, WrongPayloadSize, BadMarker})
  {
    hide FromLittleEndian;
  }

  lemma FieldIsWord(p: seq<Octet>, from: nat)
    requires from + 2 <= |p|
    ensures U16(Field(p, from, 2)) && Word16(Field(p, from, 2)) == p[from..from + 2]
  {
    FromLittleEndianRoundTrip(p[from..from + 2]);
    assert Pow256(1) == 256;
  }

  lemma FourFields(p: seq<Octet>)
    requires |p| == 8
    ensures U16(Field(p, 0, 2)) && U16(Field(p, 2, 2)) && U16(Field(p, 4, 2)) && U16(Field(p, 6, 2))
    ensures p == Word16(Field(p, 0, 2)) + Word16(Field(p, 2, 2)) + Word16(Field(p, 4, 2))
                 + Word16(Field(p, 6, 2))
  {
    hide Word16, Field;
    FieldIsWord(p, 0);
    FieldIsWord(p, 2);
    FieldIsWord(p, 4);
    FieldIsWord(p, 6);
    assert p == p[0..2] + p[2..4] + p[4..6] + p[6..8];
  }

  lemma TwoFields(p: seq<Octet>)
    requires |p| == 8
    ensures Field(p, 0, 4) <= UINT32_MAX && Field(p, 4, 4) <= UINT32_MAX
    ensures p == LittleEndian(Field(p, 0, 4), 4) + LittleEndian(Field(p, 4, 4), 4)
  {
    hide LittleEndian, FromLittleEndian;
    FromLittleEndianRoundTrip(p[0..4]);
    FromLittleEndianRoundTrip(p[4..8]);
    assert Pow256(1) == 256;
    assert Pow256(2) == 65536;
    assert Pow256(3) == 16777216;
    assert p == p[0..4] + p[4..8];
  }

  /** Every report crosses the wire: the bytes of its frame decode to the frame, and the
      frame to the report; a decoder for another kind refuses it. */
  lemma ReportCrosses(r: Report, sequence: Octet, k: Kind)
    requires FitsC(r)
    ensures DecodeFrame(Encode(Response(r, sequence))) == Ok(Response(r, sequence))
    ensures k == KindOf(r) ==> Decode(k, Response(r, sequence)) == Ok(AsSeenByHost(r))
    ensures k != KindOf(r) ==> Decode(k, Response(r, sequence)) == Err(WrongType)
  {
    RoundTrip(Response(r, sequence));
    ReportRoundTrip(r, sequence);
  }

  lemma ReportRoundTrip(r: Report, sequence: Octet)
    requires FitsC(r)
    ensures Decode(KindOf(r), Response(r, sequence)) == Ok(AsSeenByHost(r))
  {
    hide LittleEndian, FromLittleEndian, Word16;
    var p := Payload(r);
    match r {
      case CommStatus(_, _, _) =>
      case TimingStatus(a, b, c, d) => FourWords(a, b, c, d);
      case JitterStatus(a, b, c, d) => FourWords(a, b, c, d);
      case RuntimeMemoryStatus(a, b, c) =>
        Word16RoundTrip(a);
        Word16RoundTrip(b);
        Word16RoundTrip(c);
        assert p[0..2] == Word16(a) && p[2..4] == Word16(b) && p[4..6] == Word16(c);
      case CpuLoadStatus(a, b) =>
        Word32RoundTrip(a);
        Word32RoundTrip(b);
        assert p[0..4] == LittleEndian(a, 4) && p[4..8] == LittleEndian(b, 4);
      case OverrunStatus(a, b, c, d) => FourWords(a, b, c, d);
      case ResetCause(_) =>
      case WatchdogStatus(_) =>
    }
  }
}
