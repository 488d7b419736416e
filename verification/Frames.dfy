/** The frame format: supervisor/protocol.py on the host, and the byte string that
    `protocol_send_frame` builds in firmware/protocol/protocol.c. */
module Frames {
  import opened Bytes
  import opened Crc8
  import opened CrcDivision
  import opened CrcDetection

  const SOF: Octet := 0xA5
  const VERSION: Octet := 0x01
  const MAX_PAYLOAD := 8
  const OVERHEAD := 6

  /** The host's `Frame`: the dataclass does not restrict its fields. */
  datatype Frame = Frame(frameType: int, sequence: int, payload: seq<Octet>) {
    predicate WellFormed() {
      0 <= frameType < 256 && 0 <= sequence < 256 && |payload| <= MAX_PAYLOAD
    }
  }

  /** The frames that fit the firmware's `protocol_frame_t`. */
  type WireFrame = f: Frame | f.WellFormed() witness Frame(0, 0, [])

  datatype ProtocolError =
    | FieldNotAnOctet
    | PayloadTooLong
    | FrameTooShort
    | BadSof
    | BadVersion
    | LengthTooLarge
    | SizeMismatch
    | CrcMismatch
    | WrongType
    | WrongPayloadSize
    | BadMarker

  /** The bytes that the CRC covers. */
  function Body(f: WireFrame): (body: seq<Octet>)
    ensures |body| == 4 + |f.payload|
  {
    [VERSION, f.frameType, f.sequence, |f.payload|] + f.payload
  }

  function FrameCrc(f: WireFrame): Octet {
    Crc(Body(f))
  }

  /** `protocol_compute_crc`, with its answer for a frame that cannot be sent. */
  function ComputeCrc(f: Frame): Octet {
    if f.WellFormed() then FrameCrc(f) else 0
  }

  function Encode(f: WireFrame): (bytes: seq<Octet>)
    ensures |bytes| == OVERHEAD + |f.payload|
  {
    [SOF] + Body(f) + [FrameCrc(f)]
  }

  function EncodeAll(frames: seq<WireFrame>): seq<Octet> {
    if |frames| == 0 then [] else Encode(frames[0]) + EncodeAll(frames[1..])
  }

  lemma {:induction false} EncodeAllAppend(frames: seq<WireFrame>, f: WireFrame)
    ensures EncodeAll(frames + [f]) == EncodeAll(frames) + Encode(f)
  {
    hide Encode;
    if |frames| == 0 {
      assert [f][1..] == [];
    } else {
      assert (frames + [f])[1..] == frames[1..] + [f];
      EncodeAllAppend(frames[1..], f);
    }
  }

  lemma {:induction false} EncodeAllConcat(x: seq<WireFrame>, y: seq<WireFrame>)
    ensures EncodeAll(x + y) == EncodeAll(x) + EncodeAll(y)
    decreases |x|
  {
    hide Encode;
    if |x| == 0 {
      assert x + y == y;
    } else {
      assert (x + y)[1..] == x[1..] + y;
      EncodeAllConcat(x[1..], y);
    }
  }

  /** `encode_frame`. */
  function EncodeFrame(f: Frame): Result<seq<Octet>, ProtocolError> {
    if !(0 <= f.frameType < 256) || !(0 <= f.sequence < 256) then Err(FieldNotAnOctet)
    else if |f.payload| > MAX_PAYLOAD then Err(PayloadTooLong)
    else Ok(Encode(f))
  }

  /** `decode_frame`. */
  function DecodeFrame(data: seq<Octet>): Result<Frame, ProtocolError> {
    if |data| < OVERHEAD then Err(FrameTooShort)
    else if data[0] != SOF then Err(BadSof)
    else if data[1] != VERSION then Err(BadVersion)
    else if data[4] > MAX_PAYLOAD then Err(LengthTooLarge)
    else if |data| != OVERHEAD + data[4] then Err(SizeMismatch)
    else if data[|data| - 1] != Crc(data[1..|data| - 1]) then Err(CrcMismatch)
    else Ok(Frame(data[2], data[3], data[5..5 + data[4]]))
  }

  /** A byte string with good framing decodes exactly when its last byte is the CRC of the
      frame it spells. */
  lemma DecodeWhole(data: seq<Octet>)
    requires |data| >= OVERHEAD && data[0] == SOF && data[1] == VERSION
    requires data[4] <= MAX_PAYLOAD && |data| == OVERHEAD + data[4]
    ensures var f := Frame(data[2], data[3], data[5..|data| - 1]);
      DecodeFrame(data) == if data[|data| - 1] == FrameCrc(f) then Ok(f) else Err(CrcMismatch)
  {
    var n := |data|;
    var f := Frame(data[2], data[3], data[5..n - 1]);
    assert data[1..n - 1] == Body(f);
  }

  /** The bytes of a frame: 0xA5, version 1, type, sequence, length, payload, and the CRC of all
      but the first and itself; 6 to 14 of them. */
  lemma WireLayout(f: WireFrame)
    ensures Encode(f) == [0xA5, 1, f.frameType, f.sequence, |f.payload|] + f.payload
                         + [Crc([1, f.frameType, f.sequence, |f.payload|] + f.payload)]
    ensures |Encode(f)| == 6 + |f.payload| <= 14
  {
    hide Crc;
  }

  /** Encoding succeeds exactly on octet fields and at most 8 payload bytes, and decoding undoes
      it. */
  lemma RoundTrip(f: Frame)
    ensures EncodeFrame(f).Ok? <==> 0 <= f.frameType < 256 && 0 <= f.sequence < 256 && |f.payload| <= 8
    ensures EncodeFrame(f).Ok? ==> f.WellFormed() && EncodeFrame(f).value == Encode(f)
    ensures f.WellFormed() ==> DecodeFrame(Encode(f)) == Ok(f)
  {
    hide Crc;
    if f.WellFormed() {
      var bytes := Encode(f);
      assert bytes[1..|bytes| - 1] == Body(f);
      assert bytes[5..5 + |f.payload|] == f.payload;
    }
  }

  /** Only encodings decode, so a frame has one encoding. */
  lemma DecodedIsEncoded(data: seq<Octet>, f: Frame)
    ensures DecodeFrame(data) == Ok(f) <==> f.WellFormed() && data == Encode(f)
  {
    hide Crc;
    if DecodeFrame(data) == Ok(f) {
      var n := |data|;
      assert data[1..n - 1] == [data[1], data[2], data[3], data[4]] + data[5..n - 1];
      assert data == [data[0]] + data[1..n - 1] + [data[n - 1]];
    }
    RoundTrip(f);
  }

  /** Why a byte string is refused: the first of these that applies. */
  lemma RefusedWhen(data: seq<Octet>)
    ensures var r := DecodeFrame(data);
      && (r == Err(FrameTooShort) <==> |data| < 6)
      && (r == Err(BadSof) <==> |data| >= 6 && data[0] != 0xA5)
      && (r == Err(BadVersion) <==> |data| >= 6 && data[0] == 0xA5 && data[1] != 1)
      && (r == Err(LengthTooLarge) <==>
            |data| >= 6 && data[0] == 0xA5 && data[1] == 1 && data[4] > 8)
      && (r == Err(SizeMismatch) <==>
            |data| >= 6 && data[0] == 0xA5 && data[1] == 1 && data[4] <= 8 && |data| != 6 + data[4])
      && (r.Err? ==> r.error in {FrameTooShort, BadSof, BadVersion, LengthTooLarge, SizeMismatch,
                                 CrcMismatch})
  {
    hide Crc;
  }

  // ----- damage -----

  /** What is checked at the end: the CRC byte closes the body to residue 0. */
  lemma CrcMatchesWhen(data: seq<Octet>)
    requires |data| >= 2
    ensures data[|data| - 1] == Crc(data[1..|data| - 1]) <==> Register(Words(data)[1..]) == ZERO
  {
    hide Register, Feed;
    var n := |data| - 1;
    ResidueIsZero(Words(data[1..n]), OfOctet(data[n]));
    assert Words(data)[1..] == Words(data[1..n]) + [OfOctet(data[n])];
    OfToOctet(Register(Words(data[1..n])));
    ToOfOctet(data[n]);
  }

  lemma SameOctet(a: Octet, b: Octet)
    ensures Xor(OfOctet(a), OfOctet(b)) == ZERO <==> a == b
  {
    XorIsZero(OfOctet(a), OfOctet(b));
    ToOfOctet(a);
    ToOfOctet(b);
  }

  /** The bit errors that turn the byte string `x` into `y`. */
  function ErrorBits(x: seq<Octet>, y: seq<Octet>): Bits
    requires |x| == |y|
  {
    ToBits(Difference(Words(x), Words(y)))
  }

  /** From a string whose CRC is right to one with the same SOF: whether the CRC is still
      right depends on the error pattern alone. */
  lemma VerdictOnErrors(x: seq<Octet>, y: seq<Octet>)
    requires |x| == |y| >= 2 && x[0] == y[0]
    requires x[|x| - 1] == Crc(x[1..|x| - 1])
    ensures y[|y| - 1] == Crc(y[1..|y| - 1]) <==> BitRegister(ErrorBits(x, y)) == ZERO
  {
    hide Crc, Register, Feed;
    var d := Difference(Words(x), Words(y));
    CrcMatchesWhen(x);
    CrcMatchesWhen(y);
    SameOctet(x[0], y[0]);
    LeadingZero(d);
    assert d[1..] == Difference(Words(x)[1..], Words(y)[1..]);
    RegisterIsLinear(Words(x)[1..], Words(y)[1..]);
    XorIsZero(Register(Words(x)[1..]), Register(Words(y)[1..]));
    RegisterIsBitRegister(d);
  }

  /** Bytes of `Encode(f)` replaced by as many others are accepted exactly when SOF,
      VERSION and LENGTH are intact and the error pattern has CRC 0. */
  lemma DamageAcceptedWhen(f: WireFrame, y: seq<Octet>)
    requires |y| == |Encode(f)|
    ensures DecodeFrame(y).Ok? <==>
      && y[0] == SOF && y[1] == VERSION && y[4] == |f.payload|
      && BitRegister(ErrorBits(Encode(f), y)) == ZERO
  {
    hide Crc;
    var x := Encode(f);
    assert x[1..|x| - 1] == Body(f);
    if y[0] == SOF {
      VerdictOnErrors(x, y);
    }
  }

  /** Changing one, two or three bits of an encoded frame, any odd number of bits, or any
      burst of at most eight bits, makes `decode_frame` reject it. */
  lemma DamageIsDetected(f: WireFrame, y: seq<Octet>)
    requires |y| == |Encode(f)|
    requires IsDetectable(ErrorBits(Encode(f), y))
    ensures DecodeFrame(y).Err?
  {
    DamageAcceptedWhen(f, y);
    DetectablePatternSurvives(ErrorBits(Encode(f), y));
  }
}
