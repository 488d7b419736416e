/** The streaming frame parser of firmware/protocol/protocol.c as a state machine, and
    the batch scanner it implements. */
module Parser {
  import opened Bytes
  import opened Frames

  datatype State =
    | WaitSof | ReadVersion | ReadType | ReadSequence | ReadLength | ReadPayload | ReadCrc

  /** `parser_state` and `received_frame`; `payload` is the part filled so far. */
  datatype Parser = Parser(state: State, frameType: Octet, sequence: Octet, length: Octet,
                           payload: seq<Octet>)

  const RESET := Parser(WaitSof, 0, 0, 0, [])

  /** How a candidate frame can end. */
  datatype Ending = Delivered(frame: Frame) | CrcError | VersionError | LengthError | TimedOut

  datatype Step = Step(parser: Parser, log: seq<Ending>)

  function Verdict(f: Frame, b: Octet): Ending {
    if b == ComputeCrc(f) then Delivered(f) else CrcError
  }

  /** `protocol_process_byte` without its clock. */
  function Accept(p: Parser, b: Octet): Step {
    match p.state
    case WaitSof =>
      Step(if b == SOF then RESET.(state := ReadVersion) else p, [])
    case ReadVersion =>
      if b == VERSION then Step(p.(state := ReadType), []) else Step(RESET, [VersionError])
    case ReadType => Step(p.(frameType := b, state := ReadSequence), [])
    case ReadSequence => Step(p.(sequence := b, state := ReadLength), [])
    case ReadLength =>
      if b > MAX_PAYLOAD then Step(RESET, [LengthError])
      else
        Step(p.(length := b, payload := [], state := if b == 0 then ReadCrc else ReadPayload), [])
    case ReadPayload =>
      if |p.payload| < p.length && |p.payload| < MAX_PAYLOAD then
        var longer := p.payload + [b];
        Step(p.(payload := longer, state := if |longer| == p.length then ReadCrc else ReadPayload), [])
      else Step(RESET, [LengthError])
    case ReadCrc =>
      var f := Frame(p.frameType, p.sequence, p.payload);
      Step(RESET, [Verdict(f, b)])
  }

  /** What holds of every reachable parser: the payload cursor is inside the announced
      length while reading the payload and at it when reading the CRC. */
  ghost predicate Sound(p: Parser) {
    && (p.state == WaitSof ==> p.payload == [])
    && (p.state == ReadPayload ==> |p.payload| < p.length <= MAX_PAYLOAD)
    && (p.state == ReadCrc ==> |p.payload| == p.length <= MAX_PAYLOAD)
  }

  lemma SoundIsKept(p: Parser, b: Octet)
    requires Sound(p)
    ensures Sound(Accept(p, b).parser)
    ensures p.state == ReadPayload ==> Accept(p, b).log == []
  {
  }

  function Feed(p: Parser, bytes: seq<Octet>): Step
    decreases |bytes|
  {
    if |bytes| == 0 then Step(p, [])
    else
      var first := Accept(p, bytes[0]);
      var rest := Feed(first.parser, bytes[1..]);
      Step(rest.parser, first.log + rest.log)
  }

  lemma {:induction false} FeedConcat(p: Parser, x: seq<Octet>, y: seq<Octet>)
    ensures var first := Feed(p, x); var second := Feed(first.parser, y);
      Feed(p, x + y) == Step(second.parser, first.log + second.log)
    decreases |x|
  {
    hide Accept;
    if |x| == 0 {
      assert x + y == y;
    } else {
      assert (x + y)[1..] == x[1..] + y;
      FeedConcat(Accept(p, x[0]).parser, x[1..], y);
    }
  }

  // ----- the scanner -----

  datatype Scan = Scan(log: seq<Ending>, rest: seq<Octet>) {
    function After(earlier: seq<Ending>): Scan {
      Scan(earlier + log, rest)
    }
  }

  /** Skip to 0xA5; give up on a bad version or length right there, without looking at that
      byte again; otherwise take a whole frame and ask `decode_frame`. */
  function ScanFrames(bytes: seq<Octet>): Scan {
    if |bytes| == 0 then Scan([], [])
    else if bytes[0] != 0xA5 then ScanFrames(bytes[1..])
    else if |bytes| < 2 then Scan([], bytes)
    else if bytes[1] != 1 then ScanFrames(bytes[2..]).After([VersionError])
    else if |bytes| < 5 then Scan([], bytes)
    else if bytes[4] > 8 then ScanFrames(bytes[5..]).After([LengthError])
    else if |bytes| < 6 + bytes[4] then Scan([], bytes)
    else
      var n := 6 + bytes[4];
      var ending := match DecodeFrame(bytes[..n]) case Ok(f) => Delivered(f) case Err(_) => CrcError;
      ScanFrames(bytes[n..]).After([ending])
  }

  /** The parser that has seen exactly the incomplete frame `rest`. */
  function Partial(rest: seq<Octet>): Parser {
    if |rest| == 0 then RESET
    else if |rest| == 1 then RESET.(state := ReadVersion)
    else if |rest| == 2 then RESET.(state := ReadType)
    else if |rest| == 3 then RESET.(state := ReadSequence, frameType := rest[2])
    else if |rest| == 4 then RESET.(state := ReadLength, frameType := rest[2], sequence := rest[3])
    else
      Parser(if |rest| - 5 == rest[4] then ReadCrc else ReadPayload,
             rest[2], rest[3], rest[4], rest[5..])
  }

  ghost predicate GoodHeader(bytes: seq<Octet>) {
    && (|bytes| > 0 ==> bytes[0] == SOF)
    && (|bytes| > 1 ==> bytes[1] == VERSION)
    && (|bytes| > 4 ==> bytes[4] <= MAX_PAYLOAD && |bytes| <= 5 + bytes[4])
  }

  /** An incomplete frame with a good header ends nothing and leaves its `Partial`. */
  lemma {:induction false} FeedPartial(bytes: seq<Octet>)
    requires GoodHeader(bytes)
    ensures Feed(RESET, bytes) == Step(Partial(bytes), [])
  {
    if |bytes| > 0 {
      var n := |bytes| - 1;
      var shorter, last := bytes[..n], bytes[n];
      FeedPartial(shorter);
      assert bytes == shorter + [last];
      FeedConcat(RESET, shorter, [last]);
      FeedOne(Partial(shorter), last);
      if n > 4 {
        assert bytes[5..] == shorter[5..] + [last];
      }
    }
  }

  lemma FeedOne(p: Parser, b: Octet)
    ensures Feed(p, [b]) == Accept(p, b)
  {
    assert [b][1..] == [];
    assert Accept(p, b).log + [] == Accept(p, b).log;
  }

  /** The byte after a complete header and payload is compared with the CRC. */
  lemma FeedCrcByte(head: seq<Octet>, b: Octet)
    requires GoodHeader(head) && |head| >= 5 && |head| == 5 + head[4]
    ensures Feed(RESET, head + [b]) == Step(RESET, [Verdict(Frame(head[2], head[3], head[5..]), b)])
  {
    hide ComputeCrc;
    FeedPartial(head);
    FeedConcat(RESET, head, [b]);
    FeedOne(Partial(head), b);
  }

  /** `decode_frame` returns the same verdict. */
  lemma FeedWhole(bytes: seq<Octet>)
    requires |bytes| >= OVERHEAD && bytes[0] == SOF && bytes[1] == VERSION
    requires bytes[4] <= MAX_PAYLOAD && |bytes| == OVERHEAD + bytes[4]
    ensures Feed(RESET, bytes) == Step(RESET,
      [match DecodeFrame(bytes) case Ok(f) => Delivered(f) case Err(_) => CrcError])
  {
    hide FrameCrc, Feed, DecodeFrame;
    var n := |bytes| - 1;
    var head := bytes[..n];
    assert head[5..] == bytes[5..n] && bytes == head + [bytes[n]];
    DecodeWhole(bytes);
    FeedCrcByte(head, bytes[n]);
  }

  /** The streaming parser delivers exactly what the scanner finds, and holds exactly the
      scanner's unfinished rest. */
  lemma {:induction false} ParserRefinesScanner(bytes: seq<Octet>)
    ensures Feed(RESET, bytes) == Step(Partial(ScanFrames(bytes).rest), ScanFrames(bytes).log)
  {
    if |bytes| == 0 {
    } else if bytes[0] != SOF {
      ParserRefinesScanner(bytes[1..]);
    } else if |bytes| < 2 {
      FeedPartial(bytes);
    } else if bytes[1] != VERSION {
      SplitFeed(bytes, 1);
    } else if |bytes| < 5 {
      FeedPartial(bytes);
    } else if bytes[4] > MAX_PAYLOAD {
      SplitFeed(bytes, 4);
    } else if |bytes| < OVERHEAD + bytes[4] {
      FeedPartial(bytes);
    } else {
      var n := OVERHEAD + bytes[4];
      FeedWhole(bytes[..n]);
      FeedConcat(RESET, bytes[..n], bytes[n..]);
      assert bytes == bytes[..n] + bytes[n..];
      ParserRefinesScanner(bytes[n..]);
    }
  }

  /** The two early exits: byte `n` is the offending one. */
  lemma {:induction false} SplitFeed(bytes: seq<Octet>, n: nat)
    requires n < |bytes| && bytes[0] == SOF
    requires (n == 1 && bytes[1] != VERSION)
          || (n == 4 && bytes[1] == VERSION && bytes[4] > MAX_PAYLOAD)
    ensures Feed(RESET, bytes) == Step(Partial(ScanFrames(bytes).rest), ScanFrames(bytes).log)
    decreases bytes, 0
  {
    var head := bytes[..n];
    FeedPartial(head);
    FeedConcat(RESET, head, [bytes[n]]);
    FeedOne(Partial(head), bytes[n]);
    assert bytes == (head + [bytes[n]]) + bytes[n + 1..];
    FeedConcat(RESET, head + [bytes[n]], bytes[n + 1..]);
    ParserRefinesScanner(bytes[n + 1..]);
  }

  // ----- resynchronisation -----

  /** Bytes that can still pass before the parser is back in `WaitSof`. */
  function Rank(p: Parser): nat {
    match p.state
    case WaitSof => 0
    case ReadVersion => 13
    case ReadType => 12
    case ReadSequence => 11
    case ReadLength => 10
    case ReadPayload => if |p.payload| < p.length then p.length - |p.payload| + 1 else 1
    case ReadCrc => 1
  }

  lemma RankFalls(p: Parser, b: Octet)
    requires Sound(p) && p.state != WaitSof
    ensures Rank(Accept(p, b).parser) < Rank(p) <= 13
  {
  }

  /** As many bytes other than SOF as the rank says, and the parser is idle again. */
  lemma {:induction false} QuietBytesReset(p: Parser, quiet: seq<Octet>)
    requires Sound(p) && Rank(p) <= |quiet| && SOF !in quiet
    ensures Feed(p, quiet).parser.state == WaitSof
    decreases |quiet|
  {
    if |quiet| > 0 {
      var next := Accept(p, quiet[0]).parser;
      SoundIsKept(p, quiet[0]);
      if p.state != WaitSof {
        RankFalls(p, quiet[0]);
      }
      QuietBytesReset(next, quiet[1..]);
    }
  }

  lemma {:induction false} SoundRun(p: Parser, bytes: seq<Octet>)
    requires Sound(p)
    ensures Sound(Feed(p, bytes).parser)
    decreases |bytes|
  {
    if |bytes| > 0 {
      SoundIsKept(p, bytes[0]);
      SoundRun(Accept(p, bytes[0]).parser, bytes[1..]);
    }
  }

  /** A parser in `WaitSof` behaves like a reset one. */
  lemma {:induction false} IdleIsReset(p: Parser, bytes: seq<Octet>)
    requires p.state == WaitSof
    ensures Feed(p, bytes).log == Feed(RESET, bytes).log
    ensures Feed(RESET, bytes).parser.state == WaitSof
        ==> Feed(p, bytes).parser.state == WaitSof
    decreases |bytes|
  {
    if |bytes| > 0 && bytes[0] != SOF {
      IdleIsReset(p, bytes[1..]);
    }
  }

  /** An encoded frame that finds the parser idle is delivered and leaves it idle. */
  lemma IdleDelivers(p: Parser, f: WireFrame)
    requires p.state == WaitSof
    ensures Feed(p, Encode(f)).log == [Delivered(f)]
    ensures Feed(p, Encode(f)).parser.state == WaitSof
  {
    RoundTrip(f);
    FeedWhole(Encode(f));
    IdleIsReset(p, Encode(f));
  }

  /** After any garbage and thirteen bytes that are not SOF, the next frame is delivered. */
  lemma Resynchronises(p: Parser, garbage: seq<Octet>, quiet: seq<Octet>, f: WireFrame)
    requires Sound(p) && |quiet| >= 13 && SOF !in quiet
    ensures Feed(p, garbage + quiet + Encode(f)).log
         == Feed(p, garbage + quiet).log + [Delivered(f)]
  {
    var dirty := Feed(p, garbage).parser;
    SoundRun(p, garbage);
    if dirty.state != WaitSof {
      RankFalls(dirty, 0);
    }
    QuietBytesReset(dirty, quiet);
    FeedConcat(p, garbage, quiet);
    IdleDelivers(Feed(p, garbage + quiet).parser, f);
    FeedConcat(p, garbage + quiet, Encode(f));
  }

  /** Twelve are not enough: they can leave the parser waiting for a CRC ... */
  lemma TwelveAreNotEnough() returns (p: Parser, quiet: seq<Octet>)
    ensures Sound(p) && |quiet| == 12 && SOF !in quiet
    ensures Feed(p, quiet).parser.state == ReadCrc
  {
    hide ComputeCrc, Feed;
    p := RESET.(state := ReadVersion);
    quiet := [1, 0, 0, 8, 0, 0, 0, 0, 0, 0, 0, 0];
    FeedPartial([SOF] + quiet);
    FeedConcat(RESET, [SOF], quiet);
    FeedOne(RESET, SOF);
  }

  /** ... and the frame that follows is swallowed: only the old candidate ends. */
  lemma FrameIsSwallowed(p: Parser, f: WireFrame)
    requires p.state == ReadCrc && SOF !in Encode(f)[1..]
    ensures Feed(p, Encode(f)).log == [Verdict(Frame(p.frameType, p.sequence, p.payload), SOF)]
  {
    NothingBeforeSof(RESET, Encode(f)[1..]);
  }

  lemma {:induction false} NothingBeforeSof(p: Parser, bytes: seq<Octet>)
    requires p.state == WaitSof && SOF !in bytes
    ensures Feed(p, bytes) == Step(p, [])
    decreases |bytes|
  {
    if |bytes| > 0 {
      NothingBeforeSof(p, bytes[1..]);
    }
  }

  /** A stream of encoded frames is delivered frame by frame. */
  lemma {:induction false} StreamIsDelivered(p: Parser, frames: seq<WireFrame>)
    requires p.state == WaitSof
    ensures |Feed(p, EncodeAll(frames)).log| == |frames|
    ensures forall i :: 0 <= i < |frames| ==>
      Feed(p, EncodeAll(frames)).log[i] == Delivered(frames[i])
    decreases |frames|
  {
    if |frames| > 0 {
      var after := Feed(p, Encode(frames[0])).parser;
      IdleDelivers(p, frames[0]);
      FeedConcat(p, Encode(frames[0]), EncodeAll(frames[1..]));
      StreamIsDelivered(after, frames[1..]);
    }
  }
}
