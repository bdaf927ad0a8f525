/**
 * Modbus RTU framing: a unit id byte, the PDU, and a CRC-16/MODBUS of both,
 * low byte first. Nothing on the wire gives the frame's length, so the parser
 * works it out from the function code: a fixed body length, or the position
 * of a byte count inside the PDU.
 */
module Rtu {
  import opened Num
  import opened Wrappers
  import opened Errors
  import opened Types
  import opened Function
  import opened Exception
  import opened Buffers
  import opened Frames
  import opened WriteCursors
  import opened Serialize
  import opened Crc

  const HEADER_LENGTH: nat := 1
  const FUNCTION_CODE_LENGTH: nat := 1
  const CRC_LENGTH: nat := 2
  const MAX_FRAME_LENGTH: nat := HEADER_LENGTH + MAX_ADU_LENGTH + CRC_LENGTH

  /** A server parses requests, a client parses responses. */
  datatype ParserType = Request | Response

  /**
   * `Start`, or a unit id read and the number of PDU bytes after the function
   * code still to come, or a unit id read and the offset of the byte count.
   */
  datatype ParseState =
    | Start
    | ReadFullBody(unitId: UnitId, length: nat)
    | ReadToOffsetForLength(unitId: UnitId, offset: nat)

  /**
   * How the body length follows from the function code: a fixed number of
   * bytes after the function code, or the value of the byte at `offset`
   * after the function code plus `offset` itself; `Unknown` cannot be framed.
   */
  datatype LengthMode = Fixed(length: nat) | Offset(offset: nat) | Unknown

  /**
   * `length_mode`. A response function byte with the top bit set is an
   * exception reply, one code byte long. The user-defined function codes,
   * which `FunctionCode::get` does know, have no length rule and are
   * `Unknown` like every other byte.
   */
  function LengthModeOf(pt: ParserType, fc: u8): (m: LengthMode)
    ensures pt.Response? && fc >= 0x80 ==> m == Fixed(1)
    ensures m.Unknown? <==> !(pt.Response? && fc >= 0x80) && !(1 <= fc <= 6 || fc == 15 || fc == 16)
    ensures pt.Request? && 1 <= fc <= 6 ==> m == Fixed(4)
    ensures pt.Request? && (fc == 15 || fc == 16) ==> m == Offset(5)
    ensures pt.Response? && 1 <= fc <= 4 ==> m == Offset(1)
    ensures pt.Response? && (5 <= fc <= 6 || fc == 15 || fc == 16) ==> m == Fixed(4)
  {
    if pt.Response? && fc >= 0x80 then Fixed(1)
    else match Get(fc) {
      case None => LengthMode.Unknown
      case Some(code) =>
        match pt {
          case Request =>
            match code {
              case ReadCoils => Fixed(4)
              case ReadDiscreteInputs => Fixed(4)
              case ReadHoldingRegisters => Fixed(4)
              case ReadInputRegisters => Fixed(4)
              case WriteSingleCoil => Fixed(4)
              case WriteSingleRegister => Fixed(4)
              case WriteMultipleCoils => Offset(5)
              case WriteMultipleRegisters => Offset(5)
              case SendCustomFunctionCode(_) => LengthMode.Unknown
            }
          case Response =>
            match code {
              case ReadCoils => Offset(1)
              case ReadDiscreteInputs => Offset(1)
              case ReadHoldingRegisters => Offset(1)
              case ReadInputRegisters => Offset(1)
              case WriteSingleCoil => Fixed(4)
              case WriteSingleRegister => Fixed(4)
              case WriteMultipleCoils => Fixed(4)
              case WriteMultipleRegisters => Fixed(4)
              case SendCustomFunctionCode(_) => LengthMode.Unknown
            }
        }
    }
  }

  /** The states ordered by how far they are from a frame, for the recursion of `parse`. */
  function Rank(state: ParseState): nat {
    match state
    case Start => 2
    case ReadToOffsetForLength(_, _) => 1
    case ReadFullBody(_, _) => 0
  }

  /** A step that consumed `n` bytes before handing over to `inner`. */
  function Then(n: nat, inner: ParseStep<ParseState>): (s: ParseStep<ParseState>)
    ensures s.next == inner.next && s.result == inner.result && s.consumed == n + inner.consumed
  {
    ParseStep(inner.next, n + inner.consumed, inner.result)
  }

  /** The CRC the parser expects: `update(&[unit_id])`, then `update(payload)`, then `finalize`. */
  function ExpectedCrc(unitId: u8, pdu: seq<u8>): (c: u16)
    ensures c == Checksum([unitId] + pdu)
  {
    UpdateAppend(INIT, [unitId], pdu);
    Finalize(Update(Update(INIT, [unitId]), pdu))
  }

  /**
   * One call of `parse` on the unread bytes `window`: the next state, how many
   * bytes it consumed, and its answer. Errors leave the state where the
   * failing branch found it; the reader resets the parser after any error.
   */
  function Step(pt: ParserType, crc: seq<u8> -> u16, state: ParseState, window: seq<u8>): (s: ParseStep<ParseState>)
    ensures s.consumed <= |window|
    decreases Rank(state)
  {
    match state
    case Start =>
      if |window| < 2 then ParseStep(Start, 0, Ok(None))
      else
        var unitId := UnitId(window[0]);
        var fc := window[1];
        match LengthModeOf(pt, fc) {
          case Fixed(length) => Then(1, Step(pt, crc, ReadFullBody(unitId, length), window[1..]))
          case Offset(offset) => Then(1, Step(pt, crc, ReadToOffsetForLength(unitId, offset), window[1..]))
          case Unknown => ParseStep(Start, 1, Err(BadFrame(UnknownFunctionCode(fc))))
        }
    case ReadToOffsetForLength(unitId, offset) =>
      if |window| < FUNCTION_CODE_LENGTH + offset then ParseStep(state, 0, Ok(None))
      else Step(pt, crc, ReadFullBody(unitId, offset + window[FUNCTION_CODE_LENGTH + offset - 1]), window)
    case ReadFullBody(unitId, length) =>
      if FUNCTION_CODE_LENGTH + length > MAX_ADU_LENGTH then
        ParseStep(state, 0, Err(BadFrame(FrameLengthTooBig(FUNCTION_CODE_LENGTH + length, MAX_ADU_LENGTH))))
      else if |window| < FUNCTION_CODE_LENGTH + length + CRC_LENGTH then ParseStep(state, 0, Ok(None))
      else
        var n := FUNCTION_CODE_LENGTH + length;
        var pdu := window[..n];
        var received := Le16(window[n], window[n + 1]);
        var expected := crc([unitId.value] + pdu);
        if received != expected then
          ParseStep(state, n + CRC_LENGTH, Err(BadFrame(CrcValidationFailure(received, expected))))
        else
          ParseStep(Start, n + CRC_LENGTH, Ok(Some(FrameValue(NewRtuHeader(UnitIdDestination(unitId)), pdu))))
  }

  /** The `Start` step: too short, an unknown function code, or on to the body state the code selects. */
  lemma StartStep(pt: ParserType, w: seq<u8>)
    ensures var s := Step(pt, Checksum, Start, w);
            var mode := if |w| < 2 then LengthMode.Unknown else LengthModeOf(pt, w[1]);
            && (|w| < 2 ==> s == ParseStep(Start, 0, Ok(None)))
            && (|w| >= 2 && mode.Fixed? ==> s == Then(1, Step(pt, Checksum, ReadFullBody(UnitId(w[0]), mode.length), w[1..])))
            && (|w| >= 2 && mode.Offset? ==> s == Then(1, Step(pt, Checksum, ReadToOffsetForLength(UnitId(w[0]), mode.offset), w[1..])))
            && (|w| >= 2 && mode.Unknown? ==> s == ParseStep(Start, 1, Err(BadFrame(UnknownFunctionCode(w[1])))))
  {
  }

  /** The three outcomes of the `ReadFullBody` step: too long, not yet complete, or a checked frame. */
  lemma FullBodyStep(pt: ParserType, unitId: UnitId, length: nat, w: seq<u8>)
    ensures var n := FUNCTION_CODE_LENGTH + length;
            var s := Step(pt, Checksum, ReadFullBody(unitId, length), w);
            if n > MAX_ADU_LENGTH then s == ParseStep(ReadFullBody(unitId, length), 0, Err(BadFrame(FrameLengthTooBig(n, MAX_ADU_LENGTH))))
            else if |w| < n + CRC_LENGTH then s == ParseStep(ReadFullBody(unitId, length), 0, Ok(None))
            else
              var received := Le16(w[n], w[n + 1]);
              var expected := Checksum([unitId.value] + w[..n]);
              s == if received != expected
                   then ParseStep(ReadFullBody(unitId, length), n + CRC_LENGTH, Err(BadFrame(CrcValidationFailure(received, expected))))
                   else ParseStep(Start, n + CRC_LENGTH, Ok(Some(FrameValue(NewRtuHeader(UnitIdDestination(unitId)), w[..n]))))
  {
  }

  /** The parser as the frame reader sees it. */
  function Parser(pt: ParserType): (ParseState, seq<u8>) -> ParseStep<ParseState> {
    (s, w) => Step(pt, Checksum, s, w)
  }

  lemma ParserConsumes(pt: ParserType)
    ensures Consumes(Parser(pt))
  {
    forall s, w ensures Parser(pt)(s, w).consumed <= |w| {
      var _ := Step(pt, Checksum, s, w);
    }
  }

  // ---------------------------------------------------------------------------
  // Which frames there are

  /**
   * `pdu` is a PDU whose length is the one its function code announces to a
   * parser of type `pt`, and it fits the 253-byte limit.
   */
  predicate Delimited(pt: ParserType, pdu: seq<u8>) {
    1 <= |pdu| <= MAX_ADU_LENGTH &&
    match LengthModeOf(pt, pdu[0]) {
      case Fixed(length) => |pdu| == FUNCTION_CODE_LENGTH + length
      case Offset(offset) => offset < |pdu| && |pdu| == FUNCTION_CODE_LENGTH + offset + pdu[offset]
      case Unknown => false
    }
  }

  /** The frame `format_impl` writes: unit id, PDU, and the CRC of both, low byte first. */
  function EncodeRtu(crc: seq<u8> -> u16, unitId: u8, pdu: seq<u8>): (r: seq<u8>)
    ensures |r| == HEADER_LENGTH + |pdu| + CRC_LENGTH
    ensures r[0] == unitId && r[HEADER_LENGTH..HEADER_LENGTH + |pdu|] == pdu
  {
    [unitId] + pdu + LeBytes(crc([unitId] + pdu))
  }

  // ---------------------------------------------------------------------------
  // Properties of one step

  /**
   * A body of the announced length followed by two CRC bytes: the frame when
   * the CRC matches the unit id and PDU, `CrcValidationFailure` otherwise;
   * either way the body and the CRC are consumed.
   */
  lemma StepBody(pt: ParserType, crc: seq<u8> -> u16, unitId: UnitId, pdu: seq<u8>, c0: u8, c1: u8, rest: seq<u8>)
    requires 1 <= |pdu| <= MAX_ADU_LENGTH
    ensures var s := Step(pt, crc, ReadFullBody(unitId, |pdu| - 1), pdu + [c0, c1] + rest);
            var expected := crc([unitId.value] + pdu);
            s.consumed == |pdu| + CRC_LENGTH
            && (Le16(c0, c1) == expected ==>
                  s.next == Start && s.result == Ok(Some(FrameValue(NewRtuHeader(UnitIdDestination(unitId)), pdu))))
            && (Le16(c0, c1) != expected ==>
                  s.next == ReadFullBody(unitId, |pdu| - 1)
                  && s.result == Err(BadFrame(CrcValidationFailure(Le16(c0, c1), expected))))
  {
    var w := pdu + [c0, c1] + rest;
    assert w[..|pdu|] == pdu && w[|pdu|] == c0 && w[|pdu| + 1] == c1;
  }

  /**
   * From `Start`, a unit id and a delimited PDU: the unit id is consumed and
   * the parser goes on to read the PDU's announced length.
   */
  lemma StepHeader(pt: ParserType, crc: seq<u8> -> u16, unitId: u8, pdu: seq<u8>, tail: seq<u8>)
    requires Delimited(pt, pdu)
    ensures Step(pt, crc, Start, [unitId] + pdu + tail)
            == Then(1, Step(pt, crc, ReadFullBody(UnitId(unitId), |pdu| - 1), pdu + tail))
  {
    var w := [unitId] + pdu + tail;
    var body := pdu + tail;
    assert w[0] == unitId && w[1] == pdu[0] && w[1..] == body;
    match LengthModeOf(pt, pdu[0]) {
      case Fixed(length) =>
      case Offset(offset) =>
        assert body[offset] == pdu[offset];
    }
  }

  /**
   * A delimited frame whose CRC bytes do not match its unit id and PDU is a
   * `CrcValidationFailure` carrying both values, with the whole frame consumed.
   */
  lemma StepCrcMismatch(pt: ParserType, crc: seq<u8> -> u16, unitId: u8, pdu: seq<u8>, c0: u8, c1: u8, rest: seq<u8>)
    requires Delimited(pt, pdu) && Le16(c0, c1) != crc([unitId] + pdu)
    ensures Step(pt, crc, Start, [unitId] + pdu + [c0, c1] + rest)
            == ParseStep(ReadFullBody(UnitId(unitId), |pdu| - 1), HEADER_LENGTH + |pdu| + CRC_LENGTH,
                         Err(BadFrame(CrcValidationFailure(Le16(c0, c1), crc([unitId] + pdu)))))
  {
    var w := [unitId] + pdu + [c0, c1] + rest;
    StepHeader(pt, crc, unitId, pdu, [c0, c1] + rest);
    assert [unitId] + pdu + ([c0, c1] + rest) == w;
    assert pdu + ([c0, c1] + rest) == pdu + [c0, c1] + rest;
    StepBody(pt, crc, UnitId(unitId), pdu, c0, c1, rest);
  }

  /**
   * Parsing what `format_impl` wrote yields the frame with the same unit id
   * and PDU, consumes exactly the frame, and leaves what follows it for the
   * next call.
   */
  lemma ParseEncodeRtu(pt: ParserType, crc: seq<u8> -> u16, unitId: u8, pdu: seq<u8>, rest: seq<u8>)
    requires Delimited(pt, pdu)
    ensures Step(pt, crc, Start, EncodeRtu(crc, unitId, pdu) + rest)
            == ParseStep(Start, HEADER_LENGTH + |pdu| + CRC_LENGTH,
                         Ok(Some(FrameValue(NewRtuHeader(UnitIdDestination(UnitId(unitId))), pdu))))
  {
    var c := LeBytes(crc([unitId] + pdu));
    var w := EncodeRtu(crc, unitId, pdu) + rest;
    StepHeader(pt, crc, unitId, pdu, c + rest);
    assert [unitId] + pdu + (c + rest) == w;
    assert pdu + (c + rest) == pdu + [c[0], c[1]] + rest;
    StepBody(pt, crc, UnitId(unitId), pdu, c[0], c[1], rest);
  }

  /**
   * A frame accepted in `ReadFullBody(unitId, length)` is the next
   * `length + 1` bytes, followed by their CRC.
   */
  lemma BodySound(pt: ParserType, crc: seq<u8> -> u16, unitId: UnitId, length: nat, window: seq<u8>)
    requires Step(pt, crc, ReadFullBody(unitId, length), window).result.Ok?
    requires Step(pt, crc, ReadFullBody(unitId, length), window).result.value.Some?
    ensures var s := Step(pt, crc, ReadFullBody(unitId, length), window);
            var n := FUNCTION_CODE_LENGTH + length;
            && n <= MAX_ADU_LENGTH && n + CRC_LENGTH <= |window| && s.consumed == n + CRC_LENGTH
            && s.result.value.value == FrameValue(NewRtuHeader(UnitIdDestination(unitId)), window[..n])
            && Le16(window[n], window[n + 1]) == crc([unitId.value] + window[..n])
  {
  }

  /**
   * Every frame the parser accepts from `Start` is a delimited PDU behind its
   * unit id and followed by its own CRC: the parser accepts exactly the
   * frames `EncodeRtu` makes.
   */
  lemma StepSound(pt: ParserType, crc: seq<u8> -> u16, window: seq<u8>)
    requires Step(pt, crc, Start, window).result.Ok? && Step(pt, crc, Start, window).result.value.Some?
    ensures var s := Step(pt, crc, Start, window);
            var frame := s.result.value.value;
            && Delimited(pt, frame.payload)
            && frame.header == NewRtuHeader(UnitIdDestination(UnitId(window[0])))
            && s.consumed == |EncodeRtu(crc, window[0], frame.payload)|
            && window[..s.consumed] == EncodeRtu(crc, window[0], frame.payload)
  {
    var body := window[1..];
    var unitId := UnitId(window[0]);
    var length := StartLength(pt, crc, window);
    BodySound(pt, crc, unitId, length, body);
    var pdu := body[..length + 1];
    assert pdu[0] == window[1];
    assert LengthModeOf(pt, pdu[0]).Offset? ==> pdu[LengthModeOf(pt, pdu[0]).offset] == body[LengthModeOf(pt, pdu[0]).offset];
    assert Delimited(pt, pdu);
    FrameIsEncoded(window, pdu, crc([window[0]] + pdu));
  }

  /** A unit id, a PDU and the PDU's CRC at the front of `window` are an encoded frame. */
  lemma FrameIsEncoded(window: seq<u8>, pdu: seq<u8>, code: u16)
    requires |pdu| + 3 <= |window| && window[1..][..|pdu|] == pdu
    requires Le16(window[1..][|pdu|], window[1..][|pdu| + 1]) == code
    ensures window[..|pdu| + 3] == [window[0]] + pdu + LeBytes(code)
  {
    FrameBytes(window, |pdu|);
  }

  /**
   * A step from `Start` that gets past the function code goes on to read a
   * body whose length is the fixed one, or the offset plus the byte count.
   */
  lemma StartLength(pt: ParserType, crc: seq<u8> -> u16, window: seq<u8>) returns (length: nat)
    requires Step(pt, crc, Start, window).result.Ok? && Step(pt, crc, Start, window).result.value.Some?
    ensures |window| >= 2 && !LengthModeOf(pt, window[1]).Unknown?
    ensures Step(pt, crc, Start, window) == Then(1, Step(pt, crc, ReadFullBody(UnitId(window[0]), length), window[1..]))
    ensures LengthModeOf(pt, window[1]).Fixed? ==> length == LengthModeOf(pt, window[1]).length
    ensures LengthModeOf(pt, window[1]).Offset? ==>
              1 + LengthModeOf(pt, window[1]).offset < |window|
              && length == LengthModeOf(pt, window[1]).offset + window[1 + LengthModeOf(pt, window[1]).offset]
  {
    var body := window[1..];
    var unitId := UnitId(window[0]);
    match LengthModeOf(pt, window[1]) {
      case Fixed(n) =>
        length := n;
      case Offset(offset) =>
        length := offset + body[offset];
        assert Step(pt, crc, ReadToOffsetForLength(unitId, offset), body) == Step(pt, crc, ReadFullBody(unitId, length), body);
    }
  }

  /** The first `k + 3` bytes of a window, cut as unit id, `k` PDU bytes and two CRC bytes. */
  lemma FrameBytes(window: seq<u8>, k: nat)
    requires k + 3 <= |window|
    ensures window[..k + 3] == [window[0]] + window[1..][..k] + [window[1..][k], window[1..][k + 1]]
  {
  }

  /**
   * Every proper prefix of a frame leaves the parser waiting for more bytes:
   * fed one byte at a time, it answers only at the last one.
   */
  lemma PrefixPending(pt: ParserType, crc: seq<u8> -> u16, unitId: u8, pdu: seq<u8>, k: nat)
    requires Delimited(pt, pdu) && k < |EncodeRtu(crc, unitId, pdu)|
    ensures Step(pt, crc, Start, EncodeRtu(crc, unitId, pdu)[..k]).result == Ok(None)
  {
    var frame := EncodeRtu(crc, unitId, pdu);
    var w := frame[..k];
    if k >= 2 {
      var body := w[1..];
      assert w[1] == pdu[0];
      match LengthModeOf(pt, pdu[0]) {
        case Fixed(n) =>
        case Offset(offset) =>
          if |body| >= FUNCTION_CODE_LENGTH + offset {
            assert body[offset] == pdu[offset];
          }
      }
    }
  }

  /**
   * A byte count announcing more than the PDU limit is rejected as soon as
   * the byte count itself has arrived, before any of the body.
   */
  lemma StepOffsetTooBig(pt: ParserType, crc: seq<u8> -> u16, window: seq<u8>, offset: nat)
    requires |window| >= 2 && LengthModeOf(pt, window[1]) == Offset(offset)
    requires |window| >= HEADER_LENGTH + FUNCTION_CODE_LENGTH + offset
    requires FUNCTION_CODE_LENGTH + offset + window[1 + offset] > MAX_ADU_LENGTH
    ensures var length := offset + window[1 + offset];
            Step(pt, crc, Start, window)
            == ParseStep(ReadFullBody(UnitId(window[0]), length), 1,
                         Err(BadFrame(FrameLengthTooBig(FUNCTION_CODE_LENGTH + length, MAX_ADU_LENGTH))))
  {
    assert window[1..][offset] == window[1 + offset];
  }

  /** A function code with no length rule is an error once the unit id is consumed. */
  lemma StepUnknownFunction(pt: ParserType, crc: seq<u8> -> u16, window: seq<u8>)
    requires |window| >= 2 && LengthModeOf(pt, window[1]).Unknown?
    ensures Step(pt, crc, Start, window) == ParseStep(Start, 1, Err(BadFrame(UnknownFunctionCode(window[1]))))
  {
  }

  /**
   * Bytes may arrive in any pieces: when a step on `window` asks for more,
   * the step on what it left plus `more` ends where one step on
   * `window + more` ends, having consumed the same bytes in all.
   */
  lemma StepResumes(pt: ParserType, crc: seq<u8> -> u16, state: ParseState, window: seq<u8>, more: seq<u8>)
    requires Step(pt, crc, state, window).result == Ok(None)
    ensures var first := Step(pt, crc, state, window);
            var second := Step(pt, crc, first.next, window[first.consumed..] + more);
            var whole := Step(pt, crc, state, window + more);
            whole.next == second.next && whole.result == second.result
            && whole.consumed == first.consumed + second.consumed
  {
    match state {
      case ReadFullBody(unitId, length) =>
        BodyResumes(pt, crc, unitId, length, window, more);
      case ReadToOffsetForLength(unitId, offset) =>
        OffsetResumes(pt, crc, unitId, offset, window, more);
      case Start =>
        StartResumes(pt, crc, window, more);
    }
  }

  /** A body still short of bytes waits in its state, having consumed nothing. */
  lemma BodyWaits(pt: ParserType, crc: seq<u8> -> u16, unitId: UnitId, length: nat, window: seq<u8>)
    requires Step(pt, crc, ReadFullBody(unitId, length), window).result == Ok(None)
    ensures Step(pt, crc, ReadFullBody(unitId, length), window) == ParseStep(ReadFullBody(unitId, length), 0, Ok(None))
  {
  }

  /** `StepResumes` in `ReadFullBody`: a waiting body is read afresh from the longer window. */
  lemma BodyResumes(pt: ParserType, crc: seq<u8> -> u16, unitId: UnitId, length: nat, window: seq<u8>, more: seq<u8>)
    requires Step(pt, crc, ReadFullBody(unitId, length), window).result == Ok(None)
    ensures var state := ReadFullBody(unitId, length);
            var first := Step(pt, crc, state, window);
            first.next == state && first.consumed == 0
            && Step(pt, crc, first.next, window[first.consumed..] + more) == Step(pt, crc, state, window + more)
  {
    BodyWaits(pt, crc, unitId, length, window);
    assert window[0..] + more == window + more;
  }

  /** `StepResumes` in `ReadToOffsetForLength`: waiting for the byte count, or reading the body it gives. */
  lemma OffsetResumes(pt: ParserType, crc: seq<u8> -> u16, unitId: UnitId, offset: nat, window: seq<u8>, more: seq<u8>)
    requires Step(pt, crc, ReadToOffsetForLength(unitId, offset), window).result == Ok(None)
    ensures var state := ReadToOffsetForLength(unitId, offset);
            var first := Step(pt, crc, state, window);
            var second := Step(pt, crc, first.next, window[first.consumed..] + more);
            var whole := Step(pt, crc, state, window + more);
            first.consumed == 0 && whole == second
  {
    var state := ReadToOffsetForLength(unitId, offset);
    if |window| < FUNCTION_CODE_LENGTH + offset {
      assert Step(pt, crc, state, window) == ParseStep(state, 0, Ok(None));
      assert window[0..] + more == window + more;
    } else {
      var length := offset + window[offset];
      assert Step(pt, crc, state, window) == Step(pt, crc, ReadFullBody(unitId, length), window);
      assert (window + more)[offset] == window[offset];
      assert Step(pt, crc, state, window + more) == Step(pt, crc, ReadFullBody(unitId, length), window + more);
      BodyResumes(pt, crc, unitId, length, window, more);
    }
  }

  /** `StepResumes` in `Start`: too short for a function code, or past the unit id into a body state. */
  lemma StartResumes(pt: ParserType, crc: seq<u8> -> u16, window: seq<u8>, more: seq<u8>)
    requires Step(pt, crc, Start, window).result == Ok(None)
    ensures var first := Step(pt, crc, Start, window);
            var second := Step(pt, crc, first.next, window[first.consumed..] + more);
            var whole := Step(pt, crc, Start, window + more);
            whole.next == second.next && whole.result == second.result
            && whole.consumed == first.consumed + second.consumed
  {
    if |window| < 2 {
      assert Step(pt, crc, Start, window) == ParseStep(Start, 0, Ok(None));
      assert window[0..] + more == window + more;
    } else {
      assert !LengthModeOf(pt, window[1]).Unknown?;
      var next := StartNext(pt, crc, window);
      var inner := Step(pt, crc, next, window[1..]);
      StartOnLonger(pt, crc, window, more, next);
      InnerResumes(pt, crc, next, window[1..], more);
      assert window[1..][inner.consumed..] == window[1 + inner.consumed..];
    }
  }

  /** The state a `Start` step hands over to once the unit id and function code are there. */
  lemma StartNext(pt: ParserType, crc: seq<u8> -> u16, window: seq<u8>) returns (next: ParseState)
    requires |window| >= 2 && !LengthModeOf(pt, window[1]).Unknown?
    ensures next == match LengthModeOf(pt, window[1]) {
                      case Fixed(length) => ReadFullBody(UnitId(window[0]), length)
                      case Offset(offset) => ReadToOffsetForLength(UnitId(window[0]), offset)
                      case Unknown => Start
                    }
    ensures Step(pt, crc, Start, window) == Then(1, Step(pt, crc, next, window[1..]))
  {
    match LengthModeOf(pt, window[1]) {
      case Fixed(length) => next := ReadFullBody(UnitId(window[0]), length);
      case Offset(offset) => next := ReadToOffsetForLength(UnitId(window[0]), offset);
    }
  }

  /** The same hand-over on a longer window, which starts with the same two bytes. */
  lemma StartOnLonger(pt: ParserType, crc: seq<u8> -> u16, window: seq<u8>, more: seq<u8>, next: ParseState)
    requires |window| >= 2 && !LengthModeOf(pt, window[1]).Unknown?
    requires next == match LengthModeOf(pt, window[1]) {
                       case Fixed(length) => ReadFullBody(UnitId(window[0]), length)
                       case Offset(offset) => ReadToOffsetForLength(UnitId(window[0]), offset)
                       case Unknown => Start
                     }
    ensures Step(pt, crc, Start, window + more) == Then(1, Step(pt, crc, next, window[1..] + more))
  {
    var w := window + more;
    assert w[0] == window[0] && w[1] == window[1] && w[1..] == window[1..] + more;
  }

  /** `StepResumes` for the state after the unit id. */
  lemma InnerResumes(pt: ParserType, crc: seq<u8> -> u16, next: ParseState, body: seq<u8>, more: seq<u8>)
    requires !next.Start? && Step(pt, crc, next, body).result == Ok(None)
    ensures var first := Step(pt, crc, next, body);
            var second := Step(pt, crc, first.next, body[first.consumed..] + more);
            var whole := Step(pt, crc, next, body + more);
            first.consumed == 0 && whole == second
  {
    match next {
      case ReadFullBody(unitId, length) => BodyResumes(pt, crc, unitId, length, body, more);
      case ReadToOffsetForLength(unitId, offset) => OffsetResumes(pt, crc, unitId, offset, body, more);
    }
  }

  /**
   * `can_parse_two_frames_in_a_row`: two frames back to back parse as two
   * frames, the second from the bytes the first left.
   */
  lemma ParsesTwoFrames(pt: ParserType, crc: seq<u8> -> u16, unit1: u8, pdu1: seq<u8>, unit2: u8, pdu2: seq<u8>)
    requires Delimited(pt, pdu1) && Delimited(pt, pdu2)
    ensures var w := EncodeRtu(crc, unit1, pdu1) + EncodeRtu(crc, unit2, pdu2);
            var first := Step(pt, crc, Start, w);
            var second := Step(pt, crc, first.next, w[first.consumed..]);
            first.result == Ok(Some(FrameValue(NewRtuHeader(UnitIdDestination(UnitId(unit1))), pdu1)))
            && second.result == Ok(Some(FrameValue(NewRtuHeader(UnitIdDestination(UnitId(unit2))), pdu2)))
            && first.consumed + second.consumed == |w|
  {
    var f2 := EncodeRtu(crc, unit2, pdu2);
    ParseEncodeRtu(pt, crc, unit1, pdu1, f2);
    ParseEncodeRtu(pt, crc, unit2, pdu2, []);
    var w := EncodeRtu(crc, unit1, pdu1) + f2;
    assert w[|EncodeRtu(crc, unit1, pdu1)|..] == f2 + [];
  }

  // ---------------------------------------------------------------------------
  // The parser

  /** `RtuParser`: the state machine of `Step`, run on a read buffer. */
  class RtuParser {
    var state: ParseState
    const parserType: ParserType

    /** `new_request_parser`: a server's parser, waiting for a frame. */
    constructor NewRequestParser()
      ensures state == Start && parserType == Request
    {
      state := Start;
      parserType := Request;
    }

    /** `new_response_parser`: a client's parser, waiting for a frame. */
    constructor NewResponseParser()
      ensures state == Start && parserType == Response
    {
      state := Start;
      parserType := Response;
    }

    /**
     * The reads of the `ReadFullBody` branch: the function code and `length`
     * more bytes into a new frame, then the CRC, low byte first.
     */
    static method ReadFrame(unitId: UnitId, length: nat, cursor: ReadBuffer) returns (frame: FrameValue, received: u16)
      requires cursor.Valid() && FUNCTION_CODE_LENGTH + length <= MAX_ADU_LENGTH
      requires |cursor.Unread()| >= FUNCTION_CODE_LENGTH + length + CRC_LENGTH
      modifies cursor
      ensures cursor.Valid() && cursor.buffer[..] == old(cursor.buffer[..])
      ensures var w := old(cursor.Unread());
              var n := FUNCTION_CODE_LENGTH + length;
              && frame == FrameValue(NewRtuHeader(UnitIdDestination(unitId)), w[..n])
              && received == Le16(w[n], w[n + 1])
              && cursor.Unread() == w[n + CRC_LENGTH..]
    {
      ghost var w := cursor.Unread();
      var n := FUNCTION_CODE_LENGTH + length;
      var f := new Frame(NewRtuHeader(UnitIdDestination(unitId)));
      var data := cursor.Read(n);
      var _ := f.Set(data.value);
      assert cursor.Unread() == w[n..];
      var crc := cursor.ReadU16Le();
      assert w[n..][..2] == [w[n], w[n + 1]];
      assert w[n..][2..] == w[n + CRC_LENGTH..];
      frame := f.View();
      received := crc.value;
    }

    /** `parse`: one call on the buffer, as `Step` describes it. */
    method Parse(cursor: ReadBuffer) returns (r: Result<Option<FrameValue>, RequestError>)
      requires cursor.Valid()
      modifies this, cursor
      ensures cursor.Valid() && cursor.buffer[..] == old(cursor.buffer[..])
      ensures var s := Step(parserType, Checksum, old(state), old(cursor.Unread()));
              r == s.result && state == s.next && cursor.Unread() == old(cursor.Unread())[s.consumed..]
      decreases Rank(state), 1
    {
      match state {
        case Start => r := ParseStart(cursor);
        case ReadToOffsetForLength(_, _) => r := ParseToOffset(cursor);
        case ReadFullBody(_, _) => r := ParseFullBody(cursor);
      }
    }

    /** The `Start` branch: the unit id, then the function code left in place. */
    method ParseStart(cursor: ReadBuffer) returns (r: Result<Option<FrameValue>, RequestError>)
      requires state == Start
      requires cursor.Valid()
      modifies this, cursor
      ensures cursor.Valid() && cursor.buffer[..] == old(cursor.buffer[..])
      ensures var s := Step(parserType, Checksum, old(state), old(cursor.Unread()));
              r == s.result && state == s.next && cursor.Unread() == old(cursor.Unread())[s.consumed..]
      decreases Rank(state), 0
    {
      ghost var w := cursor.Unread();
      StartStep(parserType, w);
      if cursor.Len() < 2 {
        return Ok(None);
      }
      var u := cursor.ReadU8();
      var unitId := UnitId(u.value);
      var fc := cursor.PeekAt(0);
      assert fc.value == w[1];
      match LengthModeOf(parserType, fc.value) {
        case Fixed(length) =>
          state := ReadFullBody(unitId, length);
        case Offset(offset) =>
          state := ReadToOffsetForLength(unitId, offset);
        case Unknown =>
          return Err(BadFrame(UnknownFunctionCode(fc.value)));
      }
      ghost var inner := Step(parserType, Checksum, state, w[1..]);
      r := Parse(cursor);
      assert w[1..][inner.consumed..] == w[1 + inner.consumed..];
    }

    /** The `ReadToOffsetForLength` branch: the byte count gives the body length. */
    method ParseToOffset(cursor: ReadBuffer) returns (r: Result<Option<FrameValue>, RequestError>)
      requires state.ReadToOffsetForLength?
      requires cursor.Valid()
      modifies this, cursor
      ensures cursor.Valid() && cursor.buffer[..] == old(cursor.buffer[..])
      ensures var s := Step(parserType, Checksum, old(state), old(cursor.Unread()));
              r == s.result && state == s.next && cursor.Unread() == old(cursor.Unread())[s.consumed..]
      decreases Rank(state), 0
    {
      ghost var w := cursor.Unread();
      var unitId, offset := state.unitId, state.offset;
      if cursor.Len() < FUNCTION_CODE_LENGTH + offset {
        return Ok(None);
      }
      var extra := cursor.PeekAt(FUNCTION_CODE_LENGTH + offset - 1);
      assert extra.value == w[FUNCTION_CODE_LENGTH + offset - 1];
      state := ReadFullBody(unitId, offset + extra.value);
      assert Step(parserType, Checksum, old(state), w) == Step(parserType, Checksum, state, w);
      r := Parse(cursor);
    }

    /** The `ReadFullBody` branch: the body and its CRC, checked. */
    method ParseFullBody(cursor: ReadBuffer) returns (r: Result<Option<FrameValue>, RequestError>)
      requires state.ReadFullBody?
      requires cursor.Valid()
      modifies this, cursor
      ensures cursor.Valid() && cursor.buffer[..] == old(cursor.buffer[..])
      ensures var s := Step(parserType, Checksum, old(state), old(cursor.Unread()));
              r == s.result && state == s.next && cursor.Unread() == old(cursor.Unread())[s.consumed..]
    {
      ghost var w := cursor.Unread();
      var unitId, length := state.unitId, state.length;
      FullBodyStep(parserType, unitId, length, w);
      if FUNCTION_CODE_LENGTH + length > MAX_ADU_LENGTH {
        return Err(BadFrame(FrameLengthTooBig(FUNCTION_CODE_LENGTH + length, MAX_ADU_LENGTH)));
      }
      if cursor.Len() < FUNCTION_CODE_LENGTH + length + CRC_LENGTH {
        return Ok(None);
      }
      var frame, received := ReadFrame(unitId, length, cursor);
      var expected := ExpectedCrc(unitId.value, frame.payload);
      if received != expected {
        return Err(BadFrame(CrcValidationFailure(received, expected)));
      }
      state := Start;
      return Ok(Some(frame));
    }

    /** `reset`: back to waiting for a frame. */
    method Reset()
      modifies this
      ensures state == Start
    {
      state := Start;
    }
  }

  // ---------------------------------------------------------------------------
  // The formatter

  /** `RtuFormatter`: frames are written into one buffer of the largest frame size. */
  class RtuFormatter {
    const buffer: array<u8>

    ghost predicate Valid() {
      buffer.Length == MAX_FRAME_LENGTH
    }

    /** `new`: a zeroed buffer. */
    constructor ()
      ensures Valid() && fresh(buffer)
    {
      buffer := new u8[MAX_FRAME_LENGTH](_ => 0);
    }

    /**
     * `format_impl`: the unit id, the message, and the CRC of both, low byte
     * first. The length of what was written comes back. A message that fails
     * to serialize fails the call with its error; one that leaves no room
     * for the CRC fails with `InsufficientWriteSpace`.
     */
    method FormatImpl(header: FrameHeader, msg: Result<seq<u8>, RequestError>) returns (r: Result<nat, RequestError>)
      requires Valid()
      modifies buffer
      ensures r.Ok? <==> msg.Ok? && |msg.value| <= MAX_ADU_LENGTH
      ensures r.Ok? ==> var frame := EncodeRtu(Checksum, header.destination.Value(), msg.value);
                        r.value == |frame| && buffer[..r.value] == frame
      ensures msg.Err? ==> r == Err(msg.error)
      ensures msg.Ok? && |msg.value| > MAX_ADU_LENGTH ==> r.Err? && r.error.Internal? && r.error.internal.InsufficientWriteSpace?
    {
      var unitId := header.destination.Value();
      ghost var before := buffer[..];
      var cursor := new WriteCursor(buffer);
      var w := cursor.WriteU8(unitId);
      if msg.Err? {
        return Err(msg.error);
      }
      var p := PutBytes(cursor, msg.value, before, 0, [unitId]);
      if p.Err? {
        return Err(p.error);
      }
      var end := cursor.Position();
      ghost var written := buffer[..];
      assert written[..end] == [unitId] + msg.value;
      var c := WriteCrc(buffer, end);
      if c.Err? {
        return Err(Internal(c.error));
      }
      CrcAppended(before, written, buffer[..], unitId, msg.value);
      return Ok(end + CRC_LENGTH);
    }

    /** The second half of `format_impl`: the CRC of the first `end` bytes, written after them. */
    static method WriteCrc(buffer: array<u8>, end: nat) returns (r: Result<(), InternalError>)
      requires end <= buffer.Length
      modifies buffer
      ensures r.Ok? <==> end + CRC_LENGTH <= buffer.Length
      ensures r.Ok? ==> Wrote(old(buffer[..]), end, buffer[..], LeBytes(Checksum(old(buffer[..end]))))
      ensures r.Err? ==> r.error.InsufficientWriteSpace?
    {
      var crc := Checksum(buffer[0..end]);
      var cursor := new WriteCursor(buffer);
      var s := cursor.SeekFromStart(end);
      r := cursor.WriteU16Le(crc);
    }

    /** The unit id and message, then their CRC after them, make the encoded frame. */
    static lemma CrcAppended(before: seq<u8>, written: seq<u8>, after: seq<u8>, unitId: u8, pdu: seq<u8>)
      requires Wrote(before, 0, written, [unitId] + pdu)
      requires Wrote(written, 1 + |pdu|, after, LeBytes(Checksum([unitId] + pdu)))
      ensures after[..|EncodeRtu(Checksum, unitId, pdu)|] == EncodeRtu(Checksum, unitId, pdu)
    {
      WroteThen(before, 0, written, [unitId] + pdu, after, LeBytes(Checksum([unitId] + pdu)));
    }

    /** `get_full_buffer_impl`: the first `size` bytes, when there are that many. */
    function GetFullBufferImpl(size: nat): (r: Option<seq<u8>>)
      reads buffer
      ensures r.Some? <==> size <= buffer.Length
      ensures r.Some? ==> r.value == buffer[..size]
    {
      if size <= buffer.Length then Some(buffer[..size]) else None
    }

    /**
     * `get_payload_impl`: the bytes between the unit id and the CRC of a
     * frame `size` bytes long.
     */
    function GetPayloadImpl(size: nat): (r: Option<seq<u8>>)
      reads buffer
      ensures r.Some? <==> HEADER_LENGTH + CRC_LENGTH <= size <= buffer.Length + CRC_LENGTH
      ensures r.Some? ==> |r.value| == size - HEADER_LENGTH - CRC_LENGTH
                          && r.value == buffer[HEADER_LENGTH..size - CRC_LENGTH]
    {
      if size < CRC_LENGTH then None
      else
        var end := size - CRC_LENGTH;
        if HEADER_LENGTH <= end <= buffer.Length then Some(buffer[HEADER_LENGTH..end]) else None
    }

    /** `get_full_buffer`: a missing range is a `BadSeekOperation`. */
    function GetFullBuffer(len: nat): (r: Result<seq<u8>, RequestError>)
      reads buffer
      ensures r.Ok? <==> len <= buffer.Length
      ensures r.Ok? ==> r.value == buffer[..len]
      ensures r.Err? ==> r.error == Internal(BadSeekOperation)
    {
      match GetFullBufferImpl(len)
      case Some(x) => Ok(x)
      case None => Err(Internal(BadSeekOperation))
    }

    /** `get_payload`: the PDU of a frame without its function code. */
    function GetPayload(len: nat): (r: Result<seq<u8>, RequestError>)
      reads buffer
      ensures r.Ok? <==> HEADER_LENGTH + FUNCTION_CODE_LENGTH + CRC_LENGTH <= len <= buffer.Length + CRC_LENGTH
      ensures r.Ok? ==> r.value == buffer[HEADER_LENGTH + FUNCTION_CODE_LENGTH..len - CRC_LENGTH]
      ensures r.Err? ==> r.error == Internal(BadSeekOperation)
    {
      match GetPayloadImpl(len)
      case Some(x) => if FUNCTION_CODE_LENGTH <= |x| then Ok(x[FUNCTION_CODE_LENGTH..]) else Err(Internal(BadSeekOperation))
      case None => Err(Internal(BadSeekOperation))
    }

    /**
     * `error`: the exception reply, framed. It always fits, so the frame
     * comes back.
     */
    method Error(header: FrameHeader, response: ErrorResponse) returns (r: Result<seq<u8>, RequestError>)
      requires Valid()
      modifies buffer
      ensures r == Ok(EncodeRtu(Checksum, header.destination.Value(), response.Bytes()))
    {
      var len := FormatImpl(header, Ok(response.Bytes()));
      assert len.Ok?;
      r := GetFullBuffer(len.value);
    }

    /** `exception`: the reply to `function` carrying `ex`, framed. */
    method Exception(header: FrameHeader, fc: FunctionCode, ex: ExceptionCode) returns (r: Result<seq<u8>, RequestError>)
      requires Valid()
      modifies buffer
      ensures r == Ok(EncodeRtu(Checksum, header.destination.Value(), [fc.AsError(), ToByte(ex)]))
    {
      r := Error(header, NewErrorResponse(fc, ex));
    }

    /**
     * `format`: the function code and the message body, framed. A body that
     * fails with an exception code is answered with the exception reply
     * instead; any other failure is passed on.
     */
    method Format(header: FrameHeader, fc: FunctionCode, body: Result<seq<u8>, RequestError>) returns (r: Result<seq<u8>, RequestError>)
      requires Valid()
      modifies buffer
      ensures body.Ok? && FUNCTION_CODE_LENGTH + |body.value| <= MAX_ADU_LENGTH
              ==> r == Ok(EncodeRtu(Checksum, header.destination.Value(), [fc.Value()] + body.value))
      ensures body.Ok? && FUNCTION_CODE_LENGTH + |body.value| > MAX_ADU_LENGTH
              ==> r.Err? && r.error.Internal? && r.error.internal.InsufficientWriteSpace?
      ensures body.Err? && body.error.Exception?
              ==> r == Ok(EncodeRtu(Checksum, header.destination.Value(), [fc.AsError(), ToByte(body.error.exception)]))
      ensures body.Err? && !body.error.Exception? ==> r == Err(body.error)
    {
      var count := FormatImpl(header, PduBytes(fc, body));
      match count {
        case Ok(n) =>
          r := GetFullBuffer(n);
        case Err(e) =>
          if e.Exception? {
            r := Exception(header, fc, e.exception);
          } else {
            r := Err(e);
          }
      }
    }
  }

  // ---------------------------------------------------------------------------
  // Properties of the formatter

  /**
   * The exception reply the formatter writes is a frame a response parser
   * accepts: a function byte with the top bit set announces one code byte.
   */
  lemma ExceptionFrameParses(unitId: u8, fc: FunctionCode, ex: ExceptionCode, rest: seq<u8>)
    ensures var pdu := NewErrorResponse(fc, ex).Bytes();
            Step(Response, Checksum, Start, EncodeRtu(Checksum, unitId, pdu) + rest)
            == ParseStep(Start, HEADER_LENGTH + 2 + CRC_LENGTH,
                         Ok(Some(FrameValue(NewRtuHeader(UnitIdDestination(UnitId(unitId))), [fc.AsError(), ToByte(ex)]))))
  {
    var pdu := NewErrorResponse(fc, ex).Bytes();
    assert LengthModeOf(Response, pdu[0]) == Fixed(1);
    ParseEncodeRtu(Response, Checksum, unitId, pdu, rest);
  }

  /**
   * After `format_impl` wrote a frame for `pdu`, `get_payload` of its length
   * is the PDU without its function code, and `get_full_buffer` is the frame.
   */
  lemma FormattedViews(f: RtuFormatter, unitId: u8, pdu: seq<u8>)
    requires f.Valid() && 1 <= |pdu| <= MAX_ADU_LENGTH
    requires f.buffer[..|EncodeRtu(Checksum, unitId, pdu)|] == EncodeRtu(Checksum, unitId, pdu)
    ensures f.GetPayload(|EncodeRtu(Checksum, unitId, pdu)|) == Ok(pdu[FUNCTION_CODE_LENGTH..])
    ensures f.GetFullBuffer(|EncodeRtu(Checksum, unitId, pdu)|) == Ok(EncodeRtu(Checksum, unitId, pdu))
  {
    var frame := EncodeRtu(Checksum, unitId, pdu);
    assert f.buffer[HEADER_LENGTH + FUNCTION_CODE_LENGTH..|frame| - CRC_LENGTH] == frame[2..|pdu| + 1];
    assert frame[2..|pdu| + 1] == pdu[1..];
  }

  // ---------------------------------------------------------------------------
  // Frames from the unit tests of the RTU codec


  /** The CRC of the read holding registers request, bytes 0-2. */
  lemma ReadHoldingRequestCrc1(s: seq<u8>)
    requires s == [0x2A, 0x03, 0x00]
    ensures Update(0xFFFF, s) == 0xF850
  {
    UpdateStep(0xFFFF, s, 0, 0x9F3E);
    UpdateStep(0x9F3E, s, 1, 0xD15E);
    UpdateStep(0xD15E, s, 2, 0xF850);
    assert s[0..] == s && s[3..] == [];
  }

  /** The CRC of the read holding registers request, bytes 3-5. */
  lemma ReadHoldingRequestCrc2(s: seq<u8>)
    requires s == [0x10, 0x00, 0x03]
    ensures Update(0xF850, s) == 0x1502
  {
    UpdateStep(0xF850, s, 0, 0xF0F9);
    UpdateStep(0xF0F9, s, 1, 0x4230);
    UpdateStep(0x4230, s, 2, 0x1502);
    assert s[0..] == s && s[3..] == [];
  }

  /** The CRC of the read holding registers request. */
  lemma ReadHoldingRequestChecksum(s: seq<u8>)
    requires s == [0x2A, 0x03, 0x00, 0x10, 0x00, 0x03]
    ensures Checksum(s) == 0x1502
  {
    var a, b := s[..3], s[3..];
    ReadHoldingRequestCrc1(a);
    ReadHoldingRequestCrc2(b);
    UpdateAppend(INIT, a, b);
    assert a + b == s;
  }

  /**
   * `READ_HOLDING_REGISTERS_REQUEST` of unit 0x2A: it is what the formatter
   * writes for its PDU, and a request parser takes it in one step as that PDU.
   */
  lemma ReadHoldingRequestFrame(pdu: seq<u8>)
    requires pdu == [0x03, 0x00, 0x10, 0x00, 0x03]
    ensures EncodeRtu(Checksum, 0x2A, pdu) == [0x2A] + pdu + [0x02, 0x15]
    ensures Step(Request, Checksum, Start, EncodeRtu(Checksum, 0x2A, pdu))
            == ParseStep(Start, 8, Ok(Some(FrameValue(NewRtuHeader(UnitIdDestination(UnitId(0x2A))), pdu))))
  {
    ReadHoldingRequestChecksum([0x2A] + pdu);
    assert Delimited(Request, pdu);
    ParseEncodeRtu(Request, Checksum, 0x2A, pdu, []);
    assert EncodeRtu(Checksum, 0x2A, pdu) + [] == EncodeRtu(Checksum, 0x2A, pdu);
  }

  /** The CRC of the read holding registers response, bytes 0-2. */
  lemma ReadHoldingResponseCrc1(s: seq<u8>)
    requires s == [0x2A, 0x03, 0x06]
    ensures Update(0xFFFF, s) == 0xFAD0
  {
    UpdateStep(0xFFFF, s, 0, 0x9F3E);
    UpdateStep(0x9F3E, s, 1, 0xD15E);
    UpdateStep(0xD15E, s, 2, 0xFAD0);
    assert s[0..] == s && s[3..] == [];
  }

  /** The CRC of the read holding registers response, bytes 3-5. */
  lemma ReadHoldingResponseCrc2(s: seq<u8>)
    requires s == [0x12, 0x34, 0x56]
    ensures Update(0xFAD0, s) == 0xA275
  {
    UpdateStep(0xFAD0, s, 0, 0x917B);
    UpdateStep(0x917B, s, 1, 0xF4D0);
    UpdateStep(0xF4D0, s, 2, 0xA275);
    assert s[0..] == s && s[3..] == [];
  }

  /** The CRC of the read holding registers response, bytes 6-8. */
  lemma ReadHoldingResponseCrc3(s: seq<u8>)
    requires s == [0x78, 0x23, 0x45]
    ensures Update(0xA275, s) == 0x6030
  {
    UpdateStep(0xA275, s, 0, 0xC563);
    UpdateStep(0xC563, s, 1, 0xF0C4);
    UpdateStep(0xF0C4, s, 2, 0x6030);
    assert s[0..] == s && s[3..] == [];
  }

  /** The CRC of the read holding registers response. */
  lemma ReadHoldingResponseChecksum(s: seq<u8>)
    requires s == [0x2A, 0x03, 0x06, 0x12, 0x34, 0x56, 0x78, 0x23, 0x45]
    ensures Checksum(s) == 0x6030
  {
    var a, b, c := s[..3], s[3..6], s[6..];
    ReadHoldingResponseCrc1(a);
    ReadHoldingResponseCrc2(b);
    ReadHoldingResponseCrc3(c);
    UpdateAppend(INIT, a, b);
    UpdateAppend(INIT, a + b, c);
    assert a + b + c == s;
  }

  /**
   * `READ_HOLDING_REGISTERS_RESPONSE` of unit 0x2A: its length comes from the
   * byte count, and a response parser takes it in one step.
   */
  lemma ReadHoldingResponseFrame(pdu: seq<u8>)
    requires pdu == [0x03, 0x06, 0x12, 0x34, 0x56, 0x78, 0x23, 0x45]
    ensures EncodeRtu(Checksum, 0x2A, pdu) == [0x2A] + pdu + [0x30, 0x60]
    ensures Step(Response, Checksum, Start, EncodeRtu(Checksum, 0x2A, pdu))
            == ParseStep(Start, 11, Ok(Some(FrameValue(NewRtuHeader(UnitIdDestination(UnitId(0x2A))), pdu))))
  {
    ReadHoldingResponseChecksum([0x2A] + pdu);
    assert Delimited(Response, pdu);
    ParseEncodeRtu(Response, Checksum, 0x2A, pdu, []);
    assert EncodeRtu(Checksum, 0x2A, pdu) + [] == EncodeRtu(Checksum, 0x2A, pdu);
  }

  /** The CRC of the write multiple coils request, bytes 0-2. */
  lemma WriteCoilsRequestCrc1(s: seq<u8>)
    requires s == [0x2A, 0x0F, 0x00]
    ensures Update(0xFFFF, s) == 0xF855
  {
    UpdateStep(0xFFFF, s, 0, 0x9F3E);
    UpdateStep(0x9F3E, s, 1, 0xD45E);
    UpdateStep(0xD45E, s, 2, 0xF855);
    assert s[0..] == s && s[3..] == [];
  }

  /** The CRC of the write multiple coils request, bytes 3-5. */
  lemma WriteCoilsRequestCrc2(s: seq<u8>)
    requires s == [0x10, 0x00, 0x0A]
    ensures Update(0xF855, s) == 0x12D2
  {
    UpdateStep(0xF855, s, 0, 0xF339);
    UpdateStep(0xF339, s, 1, 0x1233);
    UpdateStep(0x1233, s, 2, 0x12D2);
    assert s[0..] == s && s[3..] == [];
  }

  /** The CRC of the write multiple coils request, bytes 6-8. */
  lemma WriteCoilsRequestCrc3(s: seq<u8>)
    requires s == [0x02, 0x12, 0x34]
    ensures Update(0x12D2, s) == 0x2E00
  {
    UpdateStep(0x12D2, s, 0, 0x9C13);
    UpdateStep(0x9C13, s, 1, 0xC05D);
    UpdateStep(0xC05D, s, 2, 0x2E00);
    assert s[0..] == s && s[3..] == [];
  }

  /** The CRC of the write multiple coils request. */
  lemma WriteCoilsRequestChecksum(s: seq<u8>)
    requires s == [0x2A, 0x0F, 0x00, 0x10, 0x00, 0x0A, 0x02, 0x12, 0x34]
    ensures Checksum(s) == 0x2E00
  {
    var a, b, c := s[..3], s[3..6], s[6..];
    WriteCoilsRequestCrc1(a);
    WriteCoilsRequestCrc2(b);
    WriteCoilsRequestCrc3(c);
    UpdateAppend(INIT, a, b);
    UpdateAppend(INIT, a + b, c);
    assert a + b + c == s;
  }

  /**
   * `WRITE_MULTIPLE_COILS_REQUEST` of unit 0x2A: its length comes from the
   * byte count at offset 5, and a request parser takes it in one step.
   */
  lemma WriteCoilsRequestFrame(pdu: seq<u8>)
    requires pdu == [0x0F, 0x00, 0x10, 0x00, 0x0A, 0x02, 0x12, 0x34]
    ensures EncodeRtu(Checksum, 0x2A, pdu) == [0x2A] + pdu + [0x00, 0x2E]
    ensures Step(Request, Checksum, Start, EncodeRtu(Checksum, 0x2A, pdu))
            == ParseStep(Start, 11, Ok(Some(FrameValue(NewRtuHeader(UnitIdDestination(UnitId(0x2A))), pdu))))
  {
    WriteCoilsRequestChecksum([0x2A] + pdu);
    assert Delimited(Request, pdu);
    ParseEncodeRtu(Request, Checksum, 0x2A, pdu, []);
    assert EncodeRtu(Checksum, 0x2A, pdu) + [] == EncodeRtu(Checksum, 0x2A, pdu);
  }
}
