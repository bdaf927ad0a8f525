/**
 * Modbus TCP framing: the seven-byte MBAP header (transaction id, protocol
 * id 0, length of unit id plus PDU, unit id) followed by the PDU. The parser is
 * a two-state machine over the receive buffer; the formatter writes the header,
 * the PDU, and then seeks back to fill in the length.
 */
module Mbap {
  import opened Num
  import opened Wrappers
  import opened Errors
  import opened Types
  import opened Buffers
  import opened Frames
  import opened WriteCursors
  import opened Serialize

  const HEADER_LENGTH: nat := 7
  const MAX_FRAME_LENGTH: nat := HEADER_LENGTH + MAX_ADU_LENGTH
  /** The length field counts the unit id as well as the PDU. */
  const MAX_LENGTH_FIELD: nat := MAX_ADU_LENGTH + 1

  datatype MbapHeader = MbapHeader(txId: u16, aduLength: nat, unitId: UnitId)

  datatype ParseState = Begin | Header(header: MbapHeader)

  /**
   * `parse_header` over the seven header bytes: the protocol id is checked
   * first, then the length field against 254, then against 0.
   */
  function DecodeHeader(h: seq<u8>): (r: Result<MbapHeader, RequestError>)
    requires |h| >= HEADER_LENGTH
    ensures r.Ok? <==> Be16(h[2], h[3]) == 0 && 1 <= Be16(h[4], h[5]) <= MAX_LENGTH_FIELD
    ensures r.Ok? ==> r.value == MbapHeader(Be16(h[0], h[1]), Be16(h[4], h[5]) - 1, UnitId(h[6]))
                      && r.value.aduLength <= MAX_ADU_LENGTH
    ensures Be16(h[2], h[3]) != 0 ==> r == Err(BadFrame(UnknownProtocolId(Be16(h[2], h[3]))))
    ensures Be16(h[2], h[3]) == 0 && Be16(h[4], h[5]) > MAX_LENGTH_FIELD
            ==> r == Err(BadFrame(FrameLengthTooBig(Be16(h[4], h[5]), MAX_LENGTH_FIELD)))
    ensures Be16(h[2], h[3]) == 0 && Be16(h[4], h[5]) == 0 ==> r == Err(BadFrame(MbapLengthZero))
  {
    var txId := Be16(h[0], h[1]);
    var protocolId := Be16(h[2], h[3]);
    var length := Be16(h[4], h[5]);
    if protocolId != 0 then Err(BadFrame(UnknownProtocolId(protocolId)))
    else if length > MAX_LENGTH_FIELD then Err(BadFrame(FrameLengthTooBig(length, MAX_LENGTH_FIELD)))
    else if length == 0 then Err(BadFrame(MbapLengthZero))
    else Ok(MbapHeader(txId, length - 1, UnitId(h[6])))
  }

  /**
   * The frame `parse_body` builds: `Frame::set` ignores a body longer than the
   * PDU array, which a decoded header never produces.
   */
  function BodyFrame(h: MbapHeader, body: seq<u8>): FrameValue {
    FrameValue(NewTcpHeader(h.unitId, h.txId), if |body| <= MAX_ADU_LENGTH then body else [])
  }

  /**
   * One call of `parse` on the unread bytes `window`: the next state, how many
   * bytes it consumed, and its answer. A header error leaves the state at
   * `Begin` with the seven header bytes consumed.
   */
  function Step(state: ParseState, window: seq<u8>): (s: ParseStep<ParseState>)
    ensures s.consumed <= |window|
    decreases state.Begin?
  {
    match state
    case Header(h) =>
      if |window| < h.aduLength then ParseStep(state, 0, Ok(None))
      else ParseStep(Begin, h.aduLength, Ok(Some(BodyFrame(h, window[..h.aduLength]))))
    case Begin =>
      if |window| < HEADER_LENGTH then ParseStep(Begin, 0, Ok(None))
      else match DecodeHeader(window) {
        case Err(e) => ParseStep(Begin, HEADER_LENGTH, Err(e))
        case Ok(h) =>
          var inner := Step(Header(h), window[HEADER_LENGTH..]);
          ParseStep(inner.next, HEADER_LENGTH + inner.consumed, inner.result)
      }
  }

  /** The parser as the frame reader sees it. */
  function Parser(): (ParseState, seq<u8>) -> ParseStep<ParseState> {
    (s, w) => Step(s, w)
  }

  lemma ParserConsumes()
    ensures Consumes(Parser())
  {
    forall s, w ensures Parser()(s, w).consumed <= |w| {
      var _ := Step(s, w);
    }
  }

  // ---------------------------------------------------------------------------
  // Properties of one step

  /** Nothing happens until the seven header bytes are there. */
  lemma StepWaitsForHeader(window: seq<u8>)
    requires |window| < HEADER_LENGTH
    ensures Step(Begin, window) == ParseStep(Begin, 0, Ok(None))
  {
  }

  /**
   * A complete header and an incomplete body: the header is consumed and kept
   * in the state until the body arrives.
   */
  lemma StepKeepsHeader(window: seq<u8>)
    requires HEADER_LENGTH <= |window| && DecodeHeader(window).Ok?
    requires |window| < HEADER_LENGTH + DecodeHeader(window).value.aduLength
    ensures Step(Begin, window) == ParseStep(Header(DecodeHeader(window).value), HEADER_LENGTH, Ok(None))
  {
  }

  /**
   * A header with length field `L` followed by at least `L - 1` bytes yields a
   * frame carrying exactly those bytes, the header's transaction id and unit
   * id, and returns to `Begin`.
   */
  lemma StepFrame(window: seq<u8>)
    requires HEADER_LENGTH <= |window| && Be16(window[2], window[3]) == 0
    requires 1 <= Be16(window[4], window[5]) <= MAX_LENGTH_FIELD
    requires |window| >= HEADER_LENGTH + Be16(window[4], window[5]) - 1
    ensures var n := Be16(window[4], window[5]) - 1;
            Step(Begin, window)
            == ParseStep(Begin, HEADER_LENGTH + n,
                         Ok(Some(FrameValue(FrameHeader(UnitIdDestination(UnitId(window[6])), Some(Be16(window[0], window[1]))),
                                            window[HEADER_LENGTH..HEADER_LENGTH + n]))))
  {
    var n := Be16(window[4], window[5]) - 1;
    assert window[HEADER_LENGTH..][..n] == window[HEADER_LENGTH..HEADER_LENGTH + n];
  }

  /** A good header is consumed and the step goes on with the body. */
  lemma StepBegin(window: seq<u8>)
    requires HEADER_LENGTH <= |window| && DecodeHeader(window).Ok?
    ensures var inner := Step(Header(DecodeHeader(window).value), window[HEADER_LENGTH..]);
            Step(Begin, window) == ParseStep(inner.next, HEADER_LENGTH + inner.consumed, inner.result)
  {
  }

  /** A bad header is an error, with the seven header bytes consumed and the state left at `Begin`. */
  lemma StepHeaderError(window: seq<u8>)
    requires HEADER_LENGTH <= |window| && DecodeHeader(window).Err?
    ensures Step(Begin, window) == ParseStep(Begin, HEADER_LENGTH, Err(DecodeHeader(window).error))
  {
  }

  /**
   * Bytes may arrive in any pieces: when a step on `window` asks for more,
   * the step on what it left plus `more` ends where one step on
   * `window + more` ends, having consumed the same bytes in all.
   */
  lemma StepResumes(state: ParseState, window: seq<u8>, more: seq<u8>)
    requires state.Header? ==> state.header.aduLength <= MAX_ADU_LENGTH
    requires Step(state, window).result == Ok(None)
    ensures var first := Step(state, window);
            var second := Step(first.next, window[first.consumed..] + more);
            var whole := Step(state, window + more);
            whole.next == second.next && whole.result == second.result
            && whole.consumed == first.consumed + second.consumed
  {
    var first := Step(state, window);
    match state {
      case Header(h) =>
        assert first.consumed == 0 && first.next == state;
        assert window[0..] + more == window + more;
      case Begin =>
        if |window| < HEADER_LENGTH {
          assert window[0..] + more == window + more;
        } else {
          var h := DecodeHeader(window).value;
          assert (window + more)[..HEADER_LENGTH] == window[..HEADER_LENGTH];
          assert DecodeHeader(window + more) == DecodeHeader(window);
          assert (window + more)[HEADER_LENGTH..] == window[HEADER_LENGTH..] + more;
        }
    }
  }

  // ---------------------------------------------------------------------------
  // The parser

  /** `MbapParser`: the parse state, updated in place by `parse` and `reset`. */
  class MbapParser {
    var state: ParseState

    /** Every header the parser holds came from `DecodeHeader`. */
    ghost predicate Valid()
      reads this
    {
      state.Header? ==> state.header.aduLength <= MAX_ADU_LENGTH
    }

    constructor ()
      ensures Valid() && state == Begin
    {
      state := Begin;
    }

    /** The four reads of `parse_header`: transaction id, protocol id, length field and unit id. */
    static method ReadHeaderFields(cursor: ReadBuffer) returns (txId: u16, protocolId: u16, length: u16, unitId: u8)
      requires cursor.Valid() && |cursor.Unread()| >= HEADER_LENGTH
      modifies cursor
      ensures cursor.Valid() && cursor.buffer[..] == old(cursor.buffer[..])
      ensures var w := old(cursor.Unread());
              txId == Be16(w[0], w[1]) && protocolId == Be16(w[2], w[3])
              && length == Be16(w[4], w[5]) && unitId == w[6]
      ensures cursor.Unread() == old(cursor.Unread())[HEADER_LENGTH..]
    {
      ghost var w := cursor.Unread();
      var tx := cursor.ReadU16Be();
      assert cursor.Unread() == w[2..] && tx.value == Be16(w[0], w[1]);
      var proto := cursor.ReadU16Be();
      assert cursor.Unread() == w[4..] && proto.value == Be16(w[2], w[3]);
      var len := cursor.ReadU16Be();
      assert cursor.Unread() == w[6..] && len.value == Be16(w[4], w[5]);
      var unit := cursor.ReadU8();
      assert cursor.Unread() == w[HEADER_LENGTH..];
      txId, protocolId, length, unitId := tx.value, proto.value, len.value, unit.value;
    }

    /** `parse_header`: reads the seven header bytes, then checks them. */
    static method ParseHeader(cursor: ReadBuffer) returns (r: Result<MbapHeader, RequestError>)
      requires cursor.Valid() && |cursor.Unread()| >= HEADER_LENGTH
      modifies cursor
      ensures cursor.Valid() && cursor.buffer[..] == old(cursor.buffer[..])
      ensures r == DecodeHeader(old(cursor.Unread()))
      ensures cursor.Unread() == old(cursor.Unread())[HEADER_LENGTH..]
    {
      var txId, protocolId, length, unitId := ReadHeaderFields(cursor);
      if protocolId != 0 {
        return Err(BadFrame(UnknownProtocolId(protocolId)));
      }
      if length > MAX_LENGTH_FIELD {
        return Err(BadFrame(FrameLengthTooBig(length, MAX_LENGTH_FIELD)));
      }
      if length == 0 {
        return Err(BadFrame(MbapLengthZero));
      }
      r := Ok(MbapHeader(txId, length - 1, UnitId(unitId)));
    }

    /** `parse_body`: copies the next `aduLength` bytes into a new frame. */
    static method ParseBody(h: MbapHeader, cursor: ReadBuffer) returns (frame: FrameValue)
      requires cursor.Valid() && |cursor.Unread()| >= h.aduLength
      modifies cursor
      ensures cursor.Valid() && cursor.buffer[..] == old(cursor.buffer[..])
      ensures frame == BodyFrame(h, old(cursor.Unread())[..h.aduLength])
      ensures cursor.Unread() == old(cursor.Unread())[h.aduLength..]
    {
      var f := new Frame(NewTcpHeader(h.unitId, h.txId));
      var data := cursor.Read(h.aduLength);
      var _ := f.Set(data.value);
      frame := f.View();
    }

    /** `parse`: one step of the state machine on the buffer, as `Step` describes it. */
    method Parse(cursor: ReadBuffer) returns (r: Result<Option<FrameValue>, RequestError>)
      requires Valid() && cursor.Valid()
      modifies this, cursor
      ensures Valid() && cursor.Valid()
      ensures var s := Step(old(state), old(cursor.Unread()));
              r == s.result && state == s.next && cursor.Unread() == old(cursor.Unread())[s.consumed..]
      decreases state.Begin?
    {
      match state {
        case Header(h) =>
          if cursor.Len() < h.aduLength {
            return Ok(None);
          }
          var frame := ParseBody(h, cursor);
          state := Begin;
          return Ok(Some(frame));
        case Begin =>
          if cursor.Len() < HEADER_LENGTH {
            return Ok(None);
          }
          ghost var w := cursor.Unread();
          var h := ParseHeader(cursor);
          if h.Err? {
            StepHeaderError(w);
            return Err(h.error);
          }
          state := Header(h.value);
          r := Parse(cursor);
          ghost var inner := Step(Header(h.value), w[HEADER_LENGTH..]);
          StepBegin(w);
          assert w[HEADER_LENGTH..][inner.consumed..] == w[HEADER_LENGTH + inner.consumed..];
      }
    }

    /** `reset`: back to waiting for a header. */
    method Reset()
      modifies this
      ensures Valid() && state == Begin
    {
      state := Begin;
    }
  }

  // ---------------------------------------------------------------------------
  // Formatting

  /** The frame `format_mbap` writes; the length field is the PDU length plus one, cut to 16 bits. */
  function EncodeMbap(txId: u16, unitId: u8, pdu: seq<u8>): (r: seq<u8>)
    ensures |r| == HEADER_LENGTH + |pdu| && r[HEADER_LENGTH..] == pdu
  {
    var tx := BeBytes(txId);
    var length := BeBytes((|pdu| + 1) % 0x1_0000);
    [tx[0], tx[1], 0, 0, length[0], length[1], unitId] + pdu
  }

  /** The PDU's position in the output and the header as written. */
  datatype FrameInfo = FrameInfo(header: MbapHeader, start: nat, end: nat)

  /**
   * Parsing what `format_mbap` wrote, from `Begin`, yields one frame with the
   * same transaction id, unit id and PDU, and consumes exactly the frame.
   */
  lemma ParseEncodeMbap(txId: u16, unitId: u8, pdu: seq<u8>, rest: seq<u8>)
    requires |pdu| <= MAX_ADU_LENGTH
    ensures Step(Begin, EncodeMbap(txId, unitId, pdu) + rest)
            == ParseStep(Begin, HEADER_LENGTH + |pdu|,
                         Ok(Some(FrameValue(NewTcpHeader(UnitId(unitId), txId), pdu))))
  {
    var w := EncodeMbap(txId, unitId, pdu) + rest;
    var tx, length := BeBytes(txId), BeBytes(|pdu| + 1);
    assert w[0] == tx[0] && w[1] == tx[1] && w[2] == 0 && w[3] == 0;
    assert w[4] == length[0] && w[5] == length[1] && w[6] == unitId;
    assert Be16(w[0], w[1]) == txId && Be16(w[4], w[5]) == |pdu| + 1;
    var h := MbapHeader(txId, |pdu|, UnitId(unitId));
    assert DecodeHeader(w) == Ok(h);
    StepBegin(w);
    assert w[HEADER_LENGTH..][..|pdu|] == pdu;
    assert Step(Header(h), w[HEADER_LENGTH..]) == ParseStep(Begin, |pdu|, Ok(Some(BodyFrame(h, pdu))));
  }

  /** The header of a frame whose PDU is longer than 253 bytes carries a length over the limit. */
  lemma HeaderOfTooLong(txId: u16, unitId: u8, pdu: seq<u8>)
    requires MAX_ADU_LENGTH < |pdu| < 0xFFFF
    ensures DecodeHeader(EncodeMbap(txId, unitId, pdu)) == Err(BadFrame(FrameLengthTooBig(|pdu| + 1, MAX_LENGTH_FIELD)))
  {
    var w := EncodeMbap(txId, unitId, pdu);
    var n := |pdu| + 1;
    var length := BeBytes(n);
    assert w[2] == 0 && w[3] == 0 && w[4] == length[0] && w[5] == length[1];
    assert Be16(w[4], w[5]) == n;
  }

  /** A PDU longer than 253 bytes gives a length field the parser rejects. */
  lemma ParseEncodeMbapTooLong(txId: u16, unitId: u8, pdu: seq<u8>)
    requires MAX_ADU_LENGTH < |pdu| < 0xFFFF
    ensures Step(Begin, EncodeMbap(txId, unitId, pdu))
            == ParseStep(Begin, HEADER_LENGTH, Err(BadFrame(FrameLengthTooBig(|pdu| + 1, MAX_LENGTH_FIELD))))
  {
    HeaderOfTooLong(txId, unitId, pdu);
    StepHeaderError(EncodeMbap(txId, unitId, pdu));
  }

  /**
   * `format_mbap`: writes the header with the length left blank, then the PDU
   * (`pdu`, the message's own serialization, or its error), then seeks back to
   * write the length and returns to the end of the PDU. The transaction id is
   * required, as the TCP configuration always supplies one.
   */
  method FormatMbap(cursor: WriteCursor, header: FrameHeader, pdu: Result<seq<u8>, RequestError>)
    returns (r: Result<FrameInfo, RequestError>)
    requires cursor.Valid() && header.txId.Some?
    modifies cursor, cursor.dest
    ensures cursor.Valid()
    ensures r.Ok? <==> pdu.Ok? && old(cursor.pos) + HEADER_LENGTH + |pdu.value| <= cursor.dest.Length
    ensures r.Ok? ==> var frame := EncodeMbap(header.txId.value, header.destination.Value(), pdu.value);
                      && Wrote(old(cursor.dest[..]), old(cursor.pos), cursor.dest[..], frame)
                      && cursor.pos == old(cursor.pos) + |frame|
                      && r.value.start == old(cursor.pos) + HEADER_LENGTH && r.value.end == cursor.pos
    ensures r.Err? && pdu.Ok? ==> r.error.Internal?
    ensures old(cursor.Remaining()) in {4, 5} ==> r == Err(Internal(BadSeekOperation))
    ensures pdu.Err? && old(cursor.Remaining()) >= HEADER_LENGTH ==> r == Err(pdu.error)
  {
    var txId := header.txId.value;
    var unitId := header.destination.IntoUnitId();
    ghost var before := cursor.dest[..];
    ghost var at := cursor.pos;
    var lenPos := cursor.Position() + 4;
    var h := WriteBlankHeader(cursor, txId, unitId.value);
    if h.Err? { return Err(h.error); }
    ghost var blank := BlankHeader(txId, unitId.value, before[at + 4..at + 6]);
    var startPdu := cursor.Position();
    if pdu.Err? { return Err(pdu.error); }
    var w := PutBytes(cursor, pdu.value, before, at, blank);
    if w.Err? { return Err(w.error); }
    ghost var written := cursor.dest[..];
    var endPdu := cursor.Position();
    var lengthField: u16 := (endPdu - startPdu + 1) % 0x1_0000;
    PatchLength(cursor, lenPos, lengthField);
    LengthPatched(before, at, written, cursor.dest[..], txId, unitId.value, pdu.value);
    r := Ok(FrameInfo(MbapHeader(txId, lengthField, unitId), startPdu, endPdu));
  }

  /** The seek back to the length field, its write, and the seek forward again, none of which can fail. */
  method PatchLength(cursor: WriteCursor, lenPos: nat, lengthField: u16)
    requires cursor.Valid() && lenPos + 2 <= cursor.pos
    modifies cursor, cursor.dest
    ensures cursor.Valid() && cursor.pos == old(cursor.pos)
    ensures Wrote(old(cursor.dest[..]), lenPos, cursor.dest[..], BeBytes(lengthField))
  {
    var endPdu := cursor.Position();
    var s1 := cursor.SeekFromStart(lenPos);
    var w1 := cursor.WriteU16Be(lengthField);
    var s2 := cursor.SeekFromStart(endPdu);
    assert s1.Ok? && w1.Ok? && s2.Ok?;
  }

  /** Writing the length field over the blank header completes the encoded frame. */
  lemma LengthPatched(before: seq<u8>, at: nat, written: seq<u8>, patched: seq<u8>, txId: u16, unitId: u8, pdu: seq<u8>)
    requires at + 6 <= |before|
    requires Wrote(before, at, written, BlankHeader(txId, unitId, before[at + 4..at + 6]) + pdu)
    requires Wrote(written, at + 4, patched, BeBytes((|pdu| + 1) % 0x1_0000))
    ensures Wrote(before, at, patched, EncodeMbap(txId, unitId, pdu))
  {
    var x := BlankHeader(txId, unitId, before[at + 4..at + 6]) + pdu;
    var length := BeBytes((|pdu| + 1) % 0x1_0000);
    WroteOver(before, at, written, x, 4, patched, length);
    assert x[..4] + length + x[6..] == EncodeMbap(txId, unitId, pdu);
  }

  /** The header as first written: the length field still holds whatever `gap` was there. */
  function BlankHeader(txId: u16, unitId: u8, gap: seq<u8>): (r: seq<u8>)
    requires |gap| == 2
    ensures |r| == HEADER_LENGTH
  {
    BeBytes(txId) + [0, 0] + gap + [unitId]
  }

  /**
   * The first writes of `format_mbap`: transaction id, protocol id 0, a
   * two-byte skip for the length, and the unit id; each fails in turn when
   * the buffer is too short.
   */
  method WriteBlankHeader(cursor: WriteCursor, txId: u16, unitId: u8) returns (r: Result<(), RequestError>)
    requires cursor.Valid()
    modifies cursor, cursor.dest
    ensures cursor.Valid()
    ensures r.Ok? <==> old(cursor.Remaining()) >= HEADER_LENGTH
    ensures r.Ok? ==> cursor.pos == old(cursor.pos) + HEADER_LENGTH
                      && Wrote(old(cursor.dest[..]), old(cursor.pos), cursor.dest[..],
                               BlankHeader(txId, unitId, old(cursor.dest[..])[old(cursor.pos) + 4..old(cursor.pos) + 6]))
    ensures r.Err? ==> r.error.Internal?
    ensures old(cursor.Remaining()) in {4, 5} ==> r == Err(Internal(BadSeekOperation))
  {
    ghost var before := cursor.dest[..];
    ghost var at := cursor.pos;
    var w1 := cursor.WriteU16Be(txId);
    if w1.Err? { return Err(Internal(w1.error)); }
    ghost var d1 := cursor.dest[..];
    var w2 := cursor.WriteU16Be(0);
    if w2.Err? { return Err(Internal(w2.error)); }
    ghost var d2 := cursor.dest[..];
    var s := cursor.SeekFromCurrent(2);
    if s.Err? { return Err(Internal(s.error)); }
    var w3 := cursor.WriteU8(unitId);
    if w3.Err? { return Err(Internal(w3.error)); }
    BlankHeaderWritten(before, at, d1, d2, cursor.dest[..], txId, unitId);
    r := Ok(());
  }

  /** The three writes of `WriteBlankHeader`, with the skipped length bytes left as they were. */
  lemma BlankHeaderWritten(before: seq<u8>, at: nat, d1: seq<u8>, d2: seq<u8>, d3: seq<u8>, txId: u16, unitId: u8)
    requires Wrote(before, at, d1, BeBytes(txId)) && Wrote(d1, at + 2, d2, BeBytes(0))
    requires Wrote(d2, at + 6, d3, [unitId])
    ensures Wrote(before, at, d3, BlankHeader(txId, unitId, before[at + 4..at + 6]))
  {
    WroteThen(before, at, d1, BeBytes(txId), d2, BeBytes(0));
    var gap := before[at + 4..at + 6];
    assert d2[at + 4..at + 6] == gap;
    assert Wrote(d2, at + 4, d2, gap);
    WroteThen(before, at, d2, BeBytes(txId) + BeBytes(0), d2, gap);
    WroteThen(before, at, d2, BeBytes(txId) + BeBytes(0) + gap, d3, [unitId]);
    assert BeBytes(0) == [0, 0];
  }

  // ---------------------------------------------------------------------------
  // The source's unit tests

  /** `correctly_formats_frame`: transaction 7, unit 42, PDU `03 04`. */
  lemma FormatsSimpleFrame(expected: seq<u8>)
    requires expected == [0x00, 0x07, 0x00, 0x00, 0x00, 0x03, 0x2A, 0x03, 0x04]
    ensures EncodeMbap(7, 0x2A, [0x03, 0x04]) == expected
  {
  }

  /** `can_parse_frame_from_stream`: the simple frame parses to transaction 7, unit 42, PDU `03 04`. */
  lemma ParsesSimpleFrame(frame: seq<u8>)
    requires frame == [0x00, 0x07, 0x00, 0x00, 0x00, 0x03, 0x2A, 0x03, 0x04]
    ensures Step(Begin, frame)
            == ParseStep(Begin, 9, Ok(Some(FrameValue(NewTcpHeader(UnitId(0x2A), 7), [0x03, 0x04]))))
  {
    FormatsSimpleFrame(frame);
    ParseEncodeMbap(7, 0x2A, [0x03, 0x04], []);
    assert frame + [] == frame;
  }

  /**
   * `can_parse_frame_if_segmented_in_header` and `..._in_payload`: four bytes
   * of the simple frame are not yet a header; eight bytes are a header kept
   * in the state, and the last byte then completes the frame.
   */
  lemma ParsesSegmentedFrame(frame: seq<u8>)
    requires frame == [0x00, 0x07, 0x00, 0x00, 0x00, 0x03, 0x2A, 0x03, 0x04]
    ensures Step(Begin, frame[..4]) == ParseStep(Begin, 0, Ok(None))
    ensures var h := MbapHeader(7, 2, UnitId(0x2A));
            Step(Begin, frame[..8]) == ParseStep(Header(h), 7, Ok(None))
            && Step(Header(h), frame[7..]) == ParseStep(Begin, 2, Ok(Some(FrameValue(NewTcpHeader(UnitId(0x2A), 7), [0x03, 0x04]))))
  {
    StepWaitsForHeader(frame[..4]);
    var h := MbapHeader(7, 2, UnitId(0x2A));
    var w := frame[..8];
    assert Be16(w[0], w[1]) == 7 && Be16(w[2], w[3]) == 0 && Be16(w[4], w[5]) == 3 && w[6] == 0x2A;
    assert DecodeHeader(w) == Ok(h);
    StepKeepsHeader(w);
    assert frame[7..][..2] == [0x03, 0x04];
  }

  /** `can_parse_maximum_size_frame`: length 0xFE carries a 253-byte PDU. */
  lemma ParsesMaximumFrame(header: seq<u8>, payload: seq<u8>)
    requires header == [0x00, 0x07, 0x00, 0x00, 0x00, 0xFE, 0x2A]
    requires |payload| == 253
    ensures Step(Begin, header + payload).result == Ok(Some(FrameValue(NewTcpHeader(UnitId(0x2A), 7), payload)))
  {
    assert header == EncodeMbap(7, 0x2A, payload)[..HEADER_LENGTH];
    assert header + payload == EncodeMbap(7, 0x2A, payload);
    ParseEncodeMbap(7, 0x2A, payload, []);
    assert header + payload + [] == header + payload;
  }

  /** The three header error tests: protocol 0xCAFE, length 0 and length 0xFF. */
  lemma HeaderErrors(badProtocol: seq<u8>, zero: seq<u8>, tooBig: seq<u8>)
    requires badProtocol == [0x00, 0x07, 0xCA, 0xFE, 0x00, 0x01, 0x2A]
    requires zero == [0x00, 0x07, 0x00, 0x00, 0x00, 0x00, 0x2A]
    requires tooBig == [0x00, 0x07, 0x00, 0x00, 0x00, 0xFF, 0x2A]
    ensures Step(Begin, badProtocol).result == Err(BadFrame(UnknownProtocolId(0xCAFE)))
    ensures Step(Begin, zero).result == Err(BadFrame(MbapLengthZero))
    ensures Step(Begin, tooBig).result == Err(BadFrame(FrameLengthTooBig(0xFF, 254)))
  {
  }
}
