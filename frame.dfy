/**
 * What the TCP and serial framings share: transaction ids, frame
 * destinations and headers, the frame that carries one PDU, and the reader
 * loop that feeds a frame parser from the receive buffer.
 */
module Frames {
  import opened Num
  import opened Wrappers
  import opened Errors
  import opened Types
  import opened Buffers
  import opened Function
  import opened Exception

  /** The largest PDU: function code plus 252 bytes of data. */
  const MAX_ADU_LENGTH: nat := 253

  // ---------------------------------------------------------------------------
  // Transaction ids

  /** The id handed out `k` calls after the counter stood at `start`. */
  function TxIdAt(start: u16, k: nat): u16 {
    (start + k) % 0x1_0000
  }

  /** The transaction id counter of a TCP client. */
  class TxId {
    var value: u16

    constructor (value: u16)
      ensures this.value == value
    {
      this.value := value;
    }

    /** `next`: the current id, and the counter moved on by one, from 65535 back to 0. */
    method Next() returns (id: u16)
      modifies this
      ensures id == old(value) && value == TxIdAt(old(value), 1)
      ensures old(value) == 0xFFFF ==> value == 0
      ensures old(value) < 0xFFFF ==> value == old(value) + 1
    {
      if value == 0xFFFF {
        value := 0;
        return 0xFFFF;
      } else {
        id := value;
        value := value + 1;
      }
    }
  }

  /** One step of the counter from the `k`-th id is the `k + 1`-th. */
  lemma TxIdAtStep(start: u16, k: nat)
    ensures TxIdAt(TxIdAt(start, k), 1) == TxIdAt(start, k + 1)
  {
  }

  /** Any 65536 consecutive ids are pairwise distinct. */
  lemma TxIdsDistinct(start: u16, i: nat, j: nat)
    requires i < j < 0x1_0000
    ensures TxIdAt(start, i) != TxIdAt(start, j)
  {
    if (start + i) % 0x1_0000 == (start + j) % 0x1_0000 {
      assert (start + j) - (start + i) == j - i;
      ModEqualDistance(start + i, start + j);
    }
  }

  lemma ModEqualDistance(a: nat, b: nat)
    requires a < b && a % 0x1_0000 == b % 0x1_0000
    ensures b - a >= 0x1_0000
  {
    var qa := a / 0x1_0000;
    var qb := b / 0x1_0000;
    assert a == qa * 0x1_0000 + a % 0x1_0000;
    assert b == qb * 0x1_0000 + b % 0x1_0000;
    assert qb > qa;
  }

  /** The counter's unit test: 65535 is handed out, then 0. */
  method TxIdWrapExample()
  {
    var tx := new TxId(0xFFFF);
    var first := tx.Next();
    var second := tx.Next();
    assert first == 0xFFFF && second == 0;
  }

  // ---------------------------------------------------------------------------
  // Destinations and headers

  datatype FrameDestination = UnitIdDestination(unitId: UnitId) | Broadcast {
    /** `value`: the unit id byte on the wire; broadcast is unit 0. */
    function Value(): (v: u8)
      ensures Broadcast? ==> v == BROADCAST.value
      ensures UnitIdDestination? ==> v == unitId.value
    {
      match this
      case UnitIdDestination(u) => u.value
      case Broadcast => BROADCAST.value
    }

    function IntoUnitId(): (u: UnitId)
      ensures u.value == Value()
    {
      UnitId(Value())
    }
  }

  /** Destination and, on TCP only, a transaction id. */
  datatype FrameHeader = FrameHeader(destination: FrameDestination, txId: Option<u16>)

  function NewTcpHeader(unitId: UnitId, txId: u16): (h: FrameHeader)
    ensures h.destination.Value() == unitId.value && h.txId == Some(txId)
  {
    FrameHeader(UnitIdDestination(unitId), Some(txId))
  }

  function NewRtuHeader(destination: FrameDestination): (h: FrameHeader)
    ensures h.destination == destination && h.txId.None?
  {
    FrameHeader(destination, None)
  }

  /** A received frame as the parsers deliver it: its header and its PDU bytes. */
  datatype FrameValue = FrameValue(header: FrameHeader, payload: seq<u8>)

  // ---------------------------------------------------------------------------
  // Frame

  /** A frame: a header and a PDU of at most 253 bytes held in a fixed array. */
  class Frame {
    var header: FrameHeader
    var length: nat
    const pdu: array<u8>

    ghost predicate Valid()
      reads this
    {
      pdu.Length == MAX_ADU_LENGTH && length <= pdu.Length
    }

    constructor (header: FrameHeader)
      ensures Valid() && fresh(pdu) && this.header == header && Payload() == []
    {
      this.header := header;
      length := 0;
      pdu := new u8[MAX_ADU_LENGTH](_ => 0);
    }

    /** `payload`: the first `length` bytes of the PDU array. */
    function Payload(): (p: seq<u8>)
      reads this, pdu
      requires Valid()
      ensures |p| <= MAX_ADU_LENGTH
    {
      pdu[..length]
    }

    function View(): FrameValue
      reads this, pdu
      requires Valid()
    {
      FrameValue(header, Payload())
    }

    /**
     * `set`: copies `src` into the PDU array when it fits, and reports whether
     * it did; a source that does not fit leaves the frame as it was.
     */
    method Set(src: seq<u8>) returns (ok: bool)
      requires Valid()
      modifies this, pdu
      ensures Valid() && header == old(header)
      ensures ok <==> |src| <= MAX_ADU_LENGTH
      ensures ok ==> Payload() == src
      ensures !ok ==> length == old(length) && pdu[..] == old(pdu[..])
    {
      if |src| > pdu.Length {
        return false;
      }
      var i := 0;
      while i < |src|
        invariant i <= |src| && header == old(header) && length == old(length)
        invariant pdu[..i] == src[..i]
      {
        pdu[i] := src[i];
        i := i + 1;
      }
      length := |src|;
      return true;
    }
  }

  /** `Frame::set` with a frame-sized source, then `payload`: the source comes back. */
  method FrameSetExample(src: seq<u8>) returns (payload: seq<u8>)
    requires |src| == MAX_ADU_LENGTH
    ensures payload == src
  {
    var frame := new Frame(FrameHeader(Broadcast, None));
    var ok := frame.Set(src);
    payload := frame.Payload();
  }

  // ---------------------------------------------------------------------------
  // Formatting

  /**
   * The PDU a formatter writes for a message: the function code, then the
   * message's own bytes; a message that fails to serialize fails the PDU
   * with the same error.
   */
  function PduBytes(fc: FunctionCode, body: Result<seq<u8>, RequestError>): (r: Result<seq<u8>, RequestError>)
    ensures r.Ok? <==> body.Ok?
    ensures r.Ok? ==> |r.value| == 1 + |body.value| && r.value[0] == fc.Value() && r.value[1..] == body.value
    ensures r.Err? ==> r.error == body.error
  {
    match body
    case Ok(bytes) => Ok([fc.Value()] + bytes)
    case Err(e) => Err(e)
  }

  /** An exception reply: the function byte with its top bit set, and the exception code. */
  datatype ErrorResponse = ErrorResponse(code: u8, exception: ExceptionCode) {
    /** The two PDU bytes of the reply. */
    function Bytes(): (r: seq<u8>)
      ensures |r| == 2 && r[0] == code
      ensures (exception.Unknown? ==> !IsNamedCode(exception.code)) ==> FromByte(r[1]) == exception
    {
      FromByteToByte(exception);
      [code, ToByte(exception)]
    }
  }

  function NewErrorResponse(fc: FunctionCode, exception: ExceptionCode): (r: ErrorResponse)
    ensures r.code >= 0x80 && Get(r.code) == None && r.exception == exception
  {
    GetAsError(fc);
    ErrorResponse(fc.AsError(), exception)
  }

  /**
   * `NullFrameFormatter`, the formatter of a connection that never sends:
   * it writes nothing and hands back empty frames.
   */
  datatype NullFrameFormatter = NullFrameFormatter {
    function FormatImpl(header: FrameHeader, msg: Result<seq<u8>, RequestError>): (r: Result<nat, RequestError>)
      ensures r == Ok(0)
    {
      Ok(0)
    }

    function GetFullBufferImpl(size: nat): (r: Option<seq<u8>>)
      ensures r.None?
    {
      None
    }

    function GetPayloadImpl(size: nat): (r: Option<seq<u8>>)
      ensures r.None?
    {
      None
    }

    /** `format`, overridden: an empty frame whatever the message. */
    function Format(header: FrameHeader, fc: FunctionCode, body: Result<seq<u8>, RequestError>): (r: Result<seq<u8>, RequestError>)
      ensures r == Ok([])
    {
      Ok([])
    }

    /** `error`, overridden: an empty frame. */
    function Error(header: FrameHeader, response: ErrorResponse): (r: Result<seq<u8>, RequestError>)
      ensures r == Ok([])
    {
      Ok([])
    }

    /** `exception`, the shared default, which goes through `error`. */
    function Exception(header: FrameHeader, fc: FunctionCode, ex: ExceptionCode): (r: Result<seq<u8>, RequestError>)
      ensures r == Ok([])
    {
      Error(header, NewErrorResponse(fc, ex))
    }
  }

  // ---------------------------------------------------------------------------
  // The reader loop

  /**
   * One call of a frame parser: its next state, how many bytes it consumed
   * from the front of the window, and its answer (a frame, `None` for "more
   * bytes needed", or an error).
   */
  datatype ParseStep<S> = ParseStep(next: S, consumed: nat, result: Result<Option<FrameValue>, RequestError>)

  /** A parser never consumes more than it is given. */
  ghost predicate Consumes<S(!new)>(parse: (S, seq<u8>) -> ParseStep<S>) {
    forall s, window :: parse(s, window).consumed <= |window|
  }

  /** `x` is a prefix of `y`. */
  ghost predicate PrefixOf(x: seq<u8>, y: seq<u8>) {
    |x| <= |y| && y[..|x|] == x
  }

  /**
   * The parser's `k`-th call asked for more bytes, and its `k + 1`-th call saw
   * the bytes it left followed by a prefix of the `k`-th chunk.
   */
  ghost predicate Linked<S(!new)>(parse: (S, seq<u8>) -> ParseStep<S>, chunks: seq<seq<u8>>, trace: seq<(S, seq<u8>)>, k: nat)
    requires k + 1 < |trace| && k < |chunks|
  {
    var step := parse(trace[k].0, trace[k].1);
    step.result == Ok(None) && trace[k + 1].0 == step.next
    && step.consumed <= |trace[k].1|
    && PrefixOf(trace[k].1[step.consumed..], trace[k + 1].1)
    && trace[k + 1].1[|trace[k].1| - step.consumed..] <= chunks[k]
  }

  /**
   * `FramedReader::next_frame`: calls the parser on the buffered bytes until it
   * yields a frame or an error; only when it asks for more bytes is the
   * transport read, and every parse error resets the parser. The transport is
   * given as `chunks`, the successive results of its reads (a read past the
   * last chunk returns nothing, which is an unexpected end of stream).
   * The reads go through `read_some` as written, so a window that ends at the
   * capacity gets no room and also ends in an unexpected end of stream.
   * The ghost `trace` lists the parser's state and window at each call.
   */
  method NextFrame<S(!new)>(parse: (S, seq<u8>) -> ParseStep<S>, reset: S, state: S, buffer: ReadBuffer, chunks: seq<seq<u8>>)
    returns (r: Result<FrameValue, RequestError>, next: S, ghost trace: seq<(S, seq<u8>)>)
    requires buffer.Valid() && Consumes(parse)
    modifies buffer, buffer.buffer
    ensures buffer.Valid()
    ensures 1 <= |trace| <= |chunks| + 1
    ensures trace[0] == (state, old(buffer.Unread()))
    ensures forall k :: 0 <= k < |trace| - 1 ==> Linked(parse, chunks, trace, k)
    ensures var last := parse(trace[|trace| - 1].0, trace[|trace| - 1].1);
            && (r.Ok? ==> last.result == Ok(Some(r.value)) && next == last.next
                          && buffer.Unread() == trace[|trace| - 1].1[last.consumed..])
            && (last.result.Err? ==> r == Err(last.result.error) && next == reset)
            && (last.result == Ok(None) ==> r == Err(Io(UnexpectedEof)) && next == last.next)
    ensures var last := parse(trace[|trace| - 1].0, trace[|trace| - 1].1);
            last.result == Ok(None) && |trace| <= |chunks| ==>
              chunks[|trace| - 1] == [] || buffer.end == buffer.buffer.Length
  {
    next := state;
    trace := [(state, buffer.Unread())];
    var k := 0;
    while true
      invariant buffer.Valid() && |trace| == k + 1 && k <= |chunks|
      invariant trace[0] == (state, old(buffer.Unread()))
      invariant trace[k] == (next, buffer.Unread())
      invariant forall j :: 0 <= j < k ==> Linked(parse, chunks, trace, j)
      decreases |chunks| - k
    {
      var step := parse(next, buffer.Unread());
      var taken := buffer.Read(step.consumed);
      next := step.next;
      match step.result {
        case Ok(Some(frame)) =>
          return Ok(frame), next, trace;
        case Err(e) =>
          next := reset;
          return Err(e), next, trace;
        case Ok(None) =>
          if k == |chunks| {
            var _ := buffer.ReadSome([]);
            return Err(Io(UnexpectedEof)), next, trace;
          }
          ghost var window := buffer.Unread();
          assert window == trace[k].1[step.consumed..];
          var read := buffer.ReadSome(chunks[k]);
          if read.Err? {
            return Err(Io(read.error)), next, trace;
          }
          assert buffer.Unread() == window + chunks[k][..read.value];
          assert buffer.Unread()[..|window|] == window;
          assert buffer.Unread()[|window|..] == chunks[k][..read.value];
          ghost var before := trace;
          trace := trace + [(next, buffer.Unread())];
          assert Linked(parse, chunks, trace, k);
          assert forall j :: 0 <= j < k ==> Linked(parse, chunks, before, j) ==> Linked(parse, chunks, trace, j);
          k := k + 1;
      }
    }
  }
}
