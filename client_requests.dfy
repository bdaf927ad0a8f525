/**
 * The request-specific reply handlers of the client: each decodes the bytes
 * after the function code, checks them against the request and completes the
 * request's promise. Every handler has a pure decoder of the reply bytes that
 * states what is accepted, and a method over a `ReadCursor` proved to agree.
 */
module ClientRequests {
  import opened Num
  import opened Wrappers
  import opened Errors
  import opened Types
  import opened Bits
  import opened ReadCursors
  import opened Serialize
  import opened Parse
  import opened ReadWriteMultiples
  import opened ClientPromise

  // ---------------------------------------------------------------------------
  // read_bits.rs

  /**
   * `ReadBits::parse_bits_response` on the reply bytes: the byte-count byte is
   * skipped unread, then exactly `ceil(count / 8)` packed bytes must follow.
   */
  function DecodeBitsResponse(range: AddressRange, s: seq<u8>): (r: Result<seq<Indexed<bool>>, RequestError>)
    requires range.IsValid()
    ensures r.Ok? <==> |s| == 1 + NumBytesForBits(range.count)
    ensures r.Ok? ==> |r.value| == range.count
    ensures r.Ok? ==> forall k :: 0 <= k < |r.value| ==> r.value[k] == BitAt(s[1..], range, k)
    ensures |s| < 1 + NumBytesForBits(range.count) ==> r == Err(Insufficient)
    ensures |s| > 1 + NumBytesForBits(range.count) ==>
              r == Err(BadResponse(TrailingBytes(|s| - 1 - NumBytesForBits(range.count))))
  {
    var byteCount :- TakeU8(s);
    var bytes :- ParseAllBits(range, byteCount.rest);
    Ok(BitValues(bytes.value, range))
  }

  /** The coils a server packs behind a byte count are decoded back, indexed from the range start. */
  lemma DecodeBitsResponseOfEncode(range: AddressRange, values: seq<bool>)
    requires range.IsValid() && |values| == range.count && |values| <= 2040
    ensures EncodeCoils(values).Ok?
    ensures DecodeBitsResponse(range, EncodeCoils(values).value) == Ok(Enumerate(range.start, values))
  {
    var s := EncodeCoils(values).value;
    assert NumBytesForBits(range.count) == (|values| + 7) / 8;
    BitValuesOfPackBits(values, range);
    assert s[1..] == PackBits(values);
  }

  /** The byte count of the reply is never compared with anything. */
  lemma DecodeBitsResponseIgnoresCount(range: AddressRange, s: seq<u8>, b: u8)
    requires range.IsValid() && |s| >= 1
    ensures DecodeBitsResponse(range, [b] + s[1..]) == DecodeBitsResponse(range, s)
  {
    assert ([b] + s[1..])[1..] == s[1..];
  }

  /** `parse_bits_response` over the cursor. */
  method ParseBitsResponse(range: AddressRange, cursor: ReadCursor) returns (r: Result<BitIterator, RequestError>)
    requires range.IsValid() && cursor.Valid()
    modifies cursor
    ensures cursor.Valid()
    ensures r.Ok? <==> DecodeBitsResponse(range, old(cursor.Rest())).Ok?
    ensures r.Ok? ==> fresh(r.value) && r.value.Valid()
                      && r.value.Remaining() == DecodeBitsResponse(range, old(cursor.Rest())).value
    ensures r.Err? ==> r.error == DecodeBitsResponse(range, old(cursor.Rest())).error
  {
    var byteCount :- cursor.ReadU8();
    r := ParseBitIterator(range, cursor);
  }

  /** `ReadBits`: the range asked for and the promise its reply goes to. */
  class ReadBits {
    const request: ReadBitsRange
    const promise: ReadPromise<seq<Indexed<bool>>>

    constructor (request: ReadBitsRange, promise: ReadPromise<seq<Indexed<bool>>>)
      ensures this.request == request && this.promise == promise
    {
      this.request := request;
      this.promise := promise;
    }

    /** `handle_response`: the promise is completed with the decoded reply, success or error alike. */
    method HandleResponse(cursor: ReadCursor)
      requires request.inner.IsValid() && cursor.Valid() && promise.Valid() && !promise.consumed
      modifies cursor, promise
      ensures promise.Valid() && promise.delivered == [DecodeBitsResponse(request.inner, old(cursor.Rest()))]
    {
      var result := ParseBitsResponse(request.inner, cursor);
      if result.Ok? {
        var items := result.value.Collect();
        promise.Complete(Ok(items));
      } else {
        promise.Complete(Err(result.error));
      }
    }
  }

  // ---------------------------------------------------------------------------
  // read_registers.rs

  /** Registers a server writes behind a byte count are decoded back, indexed from the range start. */
  lemma DecodeRegistersResponseOfEncode(range: AddressRange, values: seq<u16>)
    requires range.IsValid() && |values| == range.count && |values| <= 127
    ensures EncodeRegisters(values).Ok?
    ensures DecodeRegistersResponse(range, EncodeRegisters(values).value) == Ok(Enumerate(range.start, values))
  {
    var s := EncodeRegisters(values).value;
    assert s[1..] == BeWords(values);
    WordsOfBeWords(values);
  }

  /** `ReadRegisters`: the range asked for and the promise its reply goes to. */
  class ReadRegisters {
    const request: ReadRegistersRange
    const promise: ReadPromise<seq<Indexed<u16>>>

    constructor (request: ReadRegistersRange, promise: ReadPromise<seq<Indexed<u16>>>)
      ensures this.request == request && this.promise == promise
    {
      this.request := request;
      this.promise := promise;
    }

    /**
     * `handle_response`: skips the byte count, decodes exactly `2 * count` bytes
     * against the request's range and completes the promise with the outcome.
     */
    method HandleResponse(cursor: ReadCursor)
      requires request.inner.IsValid() && cursor.Valid() && promise.Valid() && !promise.consumed
      modifies cursor, promise
      ensures promise.Valid() && promise.delivered == [DecodeRegistersResponse(request.inner, old(cursor.Rest()))]
    {
      var result := ParseRegistersResponse(request.inner, cursor);
      if result.Ok? {
        var items := result.value.Collect();
        promise.Complete(Ok(items));
      } else {
        promise.Complete(Err(result.error));
      }
    }
  }

  // ---------------------------------------------------------------------------
  // write_single.rs

  /** The two `SingleWriteOperation` implementations: a coil and a register write. */
  datatype SingleWriteOperation = Coil(coil: Indexed<bool>) | Register(register: Indexed<u16>)

  /** `serialize`: the index, then the coil state or the register value, big-endian. */
  function EncodeSingleWrite(op: SingleWriteOperation): (r: seq<u8>)
    ensures |r| == 4
  {
    match op
    case Coil(x) => EncodeIndexedCoil(x)
    case Register(x) => EncodeIndexedRegister(x)
  }

  /** `T::parse`, with `T` the type of the request that was sent. */
  function DecodeSingleWrite(request: SingleWriteOperation, s: seq<u8>): (r: Result<Parsed<SingleWriteOperation>, RequestError>)
    ensures r.Ok? ==> r.value.value.Coil? == request.Coil? && s == EncodeSingleWrite(r.value.value) + r.value.rest
  {
    match request
    case Coil(_) =>
      var x :- DecodeIndexedCoil(s);
      Ok(Parsed(Coil(x.value), x.rest))
    case Register(_) =>
      var x :- DecodeIndexedRegister(s);
      Ok(Parsed(Register(x.value), x.rest))
  }

  /** Decoding what `serialize` wrote gives the operation back. */
  lemma DecodeEncodeSingleWrite(op: SingleWriteOperation, rest: seq<u8>)
    ensures DecodeSingleWrite(op, EncodeSingleWrite(op) + rest) == Ok(Parsed(op, rest))
  {
    match op
    case Coil(x) => DecodeEncodeIndexedCoil(x, rest);
    case Register(x) => DecodeEncodeIndexedRegister(x, rest);
  }

  /**
   * `SingleWrite::parse_all`: the reply must parse, leave nothing behind and
   * equal the request; the failures are reported in that order.
   */
  function SingleWriteReply(request: SingleWriteOperation, s: seq<u8>): (r: Result<SingleWriteOperation, RequestError>)
    ensures r.Ok? ==> r.value == request
  {
    var response :- DecodeSingleWrite(request, s);
    var _ :- RequireEmpty(response.rest);
    if request != response.value then Err(BadResponse(ReplyEchoMismatch)) else Ok(response.value)
  }

  /** A single-write reply is accepted exactly when it is the byte-for-byte echo of the request. */
  lemma SingleWriteReplyIsEcho(request: SingleWriteOperation, s: seq<u8>)
    ensures SingleWriteReply(request, s).Ok? <==> s == EncodeSingleWrite(request)
  {
    var d := DecodeSingleWrite(request, s);
    if SingleWriteReply(request, s).Ok? {
      assert d.Ok? && d.value.rest == [] && d.value.value == request;
      assert s == EncodeSingleWrite(request) + [];
    }
    if s == EncodeSingleWrite(request) {
      DecodeEncodeSingleWrite(request, []);
      assert s + [] == s;
    }
  }

  /** Which error a rejected echo yields: a short reply, then trailing bytes, then a mismatch. */
  lemma SingleWriteReplyErrors(request: SingleWriteOperation, s: seq<u8>)
    ensures |s| < 4 ==> SingleWriteReply(request, s) == Err(Insufficient)
    ensures |s| > 4 && DecodeSingleWrite(request, s).Ok? ==> SingleWriteReply(request, s) == Err(BadResponse(TrailingBytes(|s| - 4)))
    ensures |s| == 4 && DecodeSingleWrite(request, s).Ok? && s != EncodeSingleWrite(request) ==>
              SingleWriteReply(request, s) == Err(BadResponse(ReplyEchoMismatch))
  {
    if |s| == 4 && DecodeSingleWrite(request, s).Ok? && s != EncodeSingleWrite(request) {
      assert DecodeSingleWrite(request, s).value.rest == [];
    }
  }

  /** The unit test of the coil parser: `00 01 AB CD` is an unknown coil state, `00 01 FF 00` coil 1 on. */
  lemma SingleWriteReplyExamples()
    ensures SingleWriteReply(Coil(Indexed(1, true)), [0x00, 0x01, 0xAB, 0xCD]) == Err(BadResponse(UnknownCoilState(0xABCD)))
    ensures SingleWriteReply(Coil(Indexed(1, true)), [0x00, 0x01, 0xFF, 0x00]) == Ok(Coil(Indexed(1, true)))
    ensures SingleWriteReply(Coil(Indexed(1, false)), [0x00, 0x01, 0xFF, 0x00]) == Err(BadResponse(ReplyEchoMismatch))
  {
    SingleWriteReplyIsEcho(Coil(Indexed(1, true)), [0x00, 0x01, 0xFF, 0x00]);
  }

  /** `T::parse` over the cursor. */
  method ParseSingleWrite(request: SingleWriteOperation, cursor: ReadCursor) returns (r: Result<SingleWriteOperation, RequestError>)
    requires cursor.Valid()
    modifies cursor
    ensures cursor.Valid() && Agrees(r, cursor.Rest(), DecodeSingleWrite(request, old(cursor.Rest())))
  {
    match request
    case Coil(_) =>
      var x :- ParseIndexedCoil(cursor);
      return Ok(Coil(x));
    case Register(_) =>
      var x :- ParseIndexedRegister(cursor);
      return Ok(Register(x));
  }

  /** `SingleWrite<T>`: the write sent and the promise its echo goes to. */
  class SingleWrite {
    const request: SingleWriteOperation
    const promise: Promise<SingleWriteOperation>

    constructor (request: SingleWriteOperation, promise: Promise<SingleWriteOperation>)
      ensures this.request == request && this.promise == promise
    {
      this.request := request;
      this.promise := promise;
    }

    /** `parse_all` over the cursor. */
    method ParseAll(cursor: ReadCursor) returns (r: Result<SingleWriteOperation, RequestError>)
      requires cursor.Valid()
      modifies cursor
      ensures r == SingleWriteReply(request, old(cursor.Rest()))
    {
      var response :- ParseSingleWrite(request, cursor);
      var _ :- cursor.ExpectEmpty();
      if request != response {
        return Err(BadResponse(ReplyEchoMismatch));
      }
      return Ok(response);
    }

    /** `handle_response`: the promise is completed with the outcome of `parse_all`. */
    method HandleResponse(cursor: ReadCursor)
      requires cursor.Valid() && promise.Valid()
      modifies cursor, promise
      ensures promise.Valid()
      ensures promise.delivered == if old(promise.armed) then [SingleWriteReply(request, old(cursor.Rest()))]
                                   else old(promise.delivered)
    {
      var result := ParseAll(cursor);
      promise.Complete(result);
    }
  }

  // ---------------------------------------------------------------------------
  // write_multiple.rs

  /** `WriteMultiple<T>`: a range and the values to write into it. */
  datatype WriteMultiple<T> = WriteMultiple(range: AddressRange, values: seq<T>)

  /**
   * `MultipleWrite::parse_all`: the echoed range must be valid and equal the
   * request's; only then are trailing bytes rejected.
   */
  function MultipleWriteReply(range: AddressRange, s: seq<u8>): (r: Result<AddressRange, RequestError>)
    ensures r.Ok? ==> r.value == range
  {
    var echoed :- DecodeRange(s);
    if echoed.value != range then Err(BadResponse(ReplyEchoMismatch))
    else
      var _ :- RequireEmpty(echoed.rest);
      Ok(echoed.value)
  }

  /** A valid range is acknowledged exactly by its own four bytes. */
  lemma MultipleWriteReplyIsEcho(range: AddressRange, s: seq<u8>)
    requires range.IsValid()
    ensures MultipleWriteReply(range, s).Ok? <==> s == EncodeRange(range)
  {
    if s == EncodeRange(range) {
      DecodeEncodeRange(range, []);
      assert s + [] == s;
    }
  }

  /** A different range is a mismatch even when bytes follow it: the comparison comes first. */
  lemma MultipleWriteReplyMismatchFirst(range: AddressRange, other: AddressRange, rest: seq<u8>)
    requires other.IsValid() && other != range
    ensures MultipleWriteReply(range, EncodeRange(other) + rest) == Err(BadResponse(ReplyEchoMismatch))
  {
    DecodeEncodeRange(other, rest);
  }

  /** `MultipleWrite<T>`: the request and the promise the echoed range goes to. */
  class MultipleWrite<T> {
    const request: WriteMultiple<T>
    const promise: Promise<AddressRange>

    constructor (request: WriteMultiple<T>, promise: Promise<AddressRange>)
      ensures this.request == request && this.promise == promise
    {
      this.request := request;
      this.promise := promise;
    }

    method ParseAll(cursor: ReadCursor) returns (r: Result<AddressRange, RequestError>)
      requires cursor.Valid()
      modifies cursor
      ensures r == MultipleWriteReply(request.range, old(cursor.Rest()))
    {
      var range :- ParseAddressRange(cursor);
      if range != request.range {
        return Err(BadResponse(ReplyEchoMismatch));
      }
      var _ :- cursor.ExpectEmpty();
      return Ok(range);
    }

    /** `handle_response`: the promise is completed with the outcome of `parse_all`. */
    method HandleResponse(cursor: ReadCursor)
      requires cursor.Valid() && promise.Valid()
      modifies cursor, promise
      ensures promise.Valid()
      ensures promise.delivered == if old(promise.armed) then [MultipleWriteReply(request.range, old(cursor.Rest()))]
                                   else old(promise.delivered)
    {
      var result := ParseAll(cursor);
      promise.Complete(result);
    }
  }

  // ---------------------------------------------------------------------------
  // send_custom_fc.rs

  /**
   * `CustomFunctionCode<u16>::parse` of the client: the function code and the
   * two byte counts, then `byte_count_out` big-endian words, which must be
   * exactly the remaining words; an odd byte left over is a trailing byte.
   */
  function DecodeCustomFcResponse(s: seq<u8>): (r: Result<CustomFunctionCode, RequestError>)
    ensures |s| < 3 ==> r == Err(Insufficient)
    ensures |s| >= 3 && s[2] != (|s| - 3) / 2 ==>
              r == Err(BadResponse(InsufficientBytesForByteCount(s[2], (|s| - 3) / 2)))
    ensures r.Ok? <==> |s| >= 3 && |s| == 3 + 2 * (s[2] as int)
    ensures r.Ok? ==> r.value.functionCode == s[0] && r.value.byteCountIn == s[1] && r.value.byteCountOut == s[2]
                      && EncodeCustomFunctionCode(r.value) == s
  {
    var fc :- TakeU8(s);
    var byteCountIn :- TakeU8(fc.rest);
    var byteCountOut :- TakeU8(byteCountIn.rest);
    var len := byteCountOut.value;
    var remaining := byteCountOut.rest;
    if len != |remaining| / 2 then Err(BadResponse(InsufficientBytesForByteCount(len, |remaining| / 2)))
    else
      // `len` words are present, so the word reads cannot fail
      var values := TakeWords(remaining, len).value;
      var _ :- RequireEmpty(values.rest);
      assert s == [s[0], s[1], s[2]] + remaining;
      Ok(CustomFunctionCode(fc.value, byteCountIn.value, len, values.value))
  }

  /** Decoding what `serialize` wrote gives the request back when its output count matches its data. */
  lemma DecodeEncodeCustomFc(c: CustomFunctionCode)
    requires c.byteCountOut == |c.data|
    ensures DecodeCustomFcResponse(EncodeCustomFunctionCode(c)) == Ok(c)
  {
    var s := EncodeCustomFunctionCode(c);
    assert s[3..] == BeWords(c.data);
    WordsOfBeWords(c.data);
  }

  /** An odd byte after the declared words is reported as a trailing byte. */
  lemma DecodeCustomFcOddLength(c: CustomFunctionCode, extra: u8)
    requires c.byteCountOut == |c.data|
    ensures DecodeCustomFcResponse(EncodeCustomFunctionCode(c) + [extra]) == Err(BadResponse(TrailingBytes(1)))
  {
    var s := EncodeCustomFunctionCode(c) + [extra];
    assert s[3..] == BeWords(c.data) + [extra];
    assert (s[3..])[..2 * |c.data|] == BeWords(c.data);
    WordsOfBeWords(c.data);
  }

  /** `parse` over the cursor, with its loop reading one word at a time. */
  method ParseCustomFc(cursor: ReadCursor) returns (r: Result<CustomFunctionCode, RequestError>)
    requires cursor.Valid()
    modifies cursor
    ensures cursor.Valid() && r == DecodeCustomFcResponse(old(cursor.Rest()))
    ensures r.Ok? ==> cursor.Rest() == []
  {
    var fc :- cursor.ReadU8();
    var byteCountIn :- cursor.ReadU8();
    var byteCountOut :- cursor.ReadU8();
    var len := byteCountOut;
    if len != cursor.Remaining() / 2 {
      return Err(BadResponse(InsufficientBytesForByteCount(len, cursor.Remaining() / 2)));
    }
    var values :- ParseWords(cursor, len);
    var _ :- cursor.ExpectEmpty();
    return Ok(CustomFunctionCode(fc, byteCountIn, byteCountOut, values));
  }

  /** `CustomFCRequest<T>`: the request and the promise its reply goes to. */
  class CustomFcRequest {
    const request: CustomFunctionCode
    const promise: Promise<CustomFunctionCode>

    constructor (request: CustomFunctionCode, promise: Promise<CustomFunctionCode>)
      ensures this.request == request && this.promise == promise
    {
      this.request := request;
      this.promise := promise;
    }

    /**
     * `handle_response`: a reply that does not parse is returned as the error and
     * leaves the promise alone; a parsed reply completes it successfully.
     */
    method HandleResponse(cursor: ReadCursor) returns (r: Result<(), RequestError>)
      requires cursor.Valid() && promise.Valid()
      modifies cursor, promise
      ensures promise.Valid()
      ensures DecodeCustomFcResponse(old(cursor.Rest())).Err? ==>
                r == Err(DecodeCustomFcResponse(old(cursor.Rest())).error)
                && promise.delivered == old(promise.delivered) && promise.armed == old(promise.armed)
      ensures DecodeCustomFcResponse(old(cursor.Rest())).Ok? ==>
                r == Ok(()) && promise.delivered == if old(promise.armed) then [Ok(DecodeCustomFcResponse(old(cursor.Rest())).value)]
                                                    else old(promise.delivered)
    {
      var response :- ParseCustomFc(cursor);
      var _ :- cursor.ExpectEmpty();
      promise.Success(response);
      return Ok(());
    }
  }

  // ---------------------------------------------------------------------------
  // read_write_multiple.rs

  /** `MultipleReadWriteRequest<T>`: the request and the promise the read registers go to. */
  class MultipleReadWriteRequest<T> {
    const request: ReadWriteMultiple<T>
    const promise: Promise<seq<Indexed<u16>>>

    constructor (request: ReadWriteMultiple<T>, promise: Promise<seq<Indexed<u16>>>)
      ensures this.request == request && this.promise == promise
    {
      this.request := request;
      this.promise := promise;
    }

    /**
     * `handle_response`: the reply is decoded against the write range; a failure
     * is returned and leaves the promise alone, a success completes it.
     */
    method HandleResponse(cursor: ReadCursor) returns (r: Result<(), RequestError>)
      requires request.writeRange.IsValid() && cursor.Valid() && promise.Valid()
      modifies cursor, promise
      ensures promise.Valid()
      ensures DecodeRegistersResponse(request.writeRange, old(cursor.Rest())).Err? ==>
                r == Err(DecodeRegistersResponse(request.writeRange, old(cursor.Rest())).error)
                && promise.delivered == old(promise.delivered) && promise.armed == old(promise.armed)
      ensures DecodeRegistersResponse(request.writeRange, old(cursor.Rest())).Ok? ==>
                r == Ok(()) && promise.delivered == if old(promise.armed) then [Ok(DecodeRegistersResponse(request.writeRange, old(cursor.Rest())).value)]
                                                    else old(promise.delivered)
    {
      var response :- ParseRegistersResponse(request.writeRange, cursor);
      var items := response.Collect();
      promise.Success(items);
      return Ok(());
    }

    /**
     * `handle_response` with the reply decoded against the read range, whose
     * registers the reply of function 23 carries.
     */
    method HandleResponseByReadRange(cursor: ReadCursor) returns (r: Result<(), RequestError>)
      requires request.readRange.IsValid() && cursor.Valid() && promise.Valid()
      modifies cursor, promise
      ensures promise.Valid()
      ensures DecodeRegistersResponse(request.readRange, old(cursor.Rest())).Err? ==>
                r == Err(DecodeRegistersResponse(request.readRange, old(cursor.Rest())).error)
                && promise.delivered == old(promise.delivered) && promise.armed == old(promise.armed)
      ensures DecodeRegistersResponse(request.readRange, old(cursor.Rest())).Ok? ==>
                r == Ok(()) && promise.delivered == if old(promise.armed) then [Ok(DecodeRegistersResponse(request.readRange, old(cursor.Rest())).value)]
                                                    else old(promise.delivered)
    {
      var response :- ParseRegistersResponse(request.readRange, cursor);
      var items := response.Collect();
      promise.Success(items);
      return Ok(());
    }
  }

  /**
   * Reading five registers while writing one: the server's reply carries the
   * five registers read, which decoding against the one-register write range
   * refuses as eight trailing bytes, while decoding against the read range
   * delivers them at their own addresses.
   */
  lemma ReadWriteReplyByWriteRangeRefused(values: seq<u16>)
    requires values == [1, 2, 3, 4, 5]
    ensures EncodeRegisters(values).Ok?
    ensures DecodeRegistersResponse(AddressRange(0, 1), EncodeRegisters(values).value) == Err(BadResponse(TrailingBytes(8)))
    ensures DecodeRegistersResponse(AddressRange(100, 5), EncodeRegisters(values).value) == Ok(Enumerate(100, values))
  {
    DecodeRegistersResponseOfEncode(AddressRange(100, 5), values);
  }
}
