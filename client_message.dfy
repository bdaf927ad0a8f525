/**
 * A client request in flight (`client::message`): which function it expects
 * in the reply, how a reply with another function byte is turned into an
 * error, and the dispatch of a matching reply to the request's own handler.
 */
module ClientMessage {
  import opened Num
  import opened Wrappers
  import opened Errors
  import opened Exception
  import opened Types
  import opened Function
  import opened ReadCursors
  import opened Serialize
  import opened Parse
  import opened Phys
  import opened ClientPromise
  import opened ReadWriteMultiples
  import opened ClientRequests

  /**
   * `RequestDetails`. The custom function code variant carries the user-defined
   * code its request is sent with.
   */
  datatype RequestDetails =
    | ReadCoils(bits: ReadBits)
    | ReadDiscreteInputs(bits: ReadBits)
    | ReadHoldingRegisters(registers: ReadRegisters)
    | ReadInputRegisters(registers: ReadRegisters)
    | WriteSingleCoil(single: SingleWrite)
    | WriteSingleRegister(single: SingleWrite)
    | WriteMultipleCoils(coils: MultipleWrite<bool>)
    | WriteMultipleRegisters(values: MultipleWrite<u16>)
    | WriteCustomFunctionCode(code: CustomCode, custom: CustomFcRequest)
  {
    /** `function`: the code the request is sent with and the reply must carry. */
    function Function(): (f: FunctionCode)
      ensures f.Value() == READ_COILS <==> ReadCoils?
      ensures f.Value() == READ_DISCRETE_INPUTS <==> ReadDiscreteInputs?
      ensures f.Value() == READ_HOLDING_REGISTERS <==> ReadHoldingRegisters?
      ensures f.Value() == READ_INPUT_REGISTERS <==> ReadInputRegisters?
      ensures f.Value() == WRITE_SINGLE_COIL <==> WriteSingleCoil?
      ensures f.Value() == WRITE_SINGLE_REGISTER <==> WriteSingleRegister?
      ensures f.Value() == WRITE_MULTIPLE_COILS <==> WriteMultipleCoils?
      ensures f.Value() == WRITE_MULTIPLE_REGISTERS <==> WriteMultipleRegisters?
      ensures IsCustomCode(f.Value()) <==> WriteCustomFunctionCode?
    {
      match this
      case ReadCoils(_) => FunctionCode.ReadCoils
      case ReadDiscreteInputs(_) => FunctionCode.ReadDiscreteInputs
      case ReadHoldingRegisters(_) => FunctionCode.ReadHoldingRegisters
      case ReadInputRegisters(_) => FunctionCode.ReadInputRegisters
      case WriteSingleCoil(_) => FunctionCode.WriteSingleCoil
      case WriteSingleRegister(_) => FunctionCode.WriteSingleRegister
      case WriteMultipleCoils(_) => FunctionCode.WriteMultipleCoils
      case WriteMultipleRegisters(_) => FunctionCode.WriteMultipleRegisters
      case WriteCustomFunctionCode(c, _) => SendCustomFunctionCode(c)
    }

    /** The promise the request completes. */
    function Target(): object {
      match this
      case ReadCoils(x) => x.promise
      case ReadDiscreteInputs(x) => x.promise
      case ReadHoldingRegisters(x) => x.promise
      case ReadInputRegisters(x) => x.promise
      case WriteSingleCoil(x) => x.promise
      case WriteSingleRegister(x) => x.promise
      case WriteMultipleCoils(x) => x.promise
      case WriteMultipleRegisters(x) => x.promise
      case WriteCustomFunctionCode(_, x) => x.promise
    }

    /** The request is well formed and its promise can still be completed. */
    ghost predicate Ready()
      reads Target()
    {
      match this
      case ReadCoils(x) => x.request.inner.IsValid() && x.promise.Valid() && !x.promise.consumed
      case ReadDiscreteInputs(x) => x.request.inner.IsValid() && x.promise.Valid() && !x.promise.consumed
      case ReadHoldingRegisters(x) => x.request.inner.IsValid() && x.promise.Valid() && !x.promise.consumed
      case ReadInputRegisters(x) => x.request.inner.IsValid() && x.promise.Valid() && !x.promise.consumed
      case WriteSingleCoil(x) => x.request.Coil? && x.promise.Valid()
      case WriteSingleRegister(x) => x.request.Register? && x.promise.Valid()
      case WriteMultipleCoils(x) => x.promise.Valid()
      case WriteMultipleRegisters(x) => x.promise.Valid()
      case WriteCustomFunctionCode(_, x) => x.promise.Valid()
    }
  }

  /** `Request`: the unit addressed, the reply timeout and the details. */
  datatype Request = Request(id: UnitId, timeout: Duration, details: RequestDetails)

  /**
   * `serialize` of the details: the body of the request PDU after the
   * function code, as the server will parse it.
   */
  function EncodeDetails(details: RequestDetails): (r: Result<seq<u8>, RequestError>)
  {
    match details
    case ReadCoils(x) => Ok(EncodeRange(x.request.inner))
    case ReadDiscreteInputs(x) => Ok(EncodeRange(x.request.inner))
    case ReadHoldingRegisters(x) => Ok(EncodeRange(x.request.inner))
    case ReadInputRegisters(x) => Ok(EncodeRange(x.request.inner))
    case WriteSingleCoil(x) => Ok(EncodeSingleWrite(x.request))
    case WriteSingleRegister(x) => Ok(EncodeSingleWrite(x.request))
    case WriteMultipleCoils(x) => EncodeWriteMultipleCoils(x.request.range, x.request.values)
    case WriteMultipleRegisters(x) => EncodeWriteMultipleRegisters(x.request.range, x.request.values)
    case WriteCustomFunctionCode(_, x) => Ok(EncodeCustomFunctionCode(x.request))
  }

  /** A read request's body is its range, which the server decodes back exactly. */
  lemma ReadRequestRoundTrip(details: RequestDetails)
    requires details.ReadCoils? || details.ReadDiscreteInputs? || details.ReadHoldingRegisters? || details.ReadInputRegisters?
    requires details.ReadCoils? || details.ReadDiscreteInputs? ==> details.bits.request.inner.IsValid()
    requires details.ReadHoldingRegisters? || details.ReadInputRegisters? ==> details.registers.request.inner.IsValid()
    ensures EncodeDetails(details).Ok? && |EncodeDetails(details).value| == 4
    ensures details.ReadCoils? || details.ReadDiscreteInputs? ==>
              DecodeRange(EncodeDetails(details).value) == Ok(Parsed(details.bits.request.inner, []))
    ensures details.ReadHoldingRegisters? || details.ReadInputRegisters? ==>
              DecodeRange(EncodeDetails(details).value) == Ok(Parsed(details.registers.request.inner, []))
  {
    var range := if details.ReadCoils? || details.ReadDiscreteInputs? then details.bits.request.inner
                 else details.registers.request.inner;
    DecodeEncodeRange(range, []);
    assert EncodeRange(range) + [] == EncodeRange(range);
  }

  /**
   * `get_error_for`: the error reported for a reply whose function byte is not
   * the expected one. `rest` is what follows the function byte.
   */
  function ErrorFor(received: u8, expected: FunctionCode, rest: seq<u8>): (r: RequestError)
    ensures r.Exception? ==> received == expected.AsError() && |rest| == 1
    ensures r.BadResponse? && r.response.UnknownResponseFunction? <==> received != expected.AsError()
  {
    if received == expected.AsError() then
      match TakeU8(rest)
      case Ok(x) =>
        var exception := FromByte(x.value);
        if x.rest == [] then Exception(exception) else BadResponse(TrailingBytes(|x.rest|))
      case Err(e) => e
    else
      BadResponse(UnknownResponseFunction(received, expected.Value(), expected.AsError()))
  }

  /**
   * The check `handle_response` makes before dispatching: a payload that is
   * empty or carries another function byte is an error, otherwise the bytes
   * after the function byte go to the request's handler.
   */
  function CheckFunction(expected: FunctionCode, payload: seq<u8>): (r: Result<seq<u8>, RequestError>)
    ensures r.Ok? <==> |payload| >= 1 && payload[0] == expected.Value()
    ensures r.Ok? ==> payload == [expected.Value()] + r.value
    ensures payload == [] ==> r == Err(Insufficient)
  {
    var received :- TakeU8(payload);
    if received.value != expected.Value() then Err(ErrorFor(received.value, expected, received.rest))
    else Ok(received.rest)
  }

  /**
   * An exception reply (the function byte with its high bit set, then one code
   * byte) yields the exception of that code, which converts back to the byte.
   */
  lemma ExceptionReply(expected: FunctionCode, b: u8)
    ensures CheckFunction(expected, [expected.AsError(), b]) == Err(Exception(FromByte(b)))
    ensures ToByte(FromByte(b)) == b
  {
    ToByteFromByte(b);
    var p := [expected.AsError(), b];
    assert TakeU8(p).value == Parsed(expected.AsError(), [b]);
    assert TakeU8([b]).value == Parsed(b, []);
  }

  /** Exception replies of every other length are malformed, not exceptions. */
  lemma ExceptionReplyMalformed(expected: FunctionCode, rest: seq<u8>)
    ensures rest == [] ==> CheckFunction(expected, [expected.AsError()] + rest) == Err(Insufficient)
    ensures |rest| > 1 ==> CheckFunction(expected, [expected.AsError()] + rest) == Err(BadResponse(TrailingBytes(|rest| - 1)))
  {
    var p := [expected.AsError()] + rest;
    assert TakeU8(p).value.rest == rest;
    if |rest| >= 1 {
      assert TakeU8(rest).value.rest == rest[1..];
    }
  }

  /** A reply for another function names the received byte, the expected byte and its exception form. */
  lemma OtherFunctionReply(expected: FunctionCode, b: u8, rest: seq<u8>)
    requires b != expected.Value() && b != expected.AsError()
    ensures CheckFunction(expected, [b] + rest) ==
              Err(BadResponse(UnknownResponseFunction(b, expected.Value(), expected.AsError())))
  {
    assert TakeU8([b] + rest).value == Parsed(b, rest);
  }

  /** What a request's handler returns for the bytes after the function code. */
  function HandlerResult(details: RequestDetails, body: seq<u8>): (r: Result<(), RequestError>)
    ensures !details.WriteCustomFunctionCode? ==> r == Ok(())
    ensures details.WriteCustomFunctionCode? ==> (r.Ok? <==> DecodeCustomFcResponse(body).Ok?)
  {
    if details.WriteCustomFunctionCode? then
      match DecodeCustomFcResponse(body)
      case Ok(_) => Ok(())
      case Err(e) => Err(e)
    else Ok(())
  }

  /** `RequestDetails::handle_response`: the dispatch to the request's own handler. */
  method HandleDetails(details: RequestDetails, cursor: ReadCursor) returns (r: Result<(), RequestError>)
    requires details.Ready() && cursor.Valid() && cursor != details.Target()
    modifies cursor, details.Target()
    ensures r == HandlerResult(details, old(cursor.Rest()))
    ensures Handled(details, old(cursor.Rest()))
  {
    match details
    case ReadCoils(x) =>
      x.HandleResponse(cursor);
      r := Ok(());
    case ReadDiscreteInputs(x) =>
      x.HandleResponse(cursor);
      r := Ok(());
    case ReadHoldingRegisters(x) =>
      x.HandleResponse(cursor);
      r := Ok(());
    case ReadInputRegisters(x) =>
      x.HandleResponse(cursor);
      r := Ok(());
    case WriteSingleCoil(x) =>
      x.HandleResponse(cursor);
      r := Ok(());
    case WriteSingleRegister(x) =>
      x.HandleResponse(cursor);
      r := Ok(());
    case WriteMultipleCoils(x) =>
      x.HandleResponse(cursor);
      r := Ok(());
    case WriteMultipleRegisters(x) =>
      x.HandleResponse(cursor);
      r := Ok(());
    case WriteCustomFunctionCode(_, x) =>
      r := x.HandleResponse(cursor);
  }

  /**
   * The promise of `details` after its handler saw `body`: a read request's
   * promise holds the decoded reply; a write request's promise, if it was still
   * armed, holds the checked echo; a custom request's holds the parsed reply
   * when it parsed and is untouched otherwise.
   */
  twostate predicate Handled(details: RequestDetails, body: seq<u8>)
    reads details.Target()
  {
    match details
    case ReadCoils(x) =>
      x.request.inner.IsValid() && x.promise.Valid() && x.promise.delivered == [DecodeBitsResponse(x.request.inner, body)]
    case ReadDiscreteInputs(x) =>
      x.request.inner.IsValid() && x.promise.Valid() && x.promise.delivered == [DecodeBitsResponse(x.request.inner, body)]
    case ReadHoldingRegisters(x) =>
      x.request.inner.IsValid() && x.promise.Valid() && x.promise.delivered == [DecodeRegistersResponse(x.request.inner, body)]
    case ReadInputRegisters(x) =>
      x.request.inner.IsValid() && x.promise.Valid() && x.promise.delivered == [DecodeRegistersResponse(x.request.inner, body)]
    case WriteSingleCoil(x) =>
      x.promise.Valid()
      && x.promise.delivered == if old(x.promise.armed) then [SingleWriteReply(x.request, body)] else old(x.promise.delivered)
    case WriteSingleRegister(x) =>
      x.promise.Valid()
      && x.promise.delivered == if old(x.promise.armed) then [SingleWriteReply(x.request, body)] else old(x.promise.delivered)
    case WriteMultipleCoils(x) =>
      x.promise.Valid()
      && x.promise.delivered == if old(x.promise.armed) then [MultipleWriteReply(x.request.range, body)] else old(x.promise.delivered)
    case WriteMultipleRegisters(x) =>
      x.promise.Valid()
      && x.promise.delivered == if old(x.promise.armed) then [MultipleWriteReply(x.request.range, body)] else old(x.promise.delivered)
    case WriteCustomFunctionCode(_, x) =>
      x.promise.Valid()
      && match DecodeCustomFcResponse(body)
         case Ok(c) => x.promise.delivered == if old(x.promise.armed) then [Ok(c)] else old(x.promise.delivered)
         case Err(_) => x.promise.delivered == old(x.promise.delivered) && x.promise.armed == old(x.promise.armed)
  }

  /**
   * `Request::handle_response`: a reply whose function byte does not match
   * leaves the promise alone and is reported as an error; a matching reply is
   * handed, without its function byte, to the request's handler.
   */
  method HandleResponse(request: Request, payload: seq<u8>) returns (r: Result<(), RequestError>)
    requires request.details.Ready()
    modifies request.details.Target()
    ensures CheckFunction(request.details.Function(), payload).Err? ==>
              r == Err(CheckFunction(request.details.Function(), payload).error)
              && unchanged(request.details.Target())
    ensures CheckFunction(request.details.Function(), payload).Ok? ==>
              r == HandlerResult(request.details, payload[1..]) && Handled(request.details, payload[1..])
  {
    var expected := request.details.Function();
    var cursor := new ReadCursor(payload);
    var received :- cursor.ReadU8();
    if received != expected.Value() {
      var rest := cursor.Rest();
      return Err(ErrorFor(received, expected, rest));
    }
    r := HandleDetails(request.details, cursor);
  }

  /** `RequestDetails::fail`: the error goes to the request's promise. */
  method Fail(details: RequestDetails, err: RequestError)
    requires details.Ready()
    modifies details.Target()
    ensures details.ReadCoils? || details.ReadDiscreteInputs? ==> details.bits.promise.delivered == [Err(err)]
    ensures details.ReadHoldingRegisters? || details.ReadInputRegisters? ==>
              details.registers.promise.delivered == [Err(err)]
    ensures details.WriteSingleCoil? || details.WriteSingleRegister? ==>
              details.single.promise.delivered ==
                if old(details.single.promise.armed) then [Err(err)] else old(details.single.promise.delivered)
    ensures details.WriteMultipleCoils? ==>
              details.coils.promise.delivered ==
                if old(details.coils.promise.armed) then [Err(err)] else old(details.coils.promise.delivered)
    ensures details.WriteMultipleRegisters? ==>
              details.values.promise.delivered ==
                if old(details.values.promise.armed) then [Err(err)] else old(details.values.promise.delivered)
    ensures details.WriteCustomFunctionCode? ==>
              details.custom.promise.delivered ==
                if old(details.custom.promise.armed) then [Err(err)] else old(details.custom.promise.delivered)
  {
    match details
    case ReadCoils(x) => x.promise.Failure(err);
    case ReadDiscreteInputs(x) => x.promise.Failure(err);
    case ReadHoldingRegisters(x) => x.promise.Failure(err);
    case ReadInputRegisters(x) => x.promise.Failure(err);
    case WriteSingleCoil(x) => x.promise.Failure(err);
    case WriteSingleRegister(x) => x.promise.Failure(err);
    case WriteMultipleCoils(x) => x.promise.Failure(err);
    case WriteMultipleRegisters(x) => x.promise.Failure(err);
    case WriteCustomFunctionCode(_, x) => x.promise.Failure(err);
  }
}
