/**
 * The server side of a session: decoding a request PDU into a `Request`,
 * asking the handler for the data or the write, turning its answer into a
 * reply PDU or an exception PDU, and the decision chain that decides
 * whether a frame is answered at all (empty frames, unknown function codes,
 * malformed requests, authorization, unmapped unit ids and broadcast).
 *
 * Replies are modelled as the PDU the frame formatter is given: the function
 * byte and the body. The user's handler and authorization handler are
 * parameters: functions from the request's addresses to the handler's answer.
 */
module Server {
  import opened Num
  import opened Wrappers
  import opened Errors
  import opened Exception
  import opened Function
  import opened Bits
  import opened Types
  import opened ReadCursors
  import opened Serialize
  import opened Parse
  import opened Frames
  import opened Decode
  import Service
  import ClientRequests
  import ClientMessage
  import ReadWriteMultiples

  // ---------------------------------------------------------------------------
  // Requests

  /** A decoded request. The multiple writes carry the items their iterators yield. */
  datatype Request =
    | ReadCoils(bits: ReadBitsRange)
    | ReadDiscreteInputs(bits: ReadBitsRange)
    | ReadHoldingRegisters(registers: ReadRegistersRange)
    | ReadInputRegisters(registers: ReadRegistersRange)
    | WriteSingleCoil(coil: Indexed<bool>)
    | WriteSingleRegister(register: Indexed<u16>)
    | WriteMultipleCoils(coils: Service.WriteCoils)
    | WriteMultipleRegisters(writes: Service.WriteRegisters)
  {
    /** `get_function`: one of the eight standard function codes. */
    function GetFunction(): (f: FunctionCode)
      ensures !f.SendCustomFunctionCode? && IsKnownCode(f.Value()) && !IsCustomCode(f.Value())
    {
      match this
      case ReadCoils(_) => FunctionCode.ReadCoils
      case ReadDiscreteInputs(_) => FunctionCode.ReadDiscreteInputs
      case ReadHoldingRegisters(_) => FunctionCode.ReadHoldingRegisters
      case ReadInputRegisters(_) => FunctionCode.ReadInputRegisters
      case WriteSingleCoil(_) => FunctionCode.WriteSingleCoil
      case WriteSingleRegister(_) => FunctionCode.WriteSingleRegister
      case WriteMultipleCoils(_) => FunctionCode.WriteMultipleCoils
      case WriteMultipleRegisters(_) => FunctionCode.WriteMultipleRegisters
    }

    /** What every parsed request satisfies: valid ranges within the read limits. */
    predicate WellFormed() {
      match this
      case ReadCoils(b) => b.inner.IsValid() && b.inner.count <= 2000
      case ReadDiscreteInputs(b) => b.inner.IsValid() && b.inner.count <= 2000
      case ReadHoldingRegisters(g) => g.inner.IsValid() && g.inner.count <= 125
      case ReadInputRegisters(g) => g.inner.IsValid() && g.inner.count <= 125
      case WriteSingleCoil(_) => true
      case WriteSingleRegister(_) => true
      case WriteMultipleCoils(c) => c.range.IsValid() && |c.values| == c.range.count
      case WriteMultipleRegisters(w) => w.range.IsValid() && |w.values| == w.range.count
    }
  }

  /** The start and count words of a read request. */
  function StartWord(s: seq<u8>): u16
    requires |s| >= 2
  {
    Be16(s[0], s[1])
  }

  function CountWord(s: seq<u8>): u16
    requires |s| >= 4
  {
    Be16(s[2], s[3])
  }

  /** The range of a read request, then the limit for its type, then nothing after it. */
  function ParseReadBits(s: seq<u8>): (r: Result<ReadBitsRange, RequestError>)
    ensures r.Ok? <==> |s| == 4 && AddressRange(StartWord(s), CountWord(s)).IsValid() && CountWord(s) <= 2000
    ensures r.Ok? ==> s == EncodeRange(r.value.inner)
    ensures |s| < 4 ==> r == Err(Insufficient)
    ensures |s| >= 4 && !AddressRange(StartWord(s), CountWord(s)).IsValid() ==>
              r == Err(FromInvalidRange(TryFrom(StartWord(s), CountWord(s)).error))
    ensures |s| >= 4 && AddressRange(StartWord(s), CountWord(s)).IsValid() && CountWord(s) > 2000 ==>
              r == Err(FromInvalidRange(CountTooLargeForType(CountWord(s), 2000)))
    ensures |s| > 4 && AddressRange(StartWord(s), CountWord(s)).IsValid() && CountWord(s) <= 2000 ==>
              r == Err(BadResponse(TrailingBytes(|s| - 4)))
  {
    var range :- DecodeRange(s);
    match OfReadBits(range.value)
    case Err(e) => Err(FromInvalidRange(e))
    case Ok(bits) =>
      var _ :- RequireEmpty(range.rest);
      assert s == EncodeRange(range.value) + [];
      Ok(bits)
  }

  function ParseReadRegisters(s: seq<u8>): (r: Result<ReadRegistersRange, RequestError>)
    ensures r.Ok? <==> |s| == 4 && AddressRange(StartWord(s), CountWord(s)).IsValid() && CountWord(s) <= 125
    ensures r.Ok? ==> s == EncodeRange(r.value.inner)
    ensures |s| < 4 ==> r == Err(Insufficient)
    ensures |s| >= 4 && !AddressRange(StartWord(s), CountWord(s)).IsValid() ==>
              r == Err(FromInvalidRange(TryFrom(StartWord(s), CountWord(s)).error))
    ensures |s| >= 4 && AddressRange(StartWord(s), CountWord(s)).IsValid() && CountWord(s) > 125 ==>
              r == Err(FromInvalidRange(CountTooLargeForType(CountWord(s), 125)))
    ensures |s| > 4 && AddressRange(StartWord(s), CountWord(s)).IsValid() && CountWord(s) <= 125 ==>
              r == Err(BadResponse(TrailingBytes(|s| - 4)))
  {
    var range :- DecodeRange(s);
    match OfReadRegisters(range.value)
    case Err(e) => Err(FromInvalidRange(e))
    case Ok(registers) =>
      var _ :- RequireEmpty(range.rest);
      assert s == EncodeRange(range.value) + [];
      Ok(registers)
  }

  /** An index and a coil state, and nothing after them. */
  function ParseSingleCoil(s: seq<u8>): (r: Result<Indexed<bool>, RequestError>)
    ensures r.Ok? <==> |s| == 4 && (CountWord(s) == 0xFF00 || CountWord(s) == 0x0000)
    ensures r.Ok? ==> s == EncodeIndexedCoil(r.value)
    ensures |s| >= 4 && CountWord(s) != 0xFF00 && CountWord(s) != 0x0000 ==>
              r == Err(BadResponse(UnknownCoilState(CountWord(s))))
  {
    var coil :- DecodeIndexedCoil(s);
    var _ :- RequireEmpty(coil.rest);
    assert s == EncodeIndexedCoil(coil.value) + [];
    Ok(coil.value)
  }

  /** An index and a register value, and nothing after them. */
  function ParseSingleRegister(s: seq<u8>): (r: Result<Indexed<u16>, RequestError>)
    ensures r.Ok? <==> |s| == 4
    ensures r.Ok? ==> s == EncodeIndexedRegister(r.value)
    ensures |s| > 4 ==> r == Err(BadResponse(TrailingBytes(|s| - 4)))
  {
    var register :- DecodeIndexedRegister(s);
    var _ :- RequireEmpty(register.rest);
    assert s == EncodeIndexedRegister(register.value) + [];
    Ok(register.value)
  }

  /**
   * A write-multiple-coils request: the range, a byte count that is read and
   * ignored, then exactly the bytes the range needs.
   */
  function ParseWriteCoils(s: seq<u8>): (r: Result<Service.WriteCoils, RequestError>)
    ensures r.Ok? <==> |s| >= 4 && AddressRange(StartWord(s), CountWord(s)).IsValid()
                       && |s| == 5 + NumBytesForBits(CountWord(s))
    ensures r.Ok? ==> r.value.range.IsValid() && |r.value.values| == r.value.range.count
                      && s[..4] == EncodeRange(r.value.range)
                      && r.value.values == BitValues(s[5..], r.value.range)
  {
    var range :- DecodeRange(s);
    var byteCount :- TakeU8(range.rest);
    var bytes :- ParseAllBits(range.value, byteCount.rest);
    ParseAllBitsYieldsCount(range.value, byteCount.rest);
    Ok(Service.WriteCoils(range.value, BitValues(bytes.value, range.value)))
  }

  /** A write-multiple-registers request: the range, an ignored byte count, then exactly `2 * count` bytes. */
  function ParseWriteRegisters(s: seq<u8>): (r: Result<Service.WriteRegisters, RequestError>)
    ensures r.Ok? <==> |s| >= 4 && AddressRange(StartWord(s), CountWord(s)).IsValid()
                       && |s| == 5 + 2 * CountWord(s)
    ensures r.Ok? ==> r.value.range.IsValid() && |r.value.values| == r.value.range.count
                      && s[..4] == EncodeRange(r.value.range)
                      && r.value.values == RegisterValues(s[5..], r.value.range)
  {
    var range :- DecodeRange(s);
    var byteCount :- TakeU8(range.rest);
    var bytes :- ParseAllRegisters(range.value, byteCount.rest);
    ParseAllRegistersYieldsCount(range.value, byteCount.rest);
    Ok(Service.WriteRegisters(range.value, RegisterValues(bytes.value, range.value)))
  }

  /**
   * The function codes the server's request parser has an arm for: the eight
   * standard codes. `FunctionCode::get` of the same version as `Request::parse`
   * knows only these, so every other byte, the user-defined codes included,
   * is an unknown function to the server.
   */
  function ServerFunction(value: u8): (r: Option<FunctionCode>)
    ensures r.Some? <==> Get(value).Some? && !IsCustomCode(value)
    ensures r.Some? ==> r.value == Get(value).value && !r.value.SendCustomFunctionCode?
  {
    match Get(value)
    case Some(fc) => if fc.SendCustomFunctionCode? then None else Some(fc)
    case None => None
  }

  /**
   * `Request::parse`: the body of a request PDU for function `fc`. A
   * user-defined function code has no request variant and is refused; the
   * server never asks, as `ServerFunction` has no such code.
   */
  function ParseRequest(fc: FunctionCode, s: seq<u8>): (r: Result<Request, RequestError>)
    ensures r.Ok? ==> r.value.GetFunction() == fc && r.value.WellFormed()
    ensures fc.SendCustomFunctionCode? ==> r == Err(BadFrame(UnknownFunctionCode(fc.Value())))
  {
    match fc
    case ReadCoils =>
      var bits :- ParseReadBits(s);
      Ok(Request.ReadCoils(bits))
    case ReadDiscreteInputs =>
      var bits :- ParseReadBits(s);
      Ok(Request.ReadDiscreteInputs(bits))
    case ReadHoldingRegisters =>
      var registers :- ParseReadRegisters(s);
      Ok(Request.ReadHoldingRegisters(registers))
    case ReadInputRegisters =>
      var registers :- ParseReadRegisters(s);
      Ok(Request.ReadInputRegisters(registers))
    case WriteSingleCoil =>
      var coil :- ParseSingleCoil(s);
      Ok(Request.WriteSingleCoil(coil))
    case WriteSingleRegister =>
      var register :- ParseSingleRegister(s);
      Ok(Request.WriteSingleRegister(register))
    case WriteMultipleCoils =>
      var coils :- ParseWriteCoils(s);
      Ok(Request.WriteMultipleCoils(coils))
    case WriteMultipleRegisters =>
      var writes :- ParseWriteRegisters(s);
      Ok(Request.WriteMultipleRegisters(writes))
    case SendCustomFunctionCode(code) =>
      Err(BadFrame(UnknownFunctionCode(code)))
  }

  // ---------------------------------------------------------------------------
  // Properties of the request parser

  /** A read request as the client encodes it is parsed back into its range. */
  lemma ParseEncodedReadBits(range: AddressRange)
    requires range.IsValid() && range.count <= 2000
    ensures ParseRequest(FunctionCode.ReadCoils, EncodeRange(range)) == Ok(Request.ReadCoils(ReadBitsRange(range)))
    ensures ParseRequest(FunctionCode.ReadDiscreteInputs, EncodeRange(range)) == Ok(Request.ReadDiscreteInputs(ReadBitsRange(range)))
  {
    DecodeEncodeRange(range, []);
    assert EncodeRange(range) + [] == EncodeRange(range);
  }

  lemma ParseEncodedReadRegisters(range: AddressRange)
    requires range.IsValid() && range.count <= 125
    ensures ParseRequest(FunctionCode.ReadHoldingRegisters, EncodeRange(range)) == Ok(Request.ReadHoldingRegisters(ReadRegistersRange(range)))
    ensures ParseRequest(FunctionCode.ReadInputRegisters, EncodeRange(range)) == Ok(Request.ReadInputRegisters(ReadRegistersRange(range)))
  {
    DecodeEncodeRange(range, []);
    assert EncodeRange(range) + [] == EncodeRange(range);
  }

  /** The body of a single write as the client encodes it is accepted unchanged. */
  lemma ParseSingleOfEncode(coil: Indexed<bool>, register: Indexed<u16>)
    ensures ParseSingleCoil(EncodeIndexedCoil(coil)) == Ok(coil)
    ensures ParseSingleRegister(EncodeIndexedRegister(register)) == Ok(register)
  {
    ParseSingleCoilOfEncode(coil);
    ParseSingleRegisterOfEncode(register);
  }

  lemma ParseSingleCoilOfEncode(coil: Indexed<bool>)
    ensures ParseSingleCoil(EncodeIndexedCoil(coil)) == Ok(coil)
  {
    var s := EncodeIndexedCoil(coil);
    DecodeEncodeIndexedCoil(coil, []);
    assert s + [] == s;
    assert DecodeIndexedCoil(s) == Ok(Parsed(coil, []));
  }

  lemma ParseSingleRegisterOfEncode(register: Indexed<u16>)
    ensures ParseSingleRegister(EncodeIndexedRegister(register)) == Ok(register)
  {
    var s := EncodeIndexedRegister(register);
    DecodeEncodeIndexedRegister(register, []);
    assert s + [] == s;
    assert DecodeIndexedRegister(s) == Ok(Parsed(register, []));
  }

  /** A single write as the client encodes it is parsed back into its index and value. */
  lemma ParseEncodedSingleWrites(coil: Indexed<bool>, register: Indexed<u16>)
    ensures ParseRequest(FunctionCode.WriteSingleCoil, EncodeIndexedCoil(coil)) == Ok(Request.WriteSingleCoil(coil))
    ensures ParseRequest(FunctionCode.WriteSingleRegister, EncodeIndexedRegister(register)) == Ok(Request.WriteSingleRegister(register))
  {
    ParseEncodedSingleCoil(coil);
    ParseEncodedSingleRegister(register);
  }

  lemma ParseEncodedSingleCoil(coil: Indexed<bool>)
    ensures ParseRequest(FunctionCode.WriteSingleCoil, EncodeIndexedCoil(coil)) == Ok(Request.WriteSingleCoil(coil))
  {
    ParseSingleCoilOfEncode(coil);
  }

  lemma ParseEncodedSingleRegister(register: Indexed<u16>)
    ensures ParseRequest(FunctionCode.WriteSingleRegister, EncodeIndexedRegister(register)) == Ok(Request.WriteSingleRegister(register))
  {
    ParseSingleRegisterOfEncode(register);
    SingleRegisterRequest(EncodeIndexedRegister(register));
  }

  lemma SingleRegisterRequest(s: seq<u8>)
    requires ParseSingleRegister(s).Ok?
    ensures ParseRequest(FunctionCode.WriteSingleRegister, s) == Ok(Request.WriteSingleRegister(ParseSingleRegister(s).value))
  {
    var register := ParseSingleRegister(s).value;
    assert ParseSingleRegister(s) == Ok(register);
  }

  /**
   * Wherever the older service parser, which checks the byte count, accepts a
   * write-multiple request, the current parser gives the same request.
   */
  lemma ParseWriteCoilsExtendsService(s: seq<u8>)
    requires Service.ParseWriteMultipleCoils(s).Ok?
    ensures ParseWriteCoils(s) == Ok(Service.ParseWriteMultipleCoils(s).value)
  {
    var w := Service.ParseWriteMultipleCoils(s).value;
    assert AddressRange(StartWord(s), CountWord(s)) == w.range by {
      assert s[..4] == EncodeRange(w.range);
      assert BeBytes(StartWord(s)) == s[..2];
      assert BeBytes(CountWord(s)) == s[2..4];
    }
  }

  lemma ParseWriteRegistersExtendsService(s: seq<u8>)
    requires Service.ParseWriteMultipleRegisters(s).Ok?
    ensures ParseWriteRegisters(s) == Ok(Service.ParseWriteMultipleRegisters(s).value)
  {
    var w := Service.ParseWriteMultipleRegisters(s).value;
    assert AddressRange(StartWord(s), CountWord(s)) == w.range by {
      assert s[..4] == EncodeRange(w.range);
      assert BeBytes(StartWord(s)) == s[..2];
      assert BeBytes(CountWord(s)) == s[2..4];
    }
  }

  /** A write-multiple request as the client encodes it is parsed back into its values. */
  lemma ParseEncodedWriteCoils(range: AddressRange, values: seq<bool>)
    requires range.IsValid() && |values| == range.count && |values| <= 2040
    ensures EncodeWriteMultipleCoils(range, values).Ok?
    ensures ParseRequest(FunctionCode.WriteMultipleCoils, EncodeWriteMultipleCoils(range, values).value) ==
              Ok(Request.WriteMultipleCoils(Service.WriteCoils(range, Enumerate(range.start, values))))
  {
    Service.ParseEncodedWriteMultipleCoils(range, values);
    ParseWriteCoilsExtendsService(EncodeWriteMultipleCoils(range, values).value);
  }

  lemma ParseEncodedWriteRegisters(range: AddressRange, values: seq<u16>)
    requires range.IsValid() && |values| == range.count && |values| <= 127
    ensures EncodeWriteMultipleRegisters(range, values).Ok?
    ensures ParseRequest(FunctionCode.WriteMultipleRegisters, EncodeWriteMultipleRegisters(range, values).value) ==
              Ok(Request.WriteMultipleRegisters(Service.WriteRegisters(range, Enumerate(range.start, values))))
  {
    Service.ParseEncodedWriteMultipleRegisters(range, values);
    ParseWriteRegistersExtendsService(EncodeWriteMultipleRegisters(range, values).value);
  }

  /** The byte count of a write-multiple request is never looked at. */
  lemma ByteCountIgnored(s: seq<u8>, b: u8)
    requires |s| >= 5
    ensures ParseWriteCoils(s[4 := b]) == ParseWriteCoils(s)
    ensures ParseWriteRegisters(s[4 := b]) == ParseWriteRegisters(s)
  {
    var t := s[4 := b];
    assert t[..4] == s[..4] && t[5..] == s[5..];
    if AddressRange(StartWord(s), CountWord(s)).IsValid() {
      assert DecodeRange(t).value.value == DecodeRange(s).value.value;
      assert DecodeRange(t).value.rest[1..] == t[5..];
      assert DecodeRange(s).value.rest[1..] == s[5..];
    }
  }

  /**
   * So a request whose byte count disagrees with its range is served: for
   * every valid range and every wrong byte count, only the older parser
   * refuses the request, and the server takes the payload's bits.
   */
  lemma WrongByteCountAccepted(range: AddressRange, byteCount: u8, payload: seq<u8>)
    requires range.IsValid() && byteCount as int != NumBytesForBits(range.count)
    requires |payload| == NumBytesForBits(range.count)
    ensures Service.ParseWriteMultipleCoils(EncodeRange(range) + [byteCount] + payload) ==
              Err(BadResponse(RequestByteCountMismatch(NumBytesForBits(range.count), byteCount)))
    ensures ParseRequest(FunctionCode.WriteMultipleCoils, EncodeRange(range) + [byteCount] + payload) ==
              Ok(Request.WriteMultipleCoils(Service.WriteCoils(range, BitValues(payload, range))))
  {
    var s := EncodeRange(range) + [byteCount] + payload;
    Service.ParseWriteMultipleCoilsErrors(range, byteCount, payload);
    assert s[..4] == EncodeRange(range) && s[5..] == payload;
    assert StartWord(s) == range.start && CountWord(s) == range.count by {
      assert BeBytes(StartWord(s)) == s[..2] == BeBytes(range.start);
      assert BeBytes(CountWord(s)) == s[2..4] == BeBytes(range.count);
    }
  }

  // ---------------------------------------------------------------------------
  // Authorization

  datatype Authorization = Allow | Deny

  /**
   * The user's authorization callbacks, one per request kind; each sees the
   * unit, the addresses the request touches and the client's role.
   */
  datatype AuthorizationHandler = AuthorizationHandler(
    readCoils: (UnitId, AddressRange, string) -> Authorization,
    readDiscreteInputs: (UnitId, AddressRange, string) -> Authorization,
    readHoldingRegisters: (UnitId, AddressRange, string) -> Authorization,
    readInputRegisters: (UnitId, AddressRange, string) -> Authorization,
    writeSingleCoil: (UnitId, u16, string) -> Authorization,
    writeSingleRegister: (UnitId, u16, string) -> Authorization,
    writeMultipleCoils: (UnitId, AddressRange, string) -> Authorization,
    writeMultipleRegisters: (UnitId, AddressRange, string) -> Authorization)

  /** No checks (TCP and RTU), or a handler and the role of the client (TLS). */
  datatype AuthorizationType = NoAuthorization | Handler(handler: AuthorizationHandler, role: string)

  /** `check_authorization`: the callback for the request's kind, given its addresses. */
  function CheckAuthorization(handler: AuthorizationHandler, unitId: UnitId, request: Request, role: string): (r: Authorization)
    ensures request.ReadCoils? ==> r == handler.readCoils(unitId, Target(request), role)
    ensures request.ReadDiscreteInputs? ==> r == handler.readDiscreteInputs(unitId, Target(request), role)
    ensures request.ReadHoldingRegisters? ==> r == handler.readHoldingRegisters(unitId, Target(request), role)
    ensures request.ReadInputRegisters? ==> r == handler.readInputRegisters(unitId, Target(request), role)
    ensures request.WriteSingleCoil? ==> r == handler.writeSingleCoil(unitId, Target(request).start, role)
    ensures request.WriteSingleRegister? ==> r == handler.writeSingleRegister(unitId, Target(request).start, role)
    ensures request.WriteMultipleCoils? ==> r == handler.writeMultipleCoils(unitId, Target(request), role)
    ensures request.WriteMultipleRegisters? ==> r == handler.writeMultipleRegisters(unitId, Target(request), role)
  {
    match request
    case ReadCoils(x) => handler.readCoils(unitId, x.inner, role)
    case ReadDiscreteInputs(x) => handler.readDiscreteInputs(unitId, x.inner, role)
    case ReadHoldingRegisters(x) => handler.readHoldingRegisters(unitId, x.inner, role)
    case ReadInputRegisters(x) => handler.readInputRegisters(unitId, x.inner, role)
    case WriteSingleCoil(x) => handler.writeSingleCoil(unitId, x.index, role)
    case WriteSingleRegister(x) => handler.writeSingleRegister(unitId, x.index, role)
    case WriteMultipleCoils(x) => handler.writeMultipleCoils(unitId, x.range, role)
    case WriteMultipleRegisters(x) => handler.writeMultipleRegisters(unitId, x.range, role)
  }

  /** `is_authorized` */
  function IsAuthorized(auth: AuthorizationType, unitId: UnitId, request: Request): (r: Authorization)
    ensures auth.NoAuthorization? ==> r == Allow
  {
    match auth
    case NoAuthorization => Allow
    case Handler(handler, role) => CheckAuthorization(handler, unitId, request, role)
  }

  /** The addresses a request touches; a single write touches one. */
  function Target(request: Request): AddressRange {
    match request
    case ReadCoils(x) => x.inner
    case ReadDiscreteInputs(x) => x.inner
    case ReadHoldingRegisters(x) => x.inner
    case ReadInputRegisters(x) => x.inner
    case WriteSingleCoil(x) => AddressRange(x.index, 1)
    case WriteSingleRegister(x) => AddressRange(x.index, 1)
    case WriteMultipleCoils(x) => x.range
    case WriteMultipleRegisters(x) => x.range
  }

  /**
   * The decision depends on the unit, the function, the addresses and the
   * role, never on the values a write carries.
   */
  lemma AuthorizationIgnoresValues(auth: AuthorizationType, unitId: UnitId, a: Request, b: Request)
    requires a.GetFunction() == b.GetFunction() && Target(a) == Target(b)
    ensures IsAuthorized(auth, unitId, a) == IsAuthorized(auth, unitId, b)
  {
    if auth.Handler? {
      ValueInjective(a.GetFunction(), b.GetFunction());
    }
  }

  // ---------------------------------------------------------------------------
  // Replies

  /**
   * The user's handler: what it answers for each address read and for each
   * write. Its effect on the user's data is not part of the model.
   */
  datatype RequestHandler = RequestHandler(
    readCoil: u16 -> Result<bool, ExceptionCode>,
    readDiscreteInput: u16 -> Result<bool, ExceptionCode>,
    readHoldingRegister: u16 -> Result<u16, ExceptionCode>,
    readInputRegister: u16 -> Result<u16, ExceptionCode>,
    writeSingleCoil: Indexed<bool> -> Result<(), ExceptionCode>,
    writeSingleRegister: Indexed<u16> -> Result<(), ExceptionCode>,
    writeMultipleCoils: Service.WriteCoils -> Result<(), ExceptionCode>,
    writeMultipleRegisters: Service.WriteRegisters -> Result<(), ExceptionCode>)

  /** The exception PDU for `fc`: its error function byte, then the code. */
  function ExceptionPdu(fc: FunctionCode, ex: ExceptionCode): (r: seq<u8>)
    ensures |r| == 2 && r[0] == fc.AsError() && r[1] == ToByte(ex) && Get(r[0]) == None
  {
    NewErrorResponse(fc, ex).Bytes()
  }

  /**
   * The PDU `format` writes for a body: the function code and the body, or,
   * when producing the body failed with an exception code, the exception PDU.
   */
  function FormatPdu(fc: FunctionCode, body: Result<seq<u8>, RequestError>): (r: Result<seq<u8>, RequestError>)
    ensures body.Ok? ==> r == PduBytes(fc, body)
    ensures body.Err? && body.error.Exception? ==> r == Ok(ExceptionPdu(fc, body.error.exception))
    ensures body.Err? && !body.error.Exception? ==> r == Err(body.error)
  {
    match body
    case Ok(_) => PduBytes(fc, body)
    case Err(e) => if e.Exception? then Ok(ExceptionPdu(fc, e.exception)) else Err(e)
  }

  /** A write's answer: its echo when the handler accepts it, its exception otherwise. */
  function WriteBody(outcome: Result<(), ExceptionCode>, echo: seq<u8>): Result<seq<u8>, RequestError> {
    match outcome
    case Ok(_) => Ok(echo)
    case Err(ex) => Err(Exception(ex))
  }

  /**
   * `get_reply`: a refused request is answered with IllegalFunction before
   * the handler is asked; otherwise reads answer the handler's values and
   * writes the echo of what was written. Every reply is a normal PDU for the
   * request's function or its two-byte exception PDU.
   */
  function GetReply(request: Request, handler: RequestHandler, auth: Authorization): (r: Result<seq<u8>, RequestError>)
    requires request.WellFormed()
    ensures r.Ok? && |r.value| >= 2
    ensures r.value[0] == request.GetFunction().Value() || (r.value[0] == request.GetFunction().AsError() && |r.value| == 2)
    ensures auth == Deny ==> r.value == ExceptionPdu(request.GetFunction(), IllegalFunction)
  {
    var fc := request.GetFunction();
    if auth == Deny then Ok(ExceptionPdu(fc, IllegalFunction))
    else
      match request
      case ReadCoils(range) =>
        EncodeBitWriterSpec(range.inner, handler.readCoil);
        FormatPdu(fc, EncodeBitWriter(range.inner, handler.readCoil))
      case ReadDiscreteInputs(range) =>
        EncodeBitWriterSpec(range.inner, handler.readDiscreteInput);
        FormatPdu(fc, EncodeBitWriter(range.inner, handler.readDiscreteInput))
      case ReadHoldingRegisters(range) =>
        EncodeRegisterWriterSpec(range.inner, handler.readHoldingRegister);
        FormatPdu(fc, EncodeRegisterWriter(range.inner, handler.readHoldingRegister))
      case ReadInputRegisters(range) =>
        EncodeRegisterWriterSpec(range.inner, handler.readInputRegister);
        FormatPdu(fc, EncodeRegisterWriter(range.inner, handler.readInputRegister))
      case WriteSingleCoil(x) =>
        FormatPdu(fc, WriteBody(handler.writeSingleCoil(x), EncodeIndexedCoil(x)))
      case WriteSingleRegister(x) =>
        FormatPdu(fc, WriteBody(handler.writeSingleRegister(x), EncodeIndexedRegister(x)))
      case WriteMultipleCoils(items) =>
        FormatPdu(fc, WriteBody(handler.writeMultipleCoils(items), EncodeRange(items.range)))
      case WriteMultipleRegisters(items) =>
        FormatPdu(fc, WriteBody(handler.writeMultipleRegisters(items), EncodeRange(items.range)))
  }

  // ---------------------------------------------------------------------------
  // What the client makes of the replies

  /**
   * A read of coils or discrete inputs: when the handler answers every
   * address, the reply carries the read function code and a body the client
   * decodes into exactly those values at those addresses; otherwise it is the
   * exception PDU of the first address that failed, which the client reports
   * as that exception.
   */
  lemma ReadBitsReply(request: Request, handler: RequestHandler)
    requires request.WellFormed() && (request.ReadCoils? || request.ReadDiscreteInputs?)
    ensures var range := request.bits.inner;
            var fc := request.GetFunction();
            var getter := if request.ReadCoils? then handler.readCoil else handler.readDiscreteInput;
            var all := ReadAll(getter, Addresses(range));
            var reply := GetReply(request, handler, Allow).value;
            (all.Ok? ==> |all.value| == range.count && ClientMessage.CheckFunction(fc, reply) == Ok(reply[1..])
                         && ClientRequests.DecodeBitsResponse(range, reply[1..]) == Ok(Enumerate(range.start, all.value)))
            && (all.Err? ==>
                  reply == ExceptionPdu(fc, all.error)
                  && ClientMessage.CheckFunction(fc, reply) == Err(Exception(FromByte(ToByte(all.error)))))
  {
    var range := request.bits.inner;
    var fc := request.GetFunction();
    var getter := if request.ReadCoils? then handler.readCoil else handler.readDiscreteInput;
    var all := ReadAll(getter, Addresses(range));
    var reply := GetReply(request, handler, Allow).value;
    EncodeBitWriterSpec(range, getter);
    if all.Ok? {
      var body := EncodeBitWriter(range, getter).value;
      assert reply == [fc.Value()] + body;
      assert reply[1..] == body;
      var decoded := ClientRequests.DecodeBitsResponse(range, body);
      assert |decoded.value| == |Enumerate(range.start, all.value)|;
      forall k | 0 <= k < |decoded.value|
        ensures decoded.value[k] == Enumerate(range.start, all.value)[k]
      {
        assert decoded.value[k] == BitAt(body[1..], range, k);
        assert BitValues(body[1..], range)[k] == BitAt(body[1..], range, k);
      }
    } else {
      ClientMessage.ExceptionReply(fc, ToByte(all.error));
    }
  }

  /** The same for holding and input registers. */
  lemma ReadRegistersReply(request: Request, handler: RequestHandler)
    requires request.WellFormed() && (request.ReadHoldingRegisters? || request.ReadInputRegisters?)
    ensures var range := request.registers.inner;
            var fc := request.GetFunction();
            var getter := if request.ReadHoldingRegisters? then handler.readHoldingRegister else handler.readInputRegister;
            var all := ReadAll(getter, Addresses(range));
            var reply := GetReply(request, handler, Allow).value;
            (all.Ok? ==> |all.value| == range.count && ClientMessage.CheckFunction(fc, reply) == Ok(reply[1..])
                         && ReadWriteMultiples.DecodeRegistersResponse(range, reply[1..]) == Ok(Enumerate(range.start, all.value)))
            && (all.Err? ==>
                  reply == ExceptionPdu(fc, all.error)
                  && ClientMessage.CheckFunction(fc, reply) == Err(Exception(FromByte(ToByte(all.error)))))
  {
    var range := request.registers.inner;
    var fc := request.GetFunction();
    var getter := if request.ReadHoldingRegisters? then handler.readHoldingRegister else handler.readInputRegister;
    var all := ReadAll(getter, Addresses(range));
    var reply := GetReply(request, handler, Allow).value;
    EncodeRegisterWriterSpec(range, getter);
    if all.Ok? {
      var body := EncodeRegisterWriter(range, getter).value;
      assert reply == [fc.Value()] + body;
      assert reply[1..] == body;
      assert body[1..] == BeWords(all.value);
      WordsOfBeWords(all.value);
    } else {
      ClientMessage.ExceptionReply(fc, ToByte(all.error));
    }
  }

  /**
   * A single write the handler accepts is answered with the echo of the
   * request, which the client accepts; a refused one with the handler's
   * exception.
   */
  lemma SingleWriteReply(request: Request, handler: RequestHandler)
    requires request.WriteSingleCoil? || request.WriteSingleRegister?
    ensures var op := if request.WriteSingleCoil? then ClientRequests.Coil(request.coil)
                      else ClientRequests.Register(request.register);
            var outcome := if request.WriteSingleCoil? then handler.writeSingleCoil(request.coil)
                           else handler.writeSingleRegister(request.register);
            var fc := request.GetFunction();
            var reply := GetReply(request, handler, Allow).value;
            (outcome.Ok? ==> ClientMessage.CheckFunction(fc, reply) == Ok(ClientRequests.EncodeSingleWrite(op))
                             && ClientRequests.SingleWriteReply(op, reply[1..]) == Ok(op))
            && (outcome.Err? ==> reply == ExceptionPdu(fc, outcome.error))
  {
    var op := if request.WriteSingleCoil? then ClientRequests.Coil(request.coil)
              else ClientRequests.Register(request.register);
    var reply := GetReply(request, handler, Allow).value;
    ClientRequests.SingleWriteReplyIsEcho(op, reply[1..]);
  }

  /** A multiple write the handler accepts is answered with its range, which the client accepts. */
  lemma MultipleWriteReply(request: Request, handler: RequestHandler)
    requires request.WellFormed() && (request.WriteMultipleCoils? || request.WriteMultipleRegisters?)
    ensures var range := if request.WriteMultipleCoils? then request.coils.range else request.writes.range;
            var outcome := if request.WriteMultipleCoils? then handler.writeMultipleCoils(request.coils)
                           else handler.writeMultipleRegisters(request.writes);
            var fc := request.GetFunction();
            var reply := GetReply(request, handler, Allow).value;
            (outcome.Ok? ==> ClientMessage.CheckFunction(fc, reply) == Ok(EncodeRange(range))
                             && ClientRequests.MultipleWriteReply(range, reply[1..]) == Ok(range))
            && (outcome.Err? ==> reply == ExceptionPdu(fc, outcome.error))
  {
    var range := if request.WriteMultipleCoils? then request.coils.range else request.writes.range;
    var reply := GetReply(request, handler, Allow).value;
    ClientRequests.MultipleWriteReplyIsEcho(range, reply[1..]);
  }

  // ---------------------------------------------------------------------------
  // The session: which frames are answered, and how

  /** `reply_with_error_generic`: the exception PDU, except that a broadcast is never answered. */
  function ReplyWithError(destination: FrameDestination, functionByte: u8, ex: ExceptionCode): (r: Option<seq<u8>>)
    ensures r.None? <==> destination.Broadcast?
    ensures r.Some? ==> r.value == [functionByte, ToByte(ex)]
  {
    if destination.Broadcast? then None else Some([functionByte, ToByte(ex)])
  }

  /**
   * `handle_frame` as a decision on the frame's PDU: empty frames are
   * dropped; a byte that is not a server function is answered with IllegalFunction under
   * that byte with its top bit set; a request that does not parse with
   * IllegalDataValue; a refused one with IllegalFunction; a request for a
   * unit without a handler, and every broadcast, get no answer; everything
   * else gets the handler's reply.
   */
  function Respond(payload: seq<u8>, destination: FrameDestination, handlers: map<UnitId, RequestHandler>,
                   auth: AuthorizationType): (r: Option<seq<u8>>)
    ensures destination.Broadcast? ==> r.None?
    ensures payload == [] ==> r.None?
    ensures r.Some? ==> |payload| >= 1 && |r.value| >= 2
                        && (r.value[0] == payload[0] || (r.value[0] == SetHighBit(payload[0]) && |r.value| == 2))
  {
    if |payload| == 0 then None
    else
      var value := payload[0];
      match ServerFunction(value)
      case None => ReplyWithError(destination, SetHighBit(value), IllegalFunction)
      case Some(fc) =>
        match ParseRequest(fc, payload[1..])
        case Err(_) => ReplyWithError(destination, fc.AsError(), IllegalDataValue)
        case Ok(request) =>
          if IsAuthorized(auth, destination.IntoUnitId(), request) == Deny then
            ReplyWithError(destination, request.GetFunction().AsError(), IllegalFunction)
          else
            match destination
            case UnitIdDestination(unitId) =>
              if unitId in handlers then Some(GetReply(request, handlers[unitId], Allow).value) else None
            case Broadcast => None
  }

  /** The outcome of each link of the chain, for a frame addressed to one unit. */
  lemma RespondChain(payload: seq<u8>, unitId: UnitId, handlers: map<UnitId, RequestHandler>, auth: AuthorizationType)
    requires |payload| >= 1
    ensures var d := UnitIdDestination(unitId);
            var r := Respond(payload, d, handlers, auth);
            var fc := ServerFunction(payload[0]);
            (fc.None? ==> r == Some([SetHighBit(payload[0]), 0x01]))
            && (fc.Some? && ParseRequest(fc.value, payload[1..]).Err? ==>
                  r == Some(ExceptionPdu(fc.value, IllegalDataValue)))
            && (fc.Some? && ParseRequest(fc.value, payload[1..]).Ok? ==>
                  var request := ParseRequest(fc.value, payload[1..]).value;
                  (IsAuthorized(auth, unitId, request) == Deny ==> r == Some(ExceptionPdu(request.GetFunction(), IllegalFunction)))
                  && (IsAuthorized(auth, unitId, request) == Allow && unitId !in handlers ==> r.None?)
                  && (IsAuthorized(auth, unitId, request) == Allow && unitId in handlers ==>
                        r == Some(GetReply(request, handlers[unitId], Allow).value)))
  {
    assert UnitIdDestination(unitId).IntoUnitId() == unitId;
    assert ToByte(IllegalFunction) == 0x01;
  }

  /** A frame with a user-defined function code is answered with IllegalFunction under that code's exception byte. */
  lemma RespondCustomCode(code: CustomCode, body: seq<u8>, unitId: UnitId, handlers: map<UnitId, RequestHandler>,
                          auth: AuthorizationType)
    ensures Respond([code] + body, UnitIdDestination(unitId), handlers, auth) == Some([SetHighBit(code), 0x01])
  {
    RespondChain([code] + body, unitId, handlers, auth);
  }

  /**
   * End to end: a read-coils request as the client encodes it, sent to a
   * unit whose handler answers every address, comes back as a reply the
   * client decodes into the handler's values.
   */
  lemma ReadCoilsEndToEnd(range: AddressRange, unitId: UnitId, handlers: map<UnitId, RequestHandler>, auth: AuthorizationType)
    requires range.IsValid() && range.count <= 2000 && unitId in handlers
    requires IsAuthorized(auth, unitId, Request.ReadCoils(ReadBitsRange(range))) == Allow
    requires ReadAll(handlers[unitId].readCoil, Addresses(range)).Ok?
    ensures var reply := Respond([READ_COILS] + EncodeRange(range), UnitIdDestination(unitId), handlers, auth);
            reply.Some? && ClientMessage.CheckFunction(FunctionCode.ReadCoils, reply.value).Ok?
            && |ReadAll(handlers[unitId].readCoil, Addresses(range)).value| == range.count
            && ClientRequests.DecodeBitsResponse(range, reply.value[1..]) ==
                 Ok(Enumerate(range.start, ReadAll(handlers[unitId].readCoil, Addresses(range)).value))
  {
    var payload := [READ_COILS] + EncodeRange(range);
    assert payload[0] == READ_COILS && payload[1..] == EncodeRange(range);
    ParseEncodedReadBits(range);
    RespondChain(payload, unitId, handlers, auth);
    ReadBitsReply(Request.ReadCoils(ReadBitsRange(range)), handlers[unitId]);
  }

  /** A setting pushed to a running session. */
  datatype ServerSetting = ChangeDecoding(level: DecodeLevel)

  /** The per-connection state of a server session. */
  class SessionTask {
    var handlers: map<UnitId, RequestHandler>
    var auth: AuthorizationType
    var decode: DecodeLevel

    constructor (handlers: map<UnitId, RequestHandler>, auth: AuthorizationType, decode: DecodeLevel)
      ensures this.handlers == handlers && this.auth == auth && this.decode == decode
    {
      this.handlers := handlers;
      this.auth := auth;
      this.decode := decode;
    }

    /** `apply_setting`: only the decode level changes. */
    method ApplySetting(setting: ServerSetting)
      modifies this
      ensures decode == setting.level && handlers == old(handlers) && auth == old(auth)
    {
      match setting
      case ChangeDecoding(level) =>
        decode := level;
    }

    /**
     * `handle_frame`: the function byte is read from a cursor over the
     * payload, the rest is parsed, and the reply to write, if any, is
     * returned. The session's own state is left as it was.
     */
    method HandleFrame(frame: FrameValue) returns (reply: Option<seq<u8>>)
      ensures reply == Respond(frame.payload, frame.header.destination, handlers, auth)
    {
      var cursor := new ReadCursor(frame.payload);
      var first := cursor.ReadU8();
      if first.Err? {
        return None;
      }
      var value := first.value;
      var code := ServerFunction(value);
      if code.None? {
        return ReplyWithError(frame.header.destination, SetHighBit(value), IllegalFunction);
      }
      var fc := code.value;
      var request := ParseRequest(fc, cursor.Rest());
      if request.Err? {
        return ReplyWithError(frame.header.destination, fc.AsError(), IllegalDataValue);
      }
      var r := request.value;
      if IsAuthorized(auth, frame.header.destination.IntoUnitId(), r) == Deny {
        return ReplyWithError(frame.header.destination, r.GetFunction().AsError(), IllegalFunction);
      }
      match frame.header.destination {
        case UnitIdDestination(unitId) =>
          if unitId !in handlers {
            return None;
          }
          var pdu := GetReply(r, handlers[unitId], Allow);
          return Some(pdu.value);
        case Broadcast =>
          return None;
      }
    }
  }
}
