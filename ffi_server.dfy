/**
 * The server side of the C binding: each unit's handler serves reads from
 * its sparse database and passes writes to the foreign program's
 * callbacks; the device map collects the handlers before the server starts;
 * address filters are built from text.
 *
 * A foreign callback is modelled as a function of what it is given: its
 * answer, and the edits it makes to the database through the add and update
 * functions while it runs.
 */
module FfiServer {
  import opened Num
  import opened Wrappers
  import opened Exception
  import opened Types
  import FfiExt
  import opened FfiDatabase
  import Service
  import ServerHandlers
  import Tasks = Server
  import AddressFilters

  /** The result of a foreign call: its answer, if it gave one, and its edits. */
  type Answer = (Option<FfiExt.WriteResult>, seq<Edit>)

  /** `ffi::WriteHandler`: one callback per write. Multiple writes get the start address and the values. */
  datatype WriteHandler = WriteHandler(
    writeSingleCoil: (u16, bool, Tables) -> Answer,
    writeSingleRegister: (u16, u16, Tables) -> Answer,
    writeMultipleCoils: (u16, seq<Indexed<bool>>, Tables) -> Answer,
    writeMultipleRegisters: (u16, seq<Indexed<u16>>, Tables) -> Answer)

  /** The error codes the binding's constructors and setters report. */
  datatype ParamError = NullParameter | InvalidUnitId | InvalidIpAddress | ServerBindError

  /** A read of the sparse database: the stored value, or IllegalDataAddress for an address never added. */
  function Lookup<T>(m: map<u16, T>, address: u16): (r: Result<T, ExceptionCode>)
    ensures r.Ok? <==> address in m
    ensures r.Ok? ==> r.value == m[address]
    ensures r.Err? ==> r.error == IllegalDataAddress
  {
    if address in m then Ok(m[address]) else Err(IllegalDataAddress)
  }

  /** How `write_single_coil` reads the answer: a failure is always IllegalDataAddress, whatever exception it names. */
  function SingleCoilOutcome(answer: Option<FfiExt.WriteResult>): (r: Result<(), ExceptionCode>)
    ensures answer.None? ==> r == Err(IllegalFunction)
    ensures answer.Some? ==> (r.Ok? <==> answer.value.success)
    ensures answer.Some? && !answer.value.success ==> r == Err(IllegalDataAddress)
  {
    match answer
    case None => Err(IllegalFunction)
    case Some(x) => if x.success then Ok(()) else Err(IllegalDataAddress)
  }

  /** How the other three writes read the answer: no answer is IllegalFunction, otherwise `convert_to_result`. */
  function WriteOutcome(answer: Option<FfiExt.WriteResult>): (r: Result<(), ExceptionCode>)
    ensures answer.None? ==> r == Err(IllegalFunction)
    ensures answer.Some? ==> r == FfiExt.ConvertToResult(answer.value)
  {
    match answer
    case None => Err(IllegalFunction)
    case Some(x) => FfiExt.ConvertToResult(x)
  }

  /**
   * The two readings agree on success and on a missing answer, and differ
   * only in the exception a failure is reported with.
   */
  lemma OutcomesAgreeExceptOnException(answer: Option<FfiExt.WriteResult>)
    ensures SingleCoilOutcome(answer).Ok? <==> WriteOutcome(answer).Ok?
    ensures answer.None? ==> SingleCoilOutcome(answer) == WriteOutcome(answer)
    ensures answer.Some? && !answer.value.success && answer.value.exception == FfiExt.ModbusException.IllegalDataAddress
            ==> SingleCoilOutcome(answer) == WriteOutcome(answer)
  {
  }

  /** `RequestHandlerWrapper`: a unit's database and the foreign write callbacks. */
  class RequestHandlerWrapper {
    const database: Database
    const writeHandler: WriteHandler

    /** `new`: an empty database. */
    constructor (handler: WriteHandler)
      ensures fresh(database) && database.Contents() == Empty() && writeHandler == handler
    {
      database := new Database();
      writeHandler := handler;
    }

    function ReadCoil(address: u16): (r: Result<bool, ExceptionCode>)
      reads database
      ensures r.Ok? <==> address in database.coils
      ensures r.Ok? ==> r.value == database.coils[address]
      ensures r.Err? ==> r.error == IllegalDataAddress
    {
      Lookup(database.coils, address)
    }

    function ReadDiscreteInput(address: u16): (r: Result<bool, ExceptionCode>)
      reads database
      ensures r.Ok? <==> address in database.discreteInputs
      ensures r.Ok? ==> r.value == database.discreteInputs[address]
      ensures r.Err? ==> r.error == IllegalDataAddress
    {
      Lookup(database.discreteInputs, address)
    }

    function ReadHoldingRegister(address: u16): (r: Result<u16, ExceptionCode>)
      reads database
      ensures r.Ok? <==> address in database.holdingRegisters
      ensures r.Ok? ==> r.value == database.holdingRegisters[address]
      ensures r.Err? ==> r.error == IllegalDataAddress
    {
      Lookup(database.holdingRegisters, address)
    }

    function ReadInputRegister(address: u16): (r: Result<u16, ExceptionCode>)
      reads database
      ensures r.Ok? <==> address in database.inputRegisters
      ensures r.Ok? ==> r.value == database.inputRegisters[address]
      ensures r.Err? ==> r.error == IllegalDataAddress
    {
      Lookup(database.inputRegisters, address)
    }

    /** `write_single_coil`: the callback's edits are kept, and its answer read by SingleCoilOutcome. */
    method WriteSingleCoil(value: Indexed<bool>) returns (r: Result<(), ExceptionCode>)
      modifies database
      ensures var (answer, edits) := writeHandler.writeSingleCoil(value.index, value.value, old(database.Contents()));
              r == SingleCoilOutcome(answer) && database.Contents() == ApplyAll(old(database.Contents()), edits)
    {
      var (answer, edits) := writeHandler.writeSingleCoil(value.index, value.value, database.Contents());
      database.PerformAll(edits);
      r := SingleCoilOutcome(answer);
    }

    /** `write_single_register` */
    method WriteSingleRegister(value: Indexed<u16>) returns (r: Result<(), ExceptionCode>)
      modifies database
      ensures var (answer, edits) := writeHandler.writeSingleRegister(value.index, value.value, old(database.Contents()));
              r == WriteOutcome(answer) && database.Contents() == ApplyAll(old(database.Contents()), edits)
    {
      var (answer, edits) := writeHandler.writeSingleRegister(value.index, value.value, database.Contents());
      database.PerformAll(edits);
      r := WriteOutcome(answer);
    }

    /** `write_multiple_coils`: the callback sees the start of the range and the values. */
    method WriteMultipleCoils(values: Service.WriteCoils) returns (r: Result<(), ExceptionCode>)
      modifies database
      ensures var (answer, edits) := writeHandler.writeMultipleCoils(values.range.start, values.values, old(database.Contents()));
              r == WriteOutcome(answer) && database.Contents() == ApplyAll(old(database.Contents()), edits)
    {
      var (answer, edits) := writeHandler.writeMultipleCoils(values.range.start, values.values, database.Contents());
      database.PerformAll(edits);
      r := WriteOutcome(answer);
    }

    /** `write_multiple_registers` */
    method WriteMultipleRegisters(values: Service.WriteRegisters) returns (r: Result<(), ExceptionCode>)
      modifies database
      ensures var (answer, edits) := writeHandler.writeMultipleRegisters(values.range.start, values.values, old(database.Contents()));
              r == WriteOutcome(answer) && database.Contents() == ApplyAll(old(database.Contents()), edits)
    {
      var (answer, edits) := writeHandler.writeMultipleRegisters(values.range.start, values.values, database.Contents());
      database.PerformAll(edits);
      r := WriteOutcome(answer);
    }
  }

  /**
   * A write never makes a readable point unreadable: whatever the callback
   * does, every address the handler could read before it still reads.
   */
  method WriteKeepsPointsReadable(handler: RequestHandlerWrapper, value: Indexed<u16>, address: u16)
      returns (before: Result<u16, ExceptionCode>, after: Result<u16, ExceptionCode>)
    modifies handler.database
    ensures before.Ok? ==> after.Ok?
  {
    before := handler.ReadHoldingRegister(address);
    ghost var t := handler.database.Contents();
    var _ := handler.WriteSingleRegister(value);
    ApplyAllKeepsPoints(t, handler.writeHandler.writeSingleRegister(value.index, value.value, t).1);
    after := handler.ReadHoldingRegister(address);
  }

  /** `DeviceMap`: the handlers collected for a server that is not started yet, by unit id. */
  class DeviceMap {
    var inner: map<u8, RequestHandlerWrapper>

    /** `device_map_create` */
    constructor ()
      ensures inner == map[]
    {
      inner := map[];
    }

    /**
     * `drain_and_convert`: every handler moves to a server handler map under
     * its unit id, and the device map is left empty.
     */
    method DrainAndConvert() returns (handlers: ServerHandlers.ServerHandlerMap<RequestHandlerWrapper>)
      modifies this
      ensures fresh(handlers) && inner == map[]
      ensures forall id: UnitId :: id in handlers.handlers <==> id.value in old(inner)
      ensures forall id: UnitId :: id in handlers.handlers ==> handlers.handlers[id] == old(inner)[id.value]
    {
      handlers := new ServerHandlers.ServerHandlerMap();
      var remaining := inner.Keys;
      while remaining != {}
        invariant inner == old(inner) && remaining <= inner.Keys
        invariant forall id: UnitId :: id in handlers.handlers <==> id.value in inner && id.value !in remaining
        invariant forall id: UnitId :: id in handlers.handlers ==> handlers.handlers[id] == inner[id.value]
        decreases remaining
      {
        var k :| k in remaining;
        handlers.Add(UnitId(k), inner[k]);
        remaining := remaining - {k};
      }
      inner := map[];
    }
  }

  /**
   * `device_map_add_endpoint`: a null map or a unit id already present is
   * refused and nothing changes; otherwise a handler with a fresh database is
   * configured by the foreign callback and stored.
   */
  method DeviceMapAddEndpoint(deviceMap: DeviceMap?, unitId: u8, handler: WriteHandler, configure: Tables -> seq<Edit>)
      returns (ok: bool)
    modifies deviceMap
    ensures deviceMap == null ==> !ok
    ensures deviceMap != null ==> (ok <==> unitId !in old(deviceMap.inner))
    ensures deviceMap != null && !ok ==> deviceMap.inner == old(deviceMap.inner)
    ensures deviceMap != null && ok ==> unitId in deviceMap.inner
    ensures deviceMap != null && ok && unitId in deviceMap.inner ==>
              var w := deviceMap.inner[unitId];
              deviceMap.inner == old(deviceMap.inner)[unitId := w] && fresh(w) && fresh(w.database)
              && w.writeHandler == handler && w.database.Contents() == ApplyAll(Empty(), configure(Empty()))
  {
    if deviceMap == null {
      return false;
    }
    if unitId in deviceMap.inner {
      return false;
    }
    var wrapper := new RequestHandlerWrapper(handler);
    wrapper.database.PerformAll(configure(wrapper.database.Contents()));
    deviceMap.inner := deviceMap.inner[unitId := wrapper];
    ok := true;
  }

  /** A running server as the binding keeps it: its handlers, for `server_update_database`. */
  class Server {
    const handlers: ServerHandlers.ServerHandlerMap<RequestHandlerWrapper>

    constructor (handlers: ServerHandlers.ServerHandlerMap<RequestHandlerWrapper>)
      ensures this.handlers == handlers
    {
      this.handlers := handlers;
    }
  }

  /**
   * `server_update_database`: runs the foreign transaction on one unit's
   * database; a null server and a unit id without a handler are errors.
   */
  method ServerUpdateDatabase(server: Server?, unitId: u8, transaction: Tables -> seq<Edit>) returns (r: Result<(), ParamError>)
    modifies if server != null && UnitId(unitId) in server.handlers.handlers
             then {server.handlers.handlers[UnitId(unitId)].database} else {}
    ensures server == null ==> r == Err(NullParameter)
    ensures server != null && UnitId(unitId) !in server.handlers.handlers ==> r == Err(InvalidUnitId)
    ensures server != null && UnitId(unitId) in server.handlers.handlers ==>
              var db := server.handlers.handlers[UnitId(unitId)].database;
              r == Ok(()) && db.Contents() == ApplyAll(old(db.Contents()), transaction(old(db.Contents())))
  {
    if server == null {
      return Err(NullParameter);
    }
    var handler := server.handlers.Get(UnitId(unitId));
    if handler.None? {
      return Err(InvalidUnitId);
    }
    var db := handler.value.database;
    db.PerformAll(transaction(db.Contents()));
    r := Ok(());
  }

  // ---------------------------------------------------------------------------
  // Authorization

  /** `ffi::AuthorizationHandler`: each callback may decide, or give no result. */
  datatype FfiAuthorizationHandler = FfiAuthorizationHandler(
    readCoils: (u8, AddressRange, string) -> Option<Tasks.Authorization>,
    readDiscreteInputs: (u8, AddressRange, string) -> Option<Tasks.Authorization>,
    readHoldingRegisters: (u8, AddressRange, string) -> Option<Tasks.Authorization>,
    readInputRegisters: (u8, AddressRange, string) -> Option<Tasks.Authorization>,
    writeSingleCoil: (u8, u16, string) -> Option<Tasks.Authorization>,
    writeSingleRegister: (u8, u16, string) -> Option<Tasks.Authorization>,
    writeMultipleCoils: (u8, AddressRange, string) -> Option<Tasks.Authorization>,
    writeMultipleRegisters: (u8, AddressRange, string) -> Option<Tasks.Authorization>)

  function OrDeny(decision: Option<Tasks.Authorization>): (r: Tasks.Authorization)
    ensures r == Tasks.Allow <==> decision == Some(Tasks.Allow)
  {
    match decision
    case Some(a) => a
    case None => Tasks.Deny
  }

  /**
   * `AuthorizationHandlerWrapper`: a request is allowed only when the
   * foreign callback explicitly allows it; no result denies.
   */
  function WrapAuthorization(inner: FfiAuthorizationHandler): (h: Tasks.AuthorizationHandler)
    ensures forall u: UnitId, range: AddressRange, role: string ::
              h.readCoils(u, range, role) == Tasks.Allow <==> inner.readCoils(u.value, range, role) == Some(Tasks.Allow)
    ensures forall u: UnitId, range: AddressRange, role: string ::
              h.readDiscreteInputs(u, range, role) == Tasks.Allow <==> inner.readDiscreteInputs(u.value, range, role) == Some(Tasks.Allow)
    ensures forall u: UnitId, range: AddressRange, role: string ::
              h.readHoldingRegisters(u, range, role) == Tasks.Allow <==> inner.readHoldingRegisters(u.value, range, role) == Some(Tasks.Allow)
    ensures forall u: UnitId, range: AddressRange, role: string ::
              h.readInputRegisters(u, range, role) == Tasks.Allow <==> inner.readInputRegisters(u.value, range, role) == Some(Tasks.Allow)
    ensures forall u: UnitId, index: u16, role: string ::
              h.writeSingleCoil(u, index, role) == Tasks.Allow <==> inner.writeSingleCoil(u.value, index, role) == Some(Tasks.Allow)
    ensures forall u: UnitId, index: u16, role: string ::
              h.writeSingleRegister(u, index, role) == Tasks.Allow <==> inner.writeSingleRegister(u.value, index, role) == Some(Tasks.Allow)
    ensures forall u: UnitId, range: AddressRange, role: string ::
              h.writeMultipleCoils(u, range, role) == Tasks.Allow <==> inner.writeMultipleCoils(u.value, range, role) == Some(Tasks.Allow)
    ensures forall u: UnitId, range: AddressRange, role: string ::
              h.writeMultipleRegisters(u, range, role) == Tasks.Allow <==> inner.writeMultipleRegisters(u.value, range, role) == Some(Tasks.Allow)
  {
    Tasks.AuthorizationHandler(
      (u: UnitId, range: AddressRange, role: string) => OrDeny(inner.readCoils(u.value, range, role)),
      (u: UnitId, range: AddressRange, role: string) => OrDeny(inner.readDiscreteInputs(u.value, range, role)),
      (u: UnitId, range: AddressRange, role: string) => OrDeny(inner.readHoldingRegisters(u.value, range, role)),
      (u: UnitId, range: AddressRange, role: string) => OrDeny(inner.readInputRegisters(u.value, range, role)),
      (u: UnitId, index: u16, role: string) => OrDeny(inner.writeSingleCoil(u.value, index, role)),
      (u: UnitId, index: u16, role: string) => OrDeny(inner.writeSingleRegister(u.value, index, role)),
      (u: UnitId, range: AddressRange, role: string) => OrDeny(inner.writeMultipleCoils(u.value, range, role)),
      (u: UnitId, range: AddressRange, role: string) => OrDeny(inner.writeMultipleRegisters(u.value, range, role)))
  }

  /** A foreign handler whose callbacks never give a result. */
  function Silent(): FfiAuthorizationHandler {
    FfiAuthorizationHandler(
      (u: u8, range: AddressRange, role: string) => None,
      (u: u8, range: AddressRange, role: string) => None,
      (u: u8, range: AddressRange, role: string) => None,
      (u: u8, range: AddressRange, role: string) => None,
      (u: u8, index: u16, role: string) => None,
      (u: u8, index: u16, role: string) => None,
      (u: u8, range: AddressRange, role: string) => None,
      (u: u8, range: AddressRange, role: string) => None)
  }

  /** Behind a foreign handler that never answers, the server denies every request. */
  lemma SilentHandlerDeniesAll(unitId: UnitId, request: Tasks.Request, role: string)
    ensures Tasks.IsAuthorized(Tasks.Handler(WrapAuthorization(Silent()), role), unitId, request) == Tasks.Deny
  {
    var h := WrapAuthorization(Silent());
    match request
    case ReadCoils(x) => assert h.readCoils(unitId, x.inner, role) != Tasks.Allow;
    case ReadDiscreteInputs(x) => assert h.readDiscreteInputs(unitId, x.inner, role) != Tasks.Allow;
    case ReadHoldingRegisters(x) => assert h.readHoldingRegisters(unitId, x.inner, role) != Tasks.Allow;
    case ReadInputRegisters(x) => assert h.readInputRegisters(unitId, x.inner, role) != Tasks.Allow;
    case WriteSingleCoil(x) => assert h.writeSingleCoil(unitId, x.index, role) != Tasks.Allow;
    case WriteSingleRegister(x) => assert h.writeSingleRegister(unitId, x.index, role) != Tasks.Allow;
    case WriteMultipleCoils(x) => assert h.writeMultipleCoils(unitId, x.range, role) != Tasks.Allow;
    case WriteMultipleRegisters(x) => assert h.writeMultipleRegisters(unitId, x.range, role) != Tasks.Allow;
  }

  // ---------------------------------------------------------------------------
  // Address filters

  /** The binding's address filter: any address, an IPv4 wildcard, or a set of addresses that can grow. */
  datatype FfiAddressFilter = Any | WildcardIpv4(wc: AddressFilters.WildcardIPv4) | AnyOf(addrs: set<AddressFilters.IpAddr>)

  /**
   * `parse_address_filter`: text that parses as an address is the set of
   * that one address; otherwise it must be an IPv4 wildcard. The address
   * parser of the standard library is the parameter `parseIp`.
   */
  function ParseAddressFilter(s: string, parseIp: string -> Option<AddressFilters.IpAddr>): (r: Result<FfiAddressFilter, ParamError>)
    ensures parseIp(s).Some? ==> r == Ok(AnyOf({parseIp(s).value}))
    ensures parseIp(s).None? ==> (r.Ok? <==> AddressFilters.WildcardFromStr(s).Ok?)
    ensures parseIp(s).None? && r.Ok? ==> r.value == WildcardIpv4(AddressFilters.WildcardFromStr(s).value)
    ensures r.Err? ==> r.error == InvalidIpAddress
  {
    match parseIp(s)
    case Some(ip) => Ok(AnyOf({ip}))
    case None =>
      match AddressFilters.WildcardFromStr(s)
      case Ok(wc) => Ok(WildcardIpv4(wc))
      case Err(_) => Err(InvalidIpAddress)
  }

  /** `From<&AddressFilter>`: the filter the server applies to connecting clients. */
  function ToServerFilter(f: FfiAddressFilter): (r: AddressFilters.AddressFilter)
    ensures forall a :: AddressFilters.Matches(r, a) <==>
                          (f.Any? || (f.AnyOf? && a in f.addrs) || (f.WildcardIpv4? && AddressFilters.WildcardMatches(f.wc, a)))
  {
    match f
    case Any => AddressFilters.Any
    case AnyOf(s) => AddressFilters.AnyOf(s)
    case WildcardIpv4(wc) => AddressFilters.WildcardIpv4(wc)
  }

  /** A filter made from a single address admits that address and no other. */
  lemma SingleAddressFilter(s: string, parseIp: string -> Option<AddressFilters.IpAddr>, a: AddressFilters.IpAddr)
    requires parseIp(s).Some?
    ensures ParseAddressFilter(s, parseIp).Ok?
    ensures AddressFilters.Matches(ToServerFilter(ParseAddressFilter(s, parseIp).value), a) <==> a == parseIp(s).value
  {
  }

  /** An address filter as the foreign program holds it. */
  class AddressFilterHandle {
    var filter: FfiAddressFilter

    constructor (filter: FfiAddressFilter)
      ensures this.filter == filter
    {
      this.filter := filter;
    }
  }

  /** `address_filter_create` */
  method AddressFilterCreate(address: string, parseIp: string -> Option<AddressFilters.IpAddr>)
      returns (r: Result<AddressFilterHandle, ParamError>)
    ensures ParseAddressFilter(address, parseIp).Err? ==> r == Err(ParseAddressFilter(address, parseIp).error)
    ensures ParseAddressFilter(address, parseIp).Ok? ==>
              r.Ok? && fresh(r.value) && r.value.filter == ParseAddressFilter(address, parseIp).value
  {
    var f := ParseAddressFilter(address, parseIp);
    if f.Err? {
      return Err(f.error);
    }
    var handle := new AddressFilterHandle(f.value);
    r := Ok(handle);
  }

  /**
   * `address_filter_add`: only a set of addresses grows; adding to the
   * filter of any address or to a wildcard is an error, as is text that is
   * not an address, and the filter is then unchanged.
   */
  method AddressFilterAdd(handle: AddressFilterHandle?, address: string, parseIp: string -> Option<AddressFilters.IpAddr>)
      returns (r: Result<(), ParamError>)
    modifies handle
    ensures handle == null ==> r == Err(NullParameter)
    ensures handle != null && r.Err? ==> handle.filter == old(handle.filter)
    ensures handle != null && parseIp(address).None? ==> r == Err(InvalidIpAddress)
    ensures handle != null && parseIp(address).Some? && !old(handle.filter).AnyOf? ==> r == Err(InvalidIpAddress)
    ensures handle != null && parseIp(address).Some? && old(handle.filter).AnyOf? ==>
              r == Ok(()) && handle.filter == AnyOf(old(handle.filter).addrs + {parseIp(address).value})
  {
    if handle == null {
      return Err(NullParameter);
    }
    var ip := parseIp(address);
    if ip.None? {
      return Err(InvalidIpAddress);
    }
    match handle.filter {
      case Any =>
        return Err(InvalidIpAddress);
      case AnyOf(set_) =>
        handle.filter := AnyOf(set_ + {ip.value});
      case WildcardIpv4(_) =>
        return Err(InvalidIpAddress);
    }
    r := Ok(());
  }

  /** An added address is admitted afterwards, and every address admitted before still is. */
  lemma AddedAddressAdmitted(addrs: set<AddressFilters.IpAddr>, added: AddressFilters.IpAddr, a: AddressFilters.IpAddr)
    ensures AddressFilters.Matches(ToServerFilter(AnyOf(addrs + {added})), added)
    ensures AddressFilters.Matches(ToServerFilter(AnyOf(addrs)), a) ==> AddressFilters.Matches(ToServerFilter(AnyOf(addrs + {added})), a)
  {
  }
}
