/**
 * The value types of the protocol: unit ids, address ranges, indexed values,
 * coil encodings, the read-device-identification codes, and the zero-copy
 * iterators that decode packed bits and big-endian registers.
 */
module Types {
  import opened Num
  import opened Wrappers
  import opened Errors
  import opened Constants
  import opened Bits
  import opened ReadCursors

  /** Modbus unit identifier. */
  datatype UnitId = UnitId(value: u8) {
    /** Addresses 248-255 are reserved in RTU mode. */
    predicate IsRtuReserved() { value >= 248 }
  }

  const BROADCAST: UnitId := UnitId(0x00)
  const DEFAULT_UNIT_ID: UnitId := UnitId(0xFF)

  /** Start and count of a block of consecutive addresses. */
  datatype AddressRange = AddressRange(start: u16, count: u16) {
    /** A non-empty range whose last address is representable in a `u16`. */
    predicate IsValid() { count >= 1 && start + count <= 0x1_0000 }

    /** `to_std_range`: the half-open range `start .. start + count` over `usize`. */
    function End(): nat { start + count }
  }

  /** `AddressRange::try_from`: zero counts and ranges that pass 0xFFFF are refused. */
  function TryFrom(start: u16, count: u16): (r: Result<AddressRange, InvalidRange>)
    ensures r.Ok? <==> AddressRange(start, count).IsValid()
    ensures r.Ok? ==> r.value == AddressRange(start, count)
    ensures r.Err? && count == 0 ==> r.error == CountOfZero
    ensures r.Err? && count != 0 ==> r.error == AddressOverflow(start, count)
  {
    if count == 0 then Err(CountOfZero)
    else
      var maxStart := U16_MAX - (count - 1);
      if start > maxStart then Err(AddressOverflow(start, count))
      else Ok(AddressRange(start, count))
  }

  lemma TryFromExamples()
    ensures TryFrom(0xFFFF, 1) == Ok(AddressRange(0xFFFF, 1))
    ensures TryFrom(0, 0xFFFF) == Ok(AddressRange(0, 0xFFFF))
    ensures TryFrom(0, 0) == Err(CountOfZero)
    ensures TryFrom(0xFFFF, 2) == Err(AddressOverflow(0xFFFF, 2))
  {
  }

  /** A range only valid for reading coils or discrete inputs. */
  datatype ReadBitsRange = ReadBitsRange(inner: AddressRange)
  /** A range only valid for reading holding or input registers. */
  datatype ReadRegistersRange = ReadRegistersRange(inner: AddressRange)

  /** `limited_count`: the range unchanged, unless its count exceeds `limit`. */
  function LimitedCount(range: AddressRange, limit: u16): (r: Result<AddressRange, InvalidRange>)
    ensures r.Ok? <==> range.count <= limit
    ensures r.Ok? ==> r.value == range
    ensures r.Err? ==> r.error == CountTooLargeForType(range.count, limit)
  {
    if range.count > limit then Err(CountTooLargeForType(range.count, limit)) else Ok(range)
  }

  function OfReadBits(range: AddressRange): (r: Result<ReadBitsRange, InvalidRange>)
    ensures r.Ok? <==> range.count <= 2000
    ensures r.Ok? ==> r.value.inner == range
    ensures r.Err? ==> r.error == CountTooLargeForType(range.count, 2000)
  {
    var inner :- LimitedCount(range, MAX_READ_COILS_COUNT);
    Ok(ReadBitsRange(inner))
  }

  function OfReadRegisters(range: AddressRange): (r: Result<ReadRegistersRange, InvalidRange>)
    ensures r.Ok? <==> range.count <= 125
    ensures r.Ok? ==> r.value.inner == range
    ensures r.Err? ==> r.error == CountTooLargeForType(range.count, 125)
  {
    var inner :- LimitedCount(range, MAX_READ_REGISTERS_COUNT);
    Ok(ReadRegistersRange(inner))
  }

  /** A value and its address. */
  datatype Indexed<T> = Indexed(index: u16, value: T)

  /** `values` paired with consecutive addresses from `start`. */
  function Enumerate<T>(start: u16, values: seq<T>): (r: seq<Indexed<T>>)
    requires start + |values| <= 0x1_0000
    ensures |r| == |values| && forall k :: 0 <= k < |r| ==> r[k] == Indexed(start + k, values[k])
  {
    seq(|values|, k requires 0 <= k < |values| => Indexed((start + k) as u16, values[k]))
  }

  /** `coil_to_u16`: ON is 0xFF00 and OFF is 0x0000. */
  function CoilToU16(value: bool): (r: u16)
    ensures r == 0xFF00 || r == 0x0000
    ensures value <==> r == 0xFF00
  {
    if value then COIL_ON else COIL_OFF
  }

  /** `coil_from_u16`: only the two coil encodings are accepted. */
  function CoilFromU16(value: u16): (r: Result<bool, AduParseError>)
    ensures r.Ok? <==> value == 0xFF00 || value == 0x0000
    ensures r.Ok? ==> CoilToU16(r.value) == value
    ensures r.Err? ==> r.error == UnknownCoilState(value)
  {
    if value == COIL_ON then Ok(true)
    else if value == COIL_OFF then Ok(false)
    else Err(UnknownCoilState(value))
  }

  lemma CoilRoundTrip(value: bool)
    ensures CoilFromU16(CoilToU16(value)) == Ok(value)
  {
  }

  // ---------------------------------------------------------------------------
  // Read-device-identification codes. The source panics on a byte outside the
  // set of each code; the conversions return `None` for those bytes.

  datatype MeiCode = ReadDeviceId | CanOpenGeneralReference

  predicate IsMeiByte(b: u8) { b == 14 || b == 15 }

  /** `Into<MeiCode> for u8`: `None` where the source panics. */
  function MeiCodeFromByte(b: u8): (r: Option<MeiCode>)
    ensures r.Some? <==> IsMeiByte(b)
  {
    if b == 14 then Some(ReadDeviceId)
    else if b == 15 then Some(CanOpenGeneralReference)
    else None
  }

  function MeiCodeToByte(m: MeiCode): (b: u8)
    ensures IsMeiByte(b) && MeiCodeFromByte(b) == Some(m)
  {
    match m
    case ReadDeviceId => 14
    case CanOpenGeneralReference => 15
  }

  lemma MeiCodeRoundTrip(b: u8)
    requires IsMeiByte(b)
    ensures MeiCodeFromByte(b).Some? && MeiCodeToByte(MeiCodeFromByte(b).value) == b
  {
  }

  datatype ReadDeviceIdCode = BasicStreaming | RegularStreaming | ExtendedStreaming | Specific

  predicate IsReadDeviceIdByte(b: u8) { 1 <= b <= 4 }

  /** `Into<ReadDeviceIdCode> for u8`: `None` where the source panics. */
  function ReadDeviceIdCodeFromByte(b: u8): (r: Option<ReadDeviceIdCode>)
    ensures r.Some? <==> IsReadDeviceIdByte(b)
  {
    if b == 1 then Some(BasicStreaming)
    else if b == 2 then Some(RegularStreaming)
    else if b == 3 then Some(ExtendedStreaming)
    else if b == 4 then Some(Specific)
    else None
  }

  function ReadDeviceIdCodeToByte(c: ReadDeviceIdCode): (b: u8)
    ensures IsReadDeviceIdByte(b) && ReadDeviceIdCodeFromByte(b) == Some(c)
  {
    match c
    case BasicStreaming => 1
    case RegularStreaming => 2
    case ExtendedStreaming => 3
    case Specific => 4
  }

  lemma ReadDeviceIdCodeRoundTrip(b: u8)
    requires IsReadDeviceIdByte(b)
    ensures ReadDeviceIdCodeFromByte(b).Some? && ReadDeviceIdCodeToByte(ReadDeviceIdCodeFromByte(b).value) == b
  {
  }

  datatype ReadDeviceConformityLevel =
    | BasicIdentificationStream
    | RegularIdentificationStream
    | ExtendedIdentificationStream
    | BasicIdentificationIndividual
    | RegularIdentificationIndividual
    | ExtendedIdentificationIndividual

  predicate IsConformityByte(b: u8) { 1 <= b <= 3 || 0x81 <= b <= 0x83 }

  /** `From<u8> for ReadDeviceConformityLevel`: `None` where the source panics. */
  function ConformityLevelFromByte(b: u8): (r: Option<ReadDeviceConformityLevel>)
    ensures r.Some? <==> IsConformityByte(b)
  {
    if b == 0x01 then Some(BasicIdentificationStream)
    else if b == 0x02 then Some(RegularIdentificationStream)
    else if b == 0x03 then Some(ExtendedIdentificationStream)
    else if b == 0x81 then Some(BasicIdentificationIndividual)
    else if b == 0x82 then Some(RegularIdentificationIndividual)
    else if b == 0x83 then Some(ExtendedIdentificationIndividual)
    else None
  }

  function ConformityLevelToByte(c: ReadDeviceConformityLevel): (b: u8)
    ensures IsConformityByte(b) && ConformityLevelFromByte(b) == Some(c)
  {
    match c
    case BasicIdentificationStream => 0x01
    case RegularIdentificationStream => 0x02
    case ExtendedIdentificationStream => 0x03
    case BasicIdentificationIndividual => 0x81
    case RegularIdentificationIndividual => 0x82
    case ExtendedIdentificationIndividual => 0x83
  }

  lemma ConformityLevelRoundTrip(b: u8)
    requires IsConformityByte(b)
    ensures ConformityLevelFromByte(b).Some? && ConformityLevelToByte(ConformityLevelFromByte(b).value) == b
  {
  }

  /**
   * A device identification reply. Each stored object is a `String`, kept here as
   * the bytes of its UTF-8 encoding, whose count is what `String::len` returns.
   */
  datatype DeviceInfo = DeviceInfo(meiCode: MeiCode, readDeviceId: ReadDeviceIdCode,
                                   conformityLevel: ReadDeviceConformityLevel,
                                   continueAt: Option<u8>, storage: seq<seq<u8>>)

  /**
   * `DeviceInfo::new`: the three codes converted from their bytes, no continuation
   * and no objects; `None` where one of the conversions panics in the source.
   */
  function NewDeviceInfo(meiCode: u8, deviceId: u8, conformityLevel: u8): (r: Option<DeviceInfo>)
    ensures r.Some? <==> IsMeiByte(meiCode) && IsReadDeviceIdByte(deviceId) && IsConformityByte(conformityLevel)
    ensures r.Some? ==> && MeiCodeToByte(r.value.meiCode) == meiCode
                        && ReadDeviceIdCodeToByte(r.value.readDeviceId) == deviceId
                        && ConformityLevelToByte(r.value.conformityLevel) == conformityLevel
                        && r.value.continueAt == None && r.value.storage == []
  {
    match (MeiCodeFromByte(meiCode), ReadDeviceIdCodeFromByte(deviceId), ConformityLevelFromByte(conformityLevel))
    case (Some(m), Some(d), Some(c)) => Some(DeviceInfo(m, d, c, None, []))
    case _ => None
  }

  // ---------------------------------------------------------------------------
  // Packed bits and registers as the iterators decode them.

  /** The `k`-th coil of a packed reply: bit `k % 8` of byte `k / 8`, LSB first. */
  function BitAt(bytes: seq<u8>, range: AddressRange, k: nat): (r: Indexed<bool>)
    requires range.IsValid() && k < range.count && k / 8 < |bytes|
    ensures r.index == range.start + k
  {
    Indexed(range.start + k, Bit(bytes[k / 8], k % 8))
  }

  /** How many items a bit iterator yields: it stops at `count` or when the bytes run out. */
  function BitsAvailable(bytes: seq<u8>, range: AddressRange): nat {
    if range.count <= 8 * |bytes| then range.count else 8 * |bytes|
  }

  /** Everything a fresh `BitIterator` over `bytes` yields, in order. */
  function BitValues(bytes: seq<u8>, range: AddressRange): (r: seq<Indexed<bool>>)
    requires range.IsValid()
    ensures |r| == BitsAvailable(bytes, range)
    ensures forall k :: 0 <= k < |r| ==> r[k] == BitAt(bytes, range, k)
  {
    seq(BitsAvailable(bytes, range), k requires 0 <= k < BitsAvailable(bytes, range) => BitAt(bytes, range, k))
  }

  /** The `k`-th register of a reply: bytes `2k` and `2k+1`, big-endian. */
  function RegisterAt(bytes: seq<u8>, range: AddressRange, k: nat): (r: Indexed<u16>)
    requires range.IsValid() && k < range.count && 2 * k + 2 <= |bytes|
    ensures r.index == range.start + k && BeBytes(r.value) == bytes[2 * k .. 2 * k + 2]
  {
    Indexed(range.start + k, Be16(bytes[2 * k], bytes[2 * k + 1]))
  }

  function RegistersAvailable(bytes: seq<u8>, range: AddressRange): nat {
    if range.count <= |bytes| / 2 then range.count else |bytes| / 2
  }

  /** Everything a fresh `RegisterIterator` over `bytes` yields, in order. */
  function RegisterValues(bytes: seq<u8>, range: AddressRange): (r: seq<Indexed<u16>>)
    requires range.IsValid()
    ensures |r| == RegistersAvailable(bytes, range)
    ensures forall k :: 0 <= k < |r| ==> r[k] == RegisterAt(bytes, range, k)
  {
    seq(RegistersAvailable(bytes, range),
        k requires 0 <= k < RegistersAvailable(bytes, range) => RegisterAt(bytes, range, k))
  }

  /** Moving the first item still to come over to those collected keeps their concatenation. */
  lemma Regroup<X>(items: seq<X>, before: seq<X>, after: seq<X>)
    requires before != [] && after == before[1..]
    ensures items + [before[0]] + after == items + before
  {
    assert before == [before[0]] + after;
  }

  /** `BitIterator::parse_all` as a function of the unread bytes. */
  function ParseAllBits(range: AddressRange, s: seq<u8>): (r: Result<Parsed<seq<u8>>, RequestError>)
    ensures r.Ok? <==> |s| == NumBytesForBits(range.count)
    ensures r.Ok? ==> r.value.value == s && r.value.rest == []
    ensures r.Err? && |s| < NumBytesForBits(range.count) ==> r.error == Insufficient
    ensures r.Err? && |s| > NumBytesForBits(range.count) ==> r.error == BadResponse(TrailingBytes(|s| - NumBytesForBits(range.count)))
  {
    var bytes :- TakeBytes(s, NumBytesForBits(range.count));
    var end :- RequireEmpty(bytes.rest);
    Ok(Parsed(bytes.value, end.rest))
  }

  /** `RegisterIterator::parse_all` as a function of the unread bytes. */
  function ParseAllRegisters(range: AddressRange, s: seq<u8>): (r: Result<Parsed<seq<u8>>, RequestError>)
    ensures r.Ok? <==> |s| == 2 * range.count
    ensures r.Ok? ==> r.value.value == s && r.value.rest == []
    ensures r.Err? && |s| < 2 * range.count ==> r.error == Insufficient
    ensures r.Err? && |s| > 2 * range.count ==> r.error == BadResponse(TrailingBytes(|s| - 2 * range.count))
  {
    var bytes :- TakeBytes(s, 2 * range.count);
    var end :- RequireEmpty(bytes.rest);
    Ok(Parsed(bytes.value, end.rest))
  }

  /** A successful `parse_all` leaves exactly `count` coils to iterate over. */
  lemma ParseAllBitsYieldsCount(range: AddressRange, s: seq<u8>)
    requires range.IsValid() && ParseAllBits(range, s).Ok?
    ensures |BitValues(ParseAllBits(range, s).value.value, range)| == range.count
  {
  }

  /** A successful `parse_all` leaves exactly `count` registers to iterate over. */
  lemma ParseAllRegistersYieldsCount(range: AddressRange, s: seq<u8>)
    requires range.IsValid() && ParseAllRegisters(range, s).Ok?
    ensures |RegisterValues(ParseAllRegisters(range, s).value.value, range)| == range.count
  {
  }

  /** Zero-copy iterator over the coils of a packed reply or request. */
  class BitIterator {
    const bytes: seq<u8>
    const range: AddressRange
    var pos: u16

    ghost predicate Valid()
      reads this
    {
      range.IsValid() && pos <= BitsAvailable(bytes, range)
    }

    /** What is still to come. */
    ghost function Remaining(): seq<Indexed<bool>>
      reads this
      requires Valid()
    {
      BitValues(bytes, range)[pos..]
    }

    constructor (bytes: seq<u8>, range: AddressRange)
      requires range.IsValid()
      ensures Valid() && this.bytes == bytes && this.range == range && pos == 0
      ensures Remaining() == BitValues(bytes, range)
    {
      this.bytes := bytes;
      this.range := range;
      pos := 0;
    }

    /** `size_hint`: the count still to come, as far as the range is concerned. */
    function SizeHint(): (n: nat)
      reads this
      requires Valid()
      ensures n == range.count - pos
      ensures |bytes| >= NumBytesForBits(range.count) ==> n == |Remaining()|
    {
      range.count - pos
    }

    method Next() returns (item: Option<Indexed<bool>>)
      requires Valid()
      modifies this
      ensures Valid()
      ensures old(Remaining()) == [] ==> item == None && pos == old(pos)
      ensures old(Remaining()) != [] ==> item == Some(old(Remaining())[0]) && pos == old(pos) + 1
      ensures Remaining() == if item.Some? then old(Remaining())[1..] else old(Remaining())
    {
      if pos == range.count {
        return None;
      }
      var byte := pos / 8;
      var bit := pos % 8;
      if byte < |bytes| {
        var value := Bit(bytes[byte], bit);
        var address := range.start + pos;
        pos := pos + 1;
        item := Some(Indexed(address, value));
      } else {
        item := None;
      }
    }

    /** `collect()`: drains the iterator. */
    method Collect() returns (items: seq<Indexed<bool>>)
      requires Valid()
      modifies this
      ensures Valid() && items == old(Remaining()) && Remaining() == []
    {
      items := [];
      while true
        invariant Valid() && items + Remaining() == old(Remaining())
        decreases |Remaining()|
      {
        ghost var before := Remaining();
        var next := Next();
        if next.None? {
          assert items + [] == items;
          return;
        }
        Regroup(items, before, Remaining());
        items := items + [next.value];
      }
    }
  }

  /** Zero-copy iterator over the registers of a reply or request. */
  class RegisterIterator {
    const bytes: seq<u8>
    const range: AddressRange
    var pos: u16

    ghost predicate Valid()
      reads this
    {
      range.IsValid() && pos <= RegistersAvailable(bytes, range)
    }

    ghost function Remaining(): seq<Indexed<u16>>
      reads this
      requires Valid()
    {
      RegisterValues(bytes, range)[pos..]
    }

    constructor (bytes: seq<u8>, range: AddressRange)
      requires range.IsValid()
      ensures Valid() && this.bytes == bytes && this.range == range && pos == 0
      ensures Remaining() == RegisterValues(bytes, range)
    {
      this.bytes := bytes;
      this.range := range;
      pos := 0;
    }

    function SizeHint(): (n: nat)
      reads this
      requires Valid()
      ensures n == range.count - pos
      ensures |bytes| >= 2 * range.count ==> n == |Remaining()|
    {
      range.count - pos
    }

    method Next() returns (item: Option<Indexed<u16>>)
      requires Valid()
      modifies this
      ensures Valid()
      ensures old(Remaining()) == [] ==> item == None && pos == old(pos)
      ensures old(Remaining()) != [] ==> item == Some(old(Remaining())[0]) && pos == old(pos) + 1
      ensures Remaining() == if item.Some? then old(Remaining())[1..] else old(Remaining())
    {
      if pos == range.count {
        return None;
      }
      var at := 2 * pos;
      if at + 2 <= |bytes| {
        var value := Be16(bytes[at], bytes[at + 1]);
        var index := pos + range.start;
        pos := pos + 1;
        item := Some(Indexed(index, value));
      } else {
        item := None;
      }
    }

    method Collect() returns (items: seq<Indexed<u16>>)
      requires Valid()
      modifies this
      ensures Valid() && items == old(Remaining()) && Remaining() == []
    {
      items := [];
      while true
        invariant Valid() && items + Remaining() == old(Remaining())
        decreases |Remaining()|
      {
        ghost var before := Remaining();
        var next := Next();
        if next.None? {
          assert items + [] == items;
          return;
        }
        Regroup(items, before, Remaining());
        items := items + [next.value];
      }
    }
  }

  /** `BitIterator::parse_all`: takes exactly the packed bytes of `range` and nothing more. */
  method ParseBitIterator(range: AddressRange, cursor: ReadCursor) returns (r: Result<BitIterator, RequestError>)
    requires range.IsValid() && cursor.Valid()
    modifies cursor
    ensures cursor.Valid()
    ensures r.Ok? <==> ParseAllBits(range, old(cursor.Rest())).Ok?
    ensures r.Ok? ==> fresh(r.value) && r.value.Valid() && r.value.pos == 0 && r.value.range == range
                      && r.value.bytes == ParseAllBits(range, old(cursor.Rest())).value.value
                      && cursor.Rest() == []
    ensures r.Err? ==> r.error == ParseAllBits(range, old(cursor.Rest())).error
  {
    var bytes :- cursor.ReadBytes(NumBytesForBits(range.count));
    var end :- cursor.ExpectEmpty();
    var it := new BitIterator(bytes, range);
    return Ok(it);
  }

  /** `RegisterIterator::parse_all`: takes exactly `2 * count` bytes and nothing more. */
  method ParseRegisterIterator(range: AddressRange, cursor: ReadCursor) returns (r: Result<RegisterIterator, RequestError>)
    requires range.IsValid() && cursor.Valid()
    modifies cursor
    ensures cursor.Valid()
    ensures r.Ok? <==> ParseAllRegisters(range, old(cursor.Rest())).Ok?
    ensures r.Ok? ==> fresh(r.value) && r.value.Valid() && r.value.pos == 0 && r.value.range == range
                      && r.value.bytes == ParseAllRegisters(range, old(cursor.Rest())).value.value
                      && cursor.Rest() == []
    ensures r.Err? ==> r.error == ParseAllRegisters(range, old(cursor.Rest())).error
  {
    var bytes :- cursor.ReadBytes(2 * range.count);
    var end :- cursor.ExpectEmpty();
    var it := new RegisterIterator(bytes, range);
    return Ok(it);
  }

  lemma IteratorExamples()
    ensures BitValues([0x03], AddressRange(1, 3))
            == [Indexed(1, true), Indexed(2, true), Indexed(3, false)]
    ensures RegisterValues([0xFF, 0xFF, 0x01, 0xCC], AddressRange(1, 2))
            == [Indexed(1, 0xFFFF), Indexed(2, 0x01CC)]
  {
  }

  /** Iterator over the addresses of a range (`AddressRange::iter`). */
  class AddressIterator {
    var current: u16
    var remain: u16

    constructor (current: u16, remain: u16)
      ensures this.current == current && this.remain == remain
    {
      this.current := current;
      this.remain := remain;
    }

    /** The addresses still to come: `remain` of them from `current`, wrapping past 0xFFFF. */
    ghost function Rest(): (r: seq<u16>)
      reads this
      ensures |r| == remain
      ensures forall k :: 0 <= k < |r| ==> r[k] == Wrap16(current as int + k)
    {
      var first, n := current, remain;
      seq<u16>(n, k requires 0 <= k < n => Wrap16(first as int + k))
    }

    /** The addresses still to come lie in the address space, as those of a valid range do. */
    ghost predicate Fits()
      reads this
    {
      current + remain <= 0x1_0000
    }

    /**
     * `remain.checked_sub(1)` ends the iteration; otherwise the current address is
     * returned and then incremented, wrapping past 0xFFFF.
     */
    method Next() returns (address: Option<u16>)
      modifies this
      ensures old(remain) == 0 ==> address == None && current == old(current) && remain == 0
      ensures old(remain) > 0 ==> address == Some(old(current)) && remain == old(remain) - 1
                                  && current == Wrap16(old(current) as int + 1)
      ensures address == None <==> old(Rest()) == []
      ensures address.Some? ==> address.value == old(Rest())[0] && Rest() == old(Rest())[1..]
      ensures old(Fits()) ==> Fits()
      ensures old(Fits()) && remain > 0 ==> current == old(current) + 1
    {
      if remain == 0 {
        return None;
      }
      ghost var before := Rest();
      var ret := current;
      current := Wrap16(current as int + 1);
      remain := remain - 1;
      forall k | 0 <= k < remain
        ensures Rest()[k] == before[k + 1]
      {
        WrapSum(k, ret as int + 1);
      }
      address := Some(ret);
    }
  }

  /** Iterating a range's addresses from a fresh iterator gives exactly the range's addresses. */
  lemma AddressIteratorRange(range: AddressRange, it: AddressIterator)
    requires range.IsValid() && it.current == range.start && it.remain == range.count
    ensures it.Fits() && it.Rest() == Addresses(range)
  {
    var r, a := it.Rest(), Addresses(range);
    forall k | 0 <= k < range.count
      ensures r[k] == a[k]
    {
    }
  }

  /** `AddressRange::iter`: over a valid range it yields exactly the range's addresses. */
  method RangeIter(range: AddressRange) returns (it: AddressIterator)
    ensures fresh(it) && it.current == range.start && it.remain == range.count
    ensures range.IsValid() ==> it.Fits() && it.Rest() == Addresses(range)
  {
    it := new AddressIterator(range.start, range.count);
    if range.IsValid() {
      AddressIteratorRange(range, it);
    }
  }

  /** The addresses of a valid range, in ascending order. */
  function Addresses(range: AddressRange): (r: seq<u16>)
    requires range.IsValid()
    ensures |r| == range.count
    ensures forall k :: 0 <= k < |r| ==> r[k] == range.start + k
  {
    seq(range.count, k requires 0 <= k < range.count => (range.start + k) as u16)
  }

  // ---------------------------------------------------------------------------
  // DeviceInfo::response_message_count

  /**
   * The budget an object consumes as the source computes it: `(len as u8) + 2` in
   * wrapping `u8` arithmetic (a release build; a debug build panics on the overflow).
   */
  function ObjectCost(len: nat): u8 {
    (len % 0x100 + 2) % 0x100
  }

  /** `response_message_count`, from object `idx` on with `budget` left. */
  function MessageCountFrom(lens: seq<nat>, budget: u8, idx: nat): Option<u8>
    requires idx <= |lens|
    decreases |lens| - idx
  {
    if idx == |lens| then None
    else if budget < ObjectCost(lens[idx]) then Some((idx % 0x100) as u8)
    else MessageCountFrom(lens, budget - ObjectCost(lens[idx]), idx + 1)
  }

  /** `object.len()` of each stored object: the byte count of its UTF-8 encoding. */
  function Lengths(storage: seq<seq<u8>>): (r: seq<nat>)
    ensures |r| == |storage| && forall i :: 0 <= i < |r| ==> r[i] == |storage[i]|
  {
    seq(|storage|, i requires 0 <= i < |storage| => |storage[i]|)
  }

  /**
   * `DeviceInfo::response_message_count`: the index of the first stored object that
   * no longer fits into `maxMsgSize` bytes, two bytes of overhead per object.
   */
  method ResponseMessageCount(storage: seq<seq<u8>>, maxMsgSize: u8) returns (r: Option<u8>)
    ensures r == MessageCountFrom(Lengths(storage), maxMsgSize, 0)
  {
    var lens := Lengths(storage);
    var maxLength: u8 := maxMsgSize;
    var idx := 0;
    while idx < |storage|
      invariant 0 <= idx <= |storage|
      invariant MessageCountFrom(lens, maxLength, idx) == MessageCountFrom(lens, maxMsgSize, 0)
    {
      var cost := ((|storage[idx]| % 0x100) + 2) % 0x100;
      if maxLength < cost {
        return Some((idx % 0x100) as u8);
      }
      maxLength := maxLength - cost;
      idx := idx + 1;
    }
    return None;
  }

  /** On `[254]` the wrapped cost is 0, so a 254-byte object "fits" into a 10-byte budget. */
  lemma ResponseMessageCountWraps()
    ensures MessageCountFrom([254], 10, 0) == None
    ensures FitCount([254], 10) == Some(0)
  {
  }

  // The intended count, with the object cost `len + 2` computed without wrapping.

  /** Bytes that all objects of `lens` need in a reply. */
  function TotalCost(lens: seq<nat>): (r: nat)
    ensures r >= 2 * |lens|
  {
    if |lens| == 0 then 0 else lens[0] + 2 + TotalCost(lens[1..])
  }

  /** Index of the first object that does not fit into `budget`, if any. */
  function FitCount(lens: seq<nat>, budget: nat): Option<nat>
  {
    if |lens| == 0 then None
    else if budget < lens[0] + 2 then Some(0)
    else match FitCount(lens[1..], budget - (lens[0] + 2))
         case None => None
         case Some(i) => Some(i + 1)
  }

  /** `FitCount` is `None` exactly when everything fits, and otherwise the prefix that fits. */
  lemma {:induction false} FitCountSpec(lens: seq<nat>, budget: nat)
    ensures FitCount(lens, budget).None? <==> TotalCost(lens) <= budget
    ensures FitCount(lens, budget).Some? ==>
              var i := FitCount(lens, budget).value;
              i < |lens| && TotalCost(lens[..i]) <= budget < TotalCost(lens[..i + 1])
  {
    if |lens| > 0 {
      assert lens[..1][1..] == [];
      if budget >= lens[0] + 2 {
        FitCountSpec(lens[1..], budget - (lens[0] + 2));
        var r := FitCount(lens[1..], budget - (lens[0] + 2));
        if r.Some? {
          var i := r.value;
          assert lens[..i + 1][1..] == lens[1..][..i];
          assert lens[..i + 2][1..] == lens[1..][..i + 1];
        }
      }
    }
  }

  function ShiftIndex(r: Option<nat>, k: nat): Option<nat> {
    if r.None? then None else Some(r.value + k)
  }

  /**
   * `response_message_count` with the cost computed as `len + 2` in unbounded
   * arithmetic: the first object that does not fit, or `None` when all do.
   */
  method ResponseMessageCountChecked(storage: seq<seq<u8>>, maxMsgSize: u8) returns (r: Option<u8>)
    ensures r.None? <==> FitCount(Lengths(storage), maxMsgSize).None?
    ensures r.Some? ==> r.value == FitCount(Lengths(storage), maxMsgSize).value
    ensures r.Some? ==> r.value < 128 && r.value < |storage| && TotalCost(Lengths(storage)[..r.value]) <= maxMsgSize
  {
    var lens := Lengths(storage);
    FitCountSpec(lens, maxMsgSize);
    var maxLength: nat := maxMsgSize;
    var idx := 0;
    while idx < |storage|
      invariant 0 <= idx <= |storage|
      invariant FitCount(lens, maxMsgSize) == ShiftIndex(FitCount(lens[idx..], maxLength), idx)
    {
      assert lens[idx..][1..] == lens[idx + 1..];
      var cost := |storage[idx]| + 2;
      if maxLength < cost {
        var i := FitCount(lens, maxMsgSize).value;
        assert TotalCost(lens[..i]) >= 2 * i;
        return Some(idx as u8);
      }
      maxLength := maxLength - cost;
      idx := idx + 1;
    }
    return None;
  }
}
