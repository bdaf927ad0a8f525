/**
 * The older `service` layer: request-range validation, the server-side parsers
 * of the two write-multiple requests (which, unlike the current server, check
 * the declared byte count), and the client-side response parsers that check
 * the byte count twice.
 */
module Service {
  import opened Num
  import opened Wrappers
  import opened Bits
  import opened Types
  import opened ReadCursors
  import opened Serialize
  import opened Parse
  import Errors

  // ---------------------------------------------------------------------------
  // validation.rs

  const REQUEST_MAX_REGISTERS: u16 := 125
  const REQUEST_MAX_BINARY_BITS: u16 := 2000

  /** The error enum `check_validity` reports with. */
  datatype InvalidRequest =
    | CountOfZero
    | AddressOverflow(start: u16, count: u16)
    | CountTooBigForType(count: u16, max: u16)

  /**
   * `range::check_validity`: a zero count first, then a range running past
   * 0xFFFF, then a count above the per-type maximum.
   */
  function CheckValidity(range: AddressRange, maxCount: u16): (r: Result<(), InvalidRequest>)
    ensures r.Ok? <==> range.IsValid() && range.count <= maxCount
    ensures range.count == 0 ==> r == Err(CountOfZero)
  {
    if range.count == 0 then Err(CountOfZero)
    else
      var maxStart := U16_MAX - (range.count - 1);
      if range.start > maxStart then Err(AddressOverflow(range.start, range.count))
      else if range.count > maxCount then Err(CountTooBigForType(range.count, maxCount))
      else Ok(())
  }

  function CheckValidityForReadBits(range: AddressRange): (r: Result<(), InvalidRequest>)
    ensures r.Ok? <==> range.IsValid() && range.count <= 2000
  {
    CheckValidity(range, REQUEST_MAX_BINARY_BITS)
  }

  function CheckValidityForReadRegisters(range: AddressRange): (r: Result<(), InvalidRequest>)
    ensures r.Ok? <==> range.IsValid() && range.count <= 125
  {
    CheckValidity(range, REQUEST_MAX_REGISTERS)
  }

  /**
   * The older check decides, error for error, like the current
   * `AddressRange::try_from` followed by `limited_count`.
   */
  lemma CheckValidityAgreesWithTryFrom(range: AddressRange, maxCount: u16)
    ensures CheckValidity(range, maxCount).Ok? <==>
              TryFrom(range.start, range.count).Ok? && LimitedCount(range, maxCount).Ok?
    ensures TryFrom(range.start, range.count) == Err(Errors.CountOfZero) <==>
              CheckValidity(range, maxCount) == Err(CountOfZero)
    ensures TryFrom(range.start, range.count) == Err(Errors.AddressOverflow(range.start, range.count)) <==>
              CheckValidity(range, maxCount) == Err(AddressOverflow(range.start, range.count))
    ensures TryFrom(range.start, range.count).Ok? && LimitedCount(range, maxCount).Err? <==>
              CheckValidity(range, maxCount) == Err(CountTooBigForType(range.count, maxCount))
  {
  }

  /** The unit tests of `validation.rs`. */
  lemma CheckValidityExamples()
    ensures CheckValidityForReadBits(AddressRange(0, 2000)) == Ok(())
    ensures CheckValidityForReadBits(AddressRange(0, 2001)) == Err(CountTooBigForType(2001, 2000))
    ensures CheckValidityForReadRegisters(AddressRange(0, 125)) == Ok(())
    ensures CheckValidityForReadRegisters(AddressRange(0, 126)) == Err(CountTooBigForType(126, 125))
    ensures CheckValidityForReadBits(AddressRange(0xFFFF, 1)) == Ok(())
    ensures CheckValidityForReadBits(AddressRange(0, 0)) == Err(CountOfZero)
    ensures CheckValidityForReadBits(AddressRange(0xFFFF, 2)) == Err(AddressOverflow(0xFFFF, 2))
  {
  }

  // ---------------------------------------------------------------------------
  // service/parse.rs

  /** A parsed write-multiple-coils request: the range and the coils its iterator yields. */
  datatype WriteCoils = WriteCoils(range: AddressRange, values: seq<Indexed<bool>>)

  /** A parsed write-multiple-registers request. */
  datatype WriteRegisters = WriteRegisters(range: AddressRange, values: seq<Indexed<u16>>)

  /**
   * `parse_write_multiple_coils`: the range, the byte count, which must be
   * `ceil(count / 8)`, exactly that many bytes, and nothing after them.
   */
  function ParseWriteMultipleCoils(s: seq<u8>): (r: Result<WriteCoils, Errors.RequestError>)
    ensures r.Ok? ==> r.value.range.IsValid() && |r.value.values| == r.value.range.count
                      && |s| == 5 + NumBytesForBits(r.value.range.count)
                      && s[..4] == EncodeRange(r.value.range) && s[4] == NumBytesForBits(r.value.range.count)
                      && r.value.values == BitValues(s[5..], r.value.range)
  {
    var range :- DecodeRange(s);
    var byteCount :- TakeU8(range.rest);
    var expected := NumBytesForBits(range.value.count);
    if byteCount.value != expected then
      Err(Errors.BadResponse(Errors.RequestByteCountMismatch(expected, byteCount.value)))
    else
      var bytes :- TakeBytes(byteCount.rest, byteCount.value);
      var _ :- RequireEmpty(bytes.rest);
      assert s[5..] == bytes.value;
      Ok(WriteCoils(range.value, BitValues(bytes.value, range.value)))
  }

  /**
   * `parse_write_multiple_registers`: the range, the byte count, which must be
   * `2 * count`, exactly that many bytes, and nothing after them.
   */
  function ParseWriteMultipleRegisters(s: seq<u8>): (r: Result<WriteRegisters, Errors.RequestError>)
    ensures r.Ok? ==> r.value.range.IsValid() && |r.value.values| == r.value.range.count
                      && |s| == 5 + 2 * r.value.range.count
                      && s[..4] == EncodeRange(r.value.range) && s[4] as int == 2 * r.value.range.count
                      && r.value.values == RegisterValues(s[5..], r.value.range)
  {
    var range :- DecodeRange(s);
    var byteCount :- TakeU8(range.rest);
    var expected := 2 * range.value.count;
    if byteCount.value != expected then
      Err(Errors.BadResponse(Errors.RequestByteCountMismatch(expected, byteCount.value)))
    else
      var bytes :- TakeBytes(byteCount.rest, byteCount.value);
      var _ :- RequireEmpty(bytes.rest);
      assert s[5..] == bytes.value;
      Ok(WriteRegisters(range.value, RegisterValues(bytes.value, range.value)))
  }

  /** A write-multiple-coils request as the client encodes it is parsed back into its coils. */
  lemma ParseEncodedWriteMultipleCoils(range: AddressRange, values: seq<bool>)
    requires range.IsValid() && |values| == range.count && |values| <= 2040
    ensures EncodeWriteMultipleCoils(range, values).Ok?
    ensures ParseWriteMultipleCoils(EncodeWriteMultipleCoils(range, values).value) ==
              Ok(WriteCoils(range, Enumerate(range.start, values)))
  {
    var s := EncodeWriteMultipleCoils(range, values).value;
    DecodeEncodeRange(range, s[4..]);
    assert s == EncodeRange(range) + s[4..];
    assert s[5..] == PackBits(values);
    assert s[4] as int == NumBytesForBits(range.count);
    BitValuesOfPackBits(values, range);
  }

  /** A write-multiple-registers request as the client encodes it is parsed back into its registers. */
  lemma ParseEncodedWriteMultipleRegisters(range: AddressRange, values: seq<u16>)
    requires range.IsValid() && |values| == range.count && |values| <= 127
    ensures EncodeWriteMultipleRegisters(range, values).Ok?
    ensures ParseWriteMultipleRegisters(EncodeWriteMultipleRegisters(range, values).value) ==
              Ok(WriteRegisters(range, Enumerate(range.start, values)))
  {
    var s := EncodeWriteMultipleRegisters(range, values).value;
    DecodeEncodeRange(range, s[4..]);
    assert s == EncodeRange(range) + s[4..];
    assert s[5..] == BeWords(values);
    RegisterValuesOfBeWords(values, range);
  }

  /**
   * The error paths of `parse_write_multiple_coils`, for every valid range:
   * a byte count other than `ceil(count / 8)` is a mismatch naming both
   * counts, a payload shorter than the byte count is too short, and bytes
   * after the payload are trailing, counted.
   */
  lemma ParseWriteMultipleCoilsErrors(range: AddressRange, byteCount: u8, tail: seq<u8>)
    requires range.IsValid()
    ensures var s := EncodeRange(range) + [byteCount] + tail;
            && (byteCount as int != NumBytesForBits(range.count) ==>
                  ParseWriteMultipleCoils(s) ==
                    Err(Errors.BadResponse(Errors.RequestByteCountMismatch(NumBytesForBits(range.count), byteCount))))
            && (byteCount as int == NumBytesForBits(range.count) && |tail| < byteCount as int ==>
                  ParseWriteMultipleCoils(s) == Err(Insufficient))
            && (byteCount as int == NumBytesForBits(range.count) && |tail| > byteCount as int ==>
                  ParseWriteMultipleCoils(s) == Err(Errors.BadResponse(Errors.TrailingBytes(|tail| - byteCount as int))))
  {
    var s := EncodeRange(range) + [byteCount] + tail;
    DecodeEncodeRange(range, [byteCount] + tail);
    assert s == EncodeRange(range) + ([byteCount] + tail);
    assert ([byteCount] + tail)[1..] == tail;
  }

  /** The unit test of `service/parse.rs`: `00 01 00 03 01 05` writes on, off, on to coils 1-3. */
  lemma ParseWriteMultipleCoilsExample()
    ensures ParseWriteMultipleCoils([0x00, 0x01, 0x00, 0x03, 0x01, 0x05]) ==
              Ok(WriteCoils(AddressRange(1, 3), [Indexed(1, true), Indexed(2, false), Indexed(3, true)]))
  {
    var coils: seq<u8> := [0x00, 0x01, 0x00, 0x03, 0x01, 0x05];
    assert DecodeRange(coils).value == Parsed(AddressRange(1, 3), [0x01, 0x05]);
    var bits := BitValues([0x05], AddressRange(1, 3));
    assert |bits| == 3;
    assert Bit(5, 1) == Bit(2, 0) && Bit(5, 2) == Bit(1, 0);
    assert bits == [Indexed(1, true), Indexed(2, false), Indexed(3, true)];
  }

  /**
   * The error paths of `parse_write_multiple_registers`, for every valid
   * range: a byte count other than `2 * count` is a mismatch naming both
   * counts, a short payload is too short, and extra bytes are trailing.
   */
  lemma ParseWriteMultipleRegistersErrors(range: AddressRange, byteCount: u8, tail: seq<u8>)
    requires range.IsValid()
    ensures var s := EncodeRange(range) + [byteCount] + tail;
            && (byteCount as int != 2 * range.count ==>
                  ParseWriteMultipleRegisters(s) ==
                    Err(Errors.BadResponse(Errors.RequestByteCountMismatch(2 * range.count, byteCount))))
            && (byteCount as int == 2 * range.count && |tail| < byteCount as int ==>
                  ParseWriteMultipleRegisters(s) == Err(Insufficient))
            && (byteCount as int == 2 * range.count && |tail| > byteCount as int ==>
                  ParseWriteMultipleRegisters(s) == Err(Errors.BadResponse(Errors.TrailingBytes(|tail| - byteCount as int))))
  {
    var s := EncodeRange(range) + [byteCount] + tail;
    DecodeEncodeRange(range, [byteCount] + tail);
    assert s == EncodeRange(range) + ([byteCount] + tail);
    assert ([byteCount] + tail)[1..] == tail;
  }

  /** The unit test of `service/parse.rs`: `00 01 00 02 04 CA FE BB DD` writes 0xCAFE and 0xBBDD to registers 1-2. */
  lemma ParseWriteMultipleRegistersExample()
    ensures ParseWriteMultipleRegisters([0x00, 0x01, 0x00, 0x02, 0x04, 0xCA, 0xFE, 0xBB, 0xDD]) ==
              Ok(WriteRegisters(AddressRange(1, 2), [Indexed(1, 0xCAFE), Indexed(2, 0xBBDD)]))
  {
    var regs: seq<u8> := [0x00, 0x01, 0x00, 0x02, 0x04, 0xCA, 0xFE, 0xBB, 0xDD];
    assert DecodeRange(regs).value == Parsed(AddressRange(1, 2), regs[4..]);
    var words := RegisterValues([0xCA, 0xFE, 0xBB, 0xDD], AddressRange(1, 2));
    assert |words| == 2;
    assert words == [Indexed(1, 0xCAFE), Indexed(2, 0xBBDD)];
  }

  /** `parse_write_multiple_coils` over the cursor. */
  method ParseWriteMultipleCoilsFrom(cursor: ReadCursor) returns (r: Result<WriteCoils, Errors.RequestError>)
    requires cursor.Valid()
    modifies cursor
    ensures cursor.Valid() && r == ParseWriteMultipleCoils(old(cursor.Rest()))
  {
    var range :- ParseAddressRange(cursor);
    var byteCount :- cursor.ReadU8();
    var expected := NumBytesForBits(range.count);
    if byteCount as nat != expected {
      return Err(Errors.BadResponse(Errors.RequestByteCountMismatch(expected, byteCount)));
    }
    var bytes :- cursor.ReadBytes(byteCount as nat);
    var _ :- cursor.ExpectEmpty();
    return Ok(WriteCoils(range, BitValues(bytes, range)));
  }

  /** `parse_write_multiple_registers` over the cursor. */
  method ParseWriteMultipleRegistersFrom(cursor: ReadCursor) returns (r: Result<WriteRegisters, Errors.RequestError>)
    requires cursor.Valid()
    modifies cursor
    ensures cursor.Valid() && r == ParseWriteMultipleRegisters(old(cursor.Rest()))
  {
    var range :- ParseAddressRange(cursor);
    var byteCount :- cursor.ReadU8();
    var expected := 2 * range.count;
    if byteCount as nat != expected {
      return Err(Errors.BadResponse(Errors.RequestByteCountMismatch(expected, byteCount)));
    }
    var bytes :- cursor.ReadBytes(byteCount as nat);
    var _ :- cursor.ExpectEmpty();
    return Ok(WriteRegisters(range, RegisterValues(bytes, range)));
  }

  // ---------------------------------------------------------------------------
  // client_response_parsers.rs

  /**
   * The echo parsers for single writes: an index and a value, which must equal
   * the request. Bytes after the echo are left unread.
   */
  function ParseCoilEcho(request: Indexed<bool>, s: seq<u8>): (r: Result<Parsed<Indexed<bool>>, Errors.RequestError>)
    ensures r.Ok? ==> |s| >= 4 && s[..4] == EncodeIndexedCoil(request) && r.value == Parsed(request, s[4..])
  {
    var response :- DecodeIndexedCoil(s);
    if response.value != request then Err(Errors.BadResponse(Errors.ReplyEchoMismatch))
    else Ok(response)
  }

  function ParseRegisterEcho(request: Indexed<u16>, s: seq<u8>): (r: Result<Parsed<Indexed<u16>>, Errors.RequestError>)
    ensures r.Ok? ==> |s| >= 4 && s[..4] == EncodeIndexedRegister(request) && r.value == Parsed(request, s[4..])
  {
    var response :- DecodeIndexedRegister(s);
    if response.value != request then Err(Errors.BadResponse(Errors.ReplyEchoMismatch))
    else Ok(response)
  }

  /** An echo is accepted exactly when the reply starts with the request's own four bytes. */
  lemma EchoIsExact(coil: Indexed<bool>, register: Indexed<u16>, s: seq<u8>)
    ensures ParseCoilEcho(coil, s).Ok? <==> |s| >= 4 && s[..4] == EncodeIndexedCoil(coil)
    ensures ParseRegisterEcho(register, s).Ok? <==> |s| >= 4 && s[..4] == EncodeIndexedRegister(register)
  {
    if |s| >= 4 {
      assert s == s[..4] + s[4..];
      if s[..4] == EncodeIndexedCoil(coil) {
        DecodeEncodeIndexedCoil(coil, s[4..]);
      }
      if s[..4] == EncodeIndexedRegister(register) {
        DecodeEncodeIndexedRegister(register, s[4..]);
      }
    }
  }

  /** Lemma-level form of the echo parsers' promise: a mismatching but well-formed echo is a mismatch. */
  lemma EchoMismatch(request: Indexed<u16>, other: Indexed<u16>, rest: seq<u8>)
    requires other != request
    ensures ParseRegisterEcho(request, EncodeIndexedRegister(other) + rest) == Err(Errors.BadResponse(Errors.ReplyEchoMismatch))
  {
    DecodeEncodeIndexedRegister(other, rest);
  }

  /**
   * `Vec<Indexed<bool>>::parse`: the byte count must be `ceil(count / 8)`
   * (else `RequestByteCountMismatch(expected, actual)`) and then the number of
   * bytes left (else `InsufficientBytesForByteCount(count, left)`).
   */
  function ParseBitsReply(range: AddressRange, s: seq<u8>): (r: Result<seq<Indexed<bool>>, Errors.RequestError>)
    requires range.IsValid()
    ensures r.Ok? <==> |s| >= 1 && s[0] as int == NumBytesForBits(range.count) && |s| == 1 + s[0] as int
    ensures r.Ok? ==> r.value == BitValues(s[1..], range) && |r.value| == range.count
  {
    var byteCount :- TakeU8(s);
    var expected := NumBytesForBits(range.count);
    if byteCount.value != expected then
      Err(Errors.BadResponse(Errors.RequestByteCountMismatch(expected, byteCount.value)))
    else if byteCount.value != |byteCount.rest| then
      Err(Errors.BadResponse(Errors.InsufficientBytesForByteCount(byteCount.value, |byteCount.rest|)))
    else
      Ok(BitValues(byteCount.rest, range))
  }

  /** `Vec<Indexed<u16>>::parse`: the byte count must be `2 * count` and then the number of bytes left. */
  function ParseRegistersReply(range: AddressRange, s: seq<u8>): (r: Result<seq<Indexed<u16>>, Errors.RequestError>)
    requires range.IsValid()
    ensures r.Ok? <==> |s| >= 1 && s[0] as int == 2 * range.count && |s| == 1 + s[0] as int
    ensures r.Ok? ==> r.value == RegisterValues(s[1..], range) && |r.value| == range.count
  {
    var byteCount :- TakeU8(s);
    var expected := 2 * range.count;
    if byteCount.value != expected then
      Err(Errors.BadResponse(Errors.RequestByteCountMismatch(expected, byteCount.value)))
    else if expected != |byteCount.rest| then
      Err(Errors.BadResponse(Errors.InsufficientBytesForByteCount(byteCount.value, |byteCount.rest|)))
    else
      Ok(RegisterValues(byteCount.rest, range))
  }

  /** A server's coil reply for the range is parsed back into the coils. */
  lemma ParseBitsReplyOfEncode(range: AddressRange, values: seq<bool>)
    requires range.IsValid() && |values| == range.count && |values| <= 2040
    ensures EncodeCoils(values).Ok?
    ensures ParseBitsReply(range, EncodeCoils(values).value) == Ok(Enumerate(range.start, values))
  {
    var s := EncodeCoils(values).value;
    assert s[1..] == PackBits(values);
    BitValuesOfPackBits(values, range);
  }

  /** A server's register reply for the range is parsed back into the registers. */
  lemma ParseRegistersReplyOfEncode(range: AddressRange, values: seq<u16>)
    requires range.IsValid() && |values| == range.count && |values| <= 127
    ensures EncodeRegisters(values).Ok?
    ensures ParseRegistersReply(range, EncodeRegisters(values).value) == Ok(Enumerate(range.start, values))
  {
    var s := EncodeRegisters(values).value;
    assert s[1..] == BeWords(values);
    RegisterValuesOfBeWords(values, range);
  }

  /** The unit test: `01 05` for three coils from 0 is on, off, on. */
  lemma ParseBitsReplyExample()
    ensures ParseBitsReply(AddressRange(0, 3), [0x01, 0x05]) == Ok([Indexed(0, true), Indexed(1, false), Indexed(2, true)])
  {
    var s: seq<u8> := [0x01, 0x05];
    assert s[1..] == [0x05];
    var v := BitValues([0x05], AddressRange(0, 3));
    assert |v| == 3;
    assert Bit(5, 1) == Bit(2, 0) && Bit(5, 2) == Bit(1, 0);
    assert v[0] == Indexed(0, true) && v[1] == Indexed(1, false) && v[2] == Indexed(2, true);
    assert v == [Indexed(0, true), Indexed(1, false), Indexed(2, true)];
  }

  /** `i < 8`: position `8 * j + i` of a packed reply is bit `i` of byte `j`. */
  lemma PackedPosition(j: nat, i: nat)
    requires i < 8
    ensures (8 * j + i) / 8 == j && (8 * j + i) % 8 == i
  {
  }

  /**
   * The nested loop of `Vec<Indexed<bool>>::parse` over the checked bytes:
   * every byte, low bit first, until `count` values have been pushed.
   */
  method UnpackBits(range: AddressRange, bytes: seq<u8>) returns (values: seq<Indexed<bool>>)
    requires range.IsValid() && |bytes| == NumBytesForBits(range.count)
    ensures values == BitValues(bytes, range)
  {
    values := [];
    var count: nat := 0;
    var j := 0;
    while j < |bytes|
      invariant 0 <= j <= |bytes| && count == 8 * j && count <= range.count
      invariant |values| == count
      invariant forall k :: 0 <= k < count ==> values[k] == BitAt(bytes, range, k)
    {
      var byte := bytes[j];
      var i := 0;
      while i < 8
        invariant 0 <= i <= 8 && count == 8 * j + i && count <= range.count
        invariant |values| == count
        invariant forall k :: 0 <= k < count ==> values[k] == BitAt(bytes, range, k)
      {
        if count == range.count {
          return;
        }
        PackedPosition(j, i);
        values := values + [Indexed(count + range.start, Bit(byte, i))];
        count := count + 1;
        i := i + 1;
      }
      j := j + 1;
    }
  }

  /**
   * The loop of `Vec<Indexed<u16>>::parse` over the checked bytes: a register
   * per two bytes until the cursor is empty. The index is a `u16` whose last
   * increment wraps when the range ends at 0xFFFF.
   */
  method UnpackRegisters(range: AddressRange, cursor: ReadCursor) returns (values: seq<Indexed<u16>>)
    requires range.IsValid() && cursor.Valid() && cursor.Remaining() == 2 * range.count
    modifies cursor
    ensures values == RegisterValues(old(cursor.Rest()), range)
  {
    ghost var bytes := cursor.Rest();
    values := [];
    var index: u16 := range.start;
    while cursor.Remaining() > 0
      invariant cursor.Valid() && |values| <= range.count
      invariant cursor.Rest() == bytes[2 * |values|..] && index == Wrap16(range.start + |values|)
      invariant forall k :: 0 <= k < |values| ==> values[k] == RegisterAt(bytes, range, k)
      decreases cursor.Remaining()
    {
      var value := cursor.ReadU16Be();
      // two bytes are always left: the count is even
      assert bytes[2 * |values|..][..2] == bytes[2 * |values| .. 2 * |values| + 2];
      assert bytes[2 * |values|..][2..] == bytes[2 * |values| + 2..];
      values := values + [Indexed(index, value.value)];
      WrapSum(1, range.start + |values| - 1);
      index := Wrap16(index as int + 1);
    }
  }

  /** `Vec<Indexed<bool>>::parse` over the cursor, proved to agree with `ParseBitsReply`. */
  method ParseBitsReplyFrom(range: AddressRange, cursor: ReadCursor) returns (r: Result<seq<Indexed<bool>>, Errors.RequestError>)
    requires range.IsValid() && cursor.Valid()
    modifies cursor
    ensures r == ParseBitsReply(range, old(cursor.Rest()))
  {
    var byteCount :- cursor.ReadU8();
    var expected := NumBytesForBits(range.count);
    if byteCount as nat != expected {
      return Err(Errors.BadResponse(Errors.RequestByteCountMismatch(expected, byteCount)));
    }
    if byteCount as nat != cursor.Remaining() {
      return Err(Errors.BadResponse(Errors.InsufficientBytesForByteCount(byteCount, cursor.Remaining())));
    }
    ghost var left := cursor.Rest();
    // exactly `byteCount` bytes are left, so the read cannot fail
    var read := cursor.ReadBytes(byteCount as nat);
    var bytes := read.value;
    assert bytes == left;
    var values := UnpackBits(range, bytes);
    return Ok(values);
  }

  /** `Vec<Indexed<u16>>::parse` over the cursor, proved to agree with `ParseRegistersReply`. */
  method ParseRegistersReplyFrom(range: AddressRange, cursor: ReadCursor) returns (r: Result<seq<Indexed<u16>>, Errors.RequestError>)
    requires range.IsValid() && cursor.Valid()
    modifies cursor
    ensures r == ParseRegistersReply(range, old(cursor.Rest()))
  {
    var byteCount :- cursor.ReadU8();
    var expected := 2 * range.count;
    if byteCount as nat != expected {
      return Err(Errors.BadResponse(Errors.RequestByteCountMismatch(expected, byteCount)));
    }
    if expected != cursor.Remaining() {
      return Err(Errors.BadResponse(Errors.InsufficientBytesForByteCount(byteCount, cursor.Remaining())));
    }
    var values := UnpackRegisters(range, cursor);
    return Ok(values);
  }
}
