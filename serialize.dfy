/**
 * PDU encoders. Each encoding is first a pure function giving the bytes (or the
 * error) it produces; each serializer is then a method writing through a
 * `WriteCursor`, proved to write exactly those bytes.
 */
module Serialize {
  import opened Num
  import opened Wrappers
  import opened Errors
  import opened Exception
  import opened Types
  import opened WriteCursors

  /** `calc_bytes_for_bits`: `ceil(numBits / 8)`, which must fit in the one-byte count. */
  function CalcBytesForBits(numBits: nat): (r: Result<u8, InternalError>)
    ensures r.Ok? <==> numBits <= 2040
    ensures r.Ok? ==> 8 * r.value >= numBits && 8 * r.value < numBits + 8
    ensures r.Err? ==> r.error.BadByteCount? && r.error.count > 255
                       && 8 * r.error.count >= numBits && 8 * r.error.count < numBits + 8
  {
    var div8 := numBits / 8;
    var count := if numBits % 8 == 0 then div8 else div8 + 1;
    if count <= 255 then Ok(count) else Err(BadByteCount(count))
  }

  /** `calc_bytes_for_registers`: `2 * n`, which must fit in the one-byte count. */
  function CalcBytesForRegisters(numRegisters: nat): (r: Result<u8, InternalError>)
    ensures r.Ok? <==> numRegisters <= 127
    ensures r.Ok? ==> r.value == 2 * numRegisters
    ensures r.Err? ==> r.error == BadByteCount(2 * numRegisters)
  {
    var count := 2 * numRegisters;
    if count <= 255 then Ok(count) else Err(BadByteCount(count))
  }

  lemma CalcBytesExamples()
    ensures CalcBytesForBits(0) == Ok(0) && CalcBytesForBits(1) == Ok(1) && CalcBytesForBits(8) == Ok(1)
    ensures CalcBytesForBits(2000) == Ok(250) && CalcBytesForBits(2041) == Err(BadByteCount(256))
    ensures CalcBytesForRegisters(125) == Ok(250) && CalcBytesForRegisters(128) == Err(BadByteCount(256))
  {
  }

  // ---------------------------------------------------------------------------
  // Bit packing

  /** Flags packed eight to a byte, the first flag of each byte in its least significant bit. */
  function PackBits(bits: seq<bool>): (r: seq<u8>)
    ensures |r| == (|bits| + 7) / 8
    decreases |bits|
  {
    if bits == [] then []
    else if |bits| <= 8 then [PackByte(bits)]
    else [PackByte(bits[..8])] + PackBits(bits[8..])
  }

  /** Flag `k` is bit `k % 8` of byte `k / 8`. */
  lemma {:induction false} PackBitsAt(bits: seq<bool>, k: nat)
    requires k < |bits|
    ensures Bit(PackBits(bits)[k / 8], k % 8) == bits[k]
  {
    if |bits| <= 8 {
      PackByteBit(bits, k);
    } else if k < 8 {
      PackByteBit(bits[..8], k);
    } else {
      PackBitsAt(bits[8..], k - 8);
      assert (k - 8) / 8 == k / 8 - 1 && (k - 8) % 8 == k % 8;
    }
  }

  /** The unused high bits of the last byte are zero. */
  lemma {:induction false} PackBitsPadding(bits: seq<bool>, k: nat)
    requires |bits| <= k < 8 * |PackBits(bits)|
    ensures !Bit(PackBits(bits)[k / 8], k % 8)
  {
    if |bits| <= 8 {
      BitAbove(PackByte(bits), |bits|, k % 8);
    } else {
      PackBitsPadding(bits[8..], k - 8);
      assert (k - 8) / 8 == k / 8 - 1 && (k - 8) % 8 == k % 8;
    }
  }

  /** Packing whole bytes and then a partial or whole byte. */
  lemma {:induction false} PackBitsAppend(a: seq<bool>, b: seq<bool>, bytes: nat)
    requires |a| == 8 * bytes && 1 <= |b| <= 8
    ensures PackBits(a + b) == PackBits(a) + [PackByte(b)]
    decreases bytes
  {
    if a != [] {
      assert (a + b)[..8] == a[..8];
      assert (a + b)[8..] == a[8..] + b;
      PackBitsAppend(a[8..], b, bytes - 1);
    } else {
      assert a + b == b;
    }
  }

  /** A bit iterator over packed flags yields the flags back, indexed from the range start. */
  lemma BitValuesOfPackBits(values: seq<bool>, range: AddressRange)
    requires range.IsValid() && range.count == |values|
    ensures BitValues(PackBits(values), range) == Enumerate(range.start, values)
  {
    var bytes := PackBits(values);
    assert BitsAvailable(bytes, range) == |values|;
    forall k | 0 <= k < |values|
      ensures BitValues(bytes, range)[k] == Enumerate(range.start, values)[k]
    {
      PackBitsAt(values, k);
    }
  }

  /** A register iterator over big-endian words yields the words back. */
  lemma RegisterValuesOfBeWords(values: seq<u16>, range: AddressRange)
    requires range.IsValid() && range.count == |values|
    ensures RegisterValues(BeWords(values), range) == Enumerate(range.start, values)
  {
    forall k | 0 <= k < |values|
      ensures RegisterValues(BeWords(values), range)[k] == Enumerate(range.start, values)[k]
    {
      BeWordsAt(values, k);
    }
  }

  // ---------------------------------------------------------------------------
  // Encodings

  function EncodeRange(range: AddressRange): (r: seq<u8>)
    ensures |r| == 4 && r[..2] == BeBytes(range.start) && r[2..] == BeBytes(range.count)
  {
    BeBytes(range.start) + BeBytes(range.count)
  }

  function EncodeIndexedCoil(x: Indexed<bool>): (r: seq<u8>)
    ensures |r| == 4 && r[..2] == BeBytes(x.index)
    ensures r[2..] == (if x.value then [0xFF, 0x00] else [0x00, 0x00])
  {
    BeBytes(x.index) + BeBytes(CoilToU16(x.value))
  }

  function EncodeIndexedRegister(x: Indexed<u16>): (r: seq<u8>)
    ensures |r| == 4 && r[..2] == BeBytes(x.index) && r[2..] == BeBytes(x.value)
  {
    BeBytes(x.index) + BeBytes(x.value)
  }

  /** `&[bool]`: the byte count, then the packed flags. */
  function EncodeCoils(values: seq<bool>): (r: Result<seq<u8>, RequestError>)
    ensures r.Ok? <==> |values| <= 2040
    ensures r.Ok? ==> |r.value| == 1 + (|values| + 7) / 8 && r.value[0] == |r.value| - 1
                      && r.value[1..] == PackBits(values)
    ensures r.Err? ==> r.error.Internal? && r.error.internal.BadByteCount?
  {
    match CalcBytesForBits(|values|)
    case Err(e) => Err(Internal(e))
    case Ok(n) => Ok([n] + PackBits(values))
  }

  /** `&[u16]`: the byte count, then each register big-endian. */
  function EncodeRegisters(values: seq<u16>): (r: Result<seq<u8>, RequestError>)
    ensures r.Ok? <==> |values| <= 127
    ensures r.Ok? ==> |r.value| == 1 + 2 * |values| && r.value[0] == 2 * |values|
                      && r.value[1..] == BeWords(values)
    ensures r.Err? ==> r.error == Internal(BadByteCount(2 * |values|))
  {
    match CalcBytesForRegisters(|values|)
    case Err(e) => Err(Internal(e))
    case Ok(n) => Ok([n] + BeWords(values))
  }

  /** Write-multiple requests: the range, then the values as a slice. */
  function EncodeWriteMultipleCoils(range: AddressRange, values: seq<bool>): (r: Result<seq<u8>, RequestError>)
    ensures r.Ok? <==> |values| <= 2040
    ensures r.Ok? ==> |r.value| >= 4 && r.value[..4] == EncodeRange(range) && Ok(r.value[4..]) == EncodeCoils(values)
  {
    var tail :- EncodeCoils(values);
    Ok(EncodeRange(range) + tail)
  }

  function EncodeWriteMultipleRegisters(range: AddressRange, values: seq<u16>): (r: Result<seq<u8>, RequestError>)
    ensures r.Ok? <==> |values| <= 127
    ensures r.Ok? ==> |r.value| >= 4 && r.value[..4] == EncodeRange(range) && Ok(r.value[4..]) == EncodeRegisters(values)
  {
    var tail :- EncodeRegisters(values);
    Ok(EncodeRange(range) + tail)
  }

  /**
   * The custom-function-code request of `serialize.rs`: the function code, the two
   * byte counts as given, then the data words.
   */
  datatype CustomFunctionCode = CustomFunctionCode(functionCode: u8, byteCountIn: u8, byteCountOut: u8, data: seq<u16>)

  function EncodeCustomFunctionCode(c: CustomFunctionCode): (r: seq<u8>)
    ensures |r| == 3 + 2 * |c.data|
    ensures r[..3] == [c.functionCode, c.byteCountIn, c.byteCountOut] && r[3..] == BeWords(c.data)
  {
    [c.functionCode, c.byteCountIn, c.byteCountOut] + BeWords(c.data)
  }

  lemma EncodeExamples()
    ensures EncodeRange(AddressRange(3, 512)) == [0x00, 0x03, 0x02, 0x00]
    ensures EncodeCustomFunctionCode(CustomFunctionCode(69, 1, 1, [0x0000])) == [0x45, 0x01, 0x01, 0x00, 0x00]
    ensures EncodeCustomFunctionCode(CustomFunctionCode(69, 1, 1, [0xFFFF])) == [0x45, 0x01, 0x01, 0xFF, 0xFF]
    ensures EncodeCustomFunctionCode(CustomFunctionCode(69, 3, 3, [0xFFFF, 0xFFFF, 0xFFFF]))
            == [0x45, 0x03, 0x03, 0xFF, 0xFF, 0xFF, 0xFF, 0xFF, 0xFF]
  {
  }

  /**
   * The values `getter` gives for `addrs`, in order; the first address whose getter
   * fails, in order, decides the error.
   */
  function ReadAll<T>(getter: u16 -> Result<T, ExceptionCode>, addrs: seq<u16>): Result<seq<T>, ExceptionCode>
    decreases |addrs|
  {
    if addrs == [] then Ok([])
    else
      var init :- ReadAll(getter, addrs[..|addrs| - 1]);
      var v :- getter(addrs[|addrs| - 1]);
      Ok(init + [v])
  }

  /**
   * `ReadAll` succeeds exactly when every getter does, and then holds their values
   * in order; otherwise it fails with the error of the first getter that fails.
   */
  lemma {:induction false} ReadAllSpec<T>(getter: u16 -> Result<T, ExceptionCode>, addrs: seq<u16>)
    ensures ReadAll(getter, addrs).Ok? <==> forall k :: 0 <= k < |addrs| ==> getter(addrs[k]).Ok?
    ensures ReadAll(getter, addrs).Ok? ==>
              |ReadAll(getter, addrs).value| == |addrs|
              && forall k :: 0 <= k < |addrs| ==> getter(addrs[k]) == Ok(ReadAll(getter, addrs).value[k])
    ensures ReadAll(getter, addrs).Err? ==>
              exists k :: 0 <= k < |addrs| && getter(addrs[k]) == Err(ReadAll(getter, addrs).error)
                          && forall j :: 0 <= j < k ==> getter(addrs[j]).Ok?
    decreases |addrs|
  {
    if addrs != [] {
      var n := |addrs| - 1;
      var init := addrs[..n];
      ReadAllSpec(getter, init);
      assert forall k :: 0 <= k < n ==> init[k] == addrs[k];
      if ReadAll(getter, init).Err? {
        var i :| 0 <= i < n && getter(init[i]) == Err(ReadAll(getter, init).error)
                 && forall j :: 0 <= j < i ==> getter(init[j]).Ok?;
        assert getter(addrs[i]) == Err(ReadAll(getter, addrs).error);
      } else if getter(addrs[n]).Err? {
        assert getter(addrs[n]) == Err(ReadAll(getter, addrs).error);
      }
    }
  }

  lemma {:induction false} ReadAllLength<T>(getter: u16 -> Result<T, ExceptionCode>, addrs: seq<u16>)
    ensures ReadAll(getter, addrs).Ok? ==> |ReadAll(getter, addrs).value| == |addrs|
    decreases |addrs|
  {
    if addrs != [] {
      ReadAllLength(getter, addrs[..|addrs| - 1]);
    }
  }

  /** One more address: the prefix's error stays, otherwise the next getter decides. */
  lemma ReadAllStep<T>(getter: u16 -> Result<T, ExceptionCode>, addrs: seq<u16>, k: nat)
    requires k < |addrs|
    ensures ReadAll(getter, addrs[..k]).Err? ==> ReadAll(getter, addrs[..k + 1]) == ReadAll(getter, addrs[..k])
    ensures ReadAll(getter, addrs[..k]).Ok? && getter(addrs[k]).Err? ==>
              ReadAll(getter, addrs[..k + 1]) == Err(getter(addrs[k]).error)
    ensures ReadAll(getter, addrs[..k]).Ok? && getter(addrs[k]).Ok? ==>
              ReadAll(getter, addrs[..k + 1]) == Ok(ReadAll(getter, addrs[..k]).value + [getter(addrs[k]).value])
  {
    assert addrs[..k + 1][..k] == addrs[..k];
  }

  /** Once a prefix has failed, the whole sequence fails with the same error. */
  lemma {:induction false} ReadAllKeepsError<T>(getter: u16 -> Result<T, ExceptionCode>, addrs: seq<u16>, m: nat)
    requires m <= |addrs| && ReadAll(getter, addrs[..m]).Err?
    ensures ReadAll(getter, addrs) == ReadAll(getter, addrs[..m])
    decreases |addrs| - m
  {
    if m < |addrs| {
      ReadAllStep(getter, addrs, m);
      ReadAllKeepsError(getter, addrs, m + 1);
    } else {
      assert addrs[..m] == addrs;
    }
  }

  /** The error of `ReadAll` is that of the first failing getter. */
  lemma ReadAllFirstError<T>(getter: u16 -> Result<T, ExceptionCode>, addrs: seq<u16>, k: nat)
    requires k < |addrs| && ReadAll(getter, addrs[..k]).Ok? && getter(addrs[k]).Err?
    ensures ReadAll(getter, addrs) == Err(getter(addrs[k]).error)
  {
    ReadAllStep(getter, addrs, k);
    ReadAllKeepsError(getter, addrs, k + 1);
  }

  /** `BitWriter`: the byte count, then the getter's flags for every address of the range. */
  function EncodeBitWriter(range: AddressRange, getter: u16 -> Result<bool, ExceptionCode>): (r: Result<seq<u8>, RequestError>)
    requires range.IsValid()
  {
    match CalcBytesForBits(range.count)
    case Err(e) => Err(Internal(e))
    case Ok(n) =>
      match ReadAll(getter, Addresses(range))
      case Err(ex) => Err(Exception(ex))
      case Ok(values) => Ok([n] + PackBits(values))
  }

  /** `RegisterWriter`: the byte count, then the getter's register for every address of the range. */
  function EncodeRegisterWriter(range: AddressRange, getter: u16 -> Result<u16, ExceptionCode>): (r: Result<seq<u8>, RequestError>)
    requires range.IsValid()
  {
    match CalcBytesForRegisters(range.count)
    case Err(e) => Err(Internal(e))
    case Ok(n) =>
      match ReadAll(getter, Addresses(range))
      case Err(ex) => Err(Exception(ex))
      case Ok(values) => Ok([n] + BeWords(values))
  }

  /** What the writers promise about a read reply: its length, count byte and content. */
  lemma EncodeBitWriterSpec(range: AddressRange, getter: u16 -> Result<bool, ExceptionCode>)
    requires range.IsValid() && range.count <= 2000
    ensures EncodeBitWriter(range, getter).Ok? <==> ReadAll(getter, Addresses(range)).Ok?
    ensures ReadAll(getter, Addresses(range)).Ok? ==> |ReadAll(getter, Addresses(range)).value| == range.count
    ensures EncodeBitWriter(range, getter).Ok? ==>
              var bytes := EncodeBitWriter(range, getter).value;
              |bytes| == 1 + Bits.NumBytesForBits(range.count) && bytes[0] == |bytes| - 1
              && BitValues(bytes[1..], range) == Enumerate(range.start, ReadAll(getter, Addresses(range)).value)
    ensures EncodeBitWriter(range, getter).Err? ==>
              EncodeBitWriter(range, getter).error == Exception(ReadAll(getter, Addresses(range)).error)
  {
    var all := ReadAll(getter, Addresses(range));
    ReadAllSpec(getter, Addresses(range));
    if all.Ok? {
      var bytes := EncodeBitWriter(range, getter).value;
      assert bytes[1..] == PackBits(all.value);
      BitValuesOfPackBits(all.value, range);
    }
  }

  lemma EncodeRegisterWriterSpec(range: AddressRange, getter: u16 -> Result<u16, ExceptionCode>)
    requires range.IsValid() && range.count <= 125
    ensures EncodeRegisterWriter(range, getter).Ok? <==> ReadAll(getter, Addresses(range)).Ok?
    ensures ReadAll(getter, Addresses(range)).Ok? ==> |ReadAll(getter, Addresses(range)).value| == range.count
    ensures EncodeRegisterWriter(range, getter).Ok? ==>
              var bytes := EncodeRegisterWriter(range, getter).value;
              |bytes| == 1 + 2 * range.count && bytes[0] == 2 * range.count
              && RegisterValues(bytes[1..], range) == Enumerate(range.start, ReadAll(getter, Addresses(range)).value)
    ensures EncodeRegisterWriter(range, getter).Err? ==>
              EncodeRegisterWriter(range, getter).error == Exception(ReadAll(getter, Addresses(range)).error)
  {
    var all := ReadAll(getter, Addresses(range));
    ReadAllSpec(getter, Addresses(range));
    if all.Ok? {
      var bytes := EncodeRegisterWriter(range, getter).value;
      assert bytes[1..] == BeWords(all.value);
      RegisterValuesOfBeWords(all.value, range);
    }
  }

  // ---------------------------------------------------------------------------
  // Serializers

  /**
   * The cursor after a serializer meant to produce `spec` from position `at` of the
   * buffer `before`. It succeeds exactly when the encoding exists and fits, and
   * then it has written those bytes and nothing else. A failing encoding reports
   * its own error whenever the first `room` bytes fit.
   */
  ghost predicate Outcome(cur: WriteCursor, before: seq<u8>, at: nat, spec: Result<seq<u8>, RequestError>,
                          room: nat, r: Result<(), RequestError>)
    reads cur, cur.dest
  {
    && cur.Valid()
    && (r.Ok? <==> spec.Ok? && at + |spec.value| <= |before|)
    && (r.Ok? ==> cur.pos == at + |spec.value| && Wrote(before, at, cur.dest[..], spec.value))
    && (r.Err? && spec.Ok? ==> r.error.Internal? && r.error.internal.InsufficientWriteSpace?)
    && (spec.Err? && at + room <= |before| ==> r == Err(spec.error))
  }

  /** Writes one byte after `written`, mapping a full buffer to `RequestError::Internal`. */
  method PutU8(cur: WriteCursor, value: u8, ghost before: seq<u8>, ghost at: nat, ghost written: seq<u8>)
    returns (r: Result<(), RequestError>)
    requires cur.Valid() && cur.pos == at + |written| && Wrote(before, at, cur.dest[..], written)
    modifies cur, cur.dest
    ensures cur.Valid()
    ensures r.Ok? <==> at + |written| + 1 <= |before|
    ensures r.Ok? ==> cur.pos == at + |written| + 1 && Wrote(before, at, cur.dest[..], written + [value])
    ensures r.Err? ==> r.error.Internal? && r.error.internal.InsufficientWriteSpace?
  {
    ghost var mid := cur.dest[..];
    var w := cur.WriteU8(value);
    if w.Err? {
      return Err(Internal(w.error));
    }
    WroteThen(before, at, mid, written, cur.dest[..], [value]);
    r := Ok(());
  }

  /** Writes one big-endian register after `written`. */
  method PutU16Be(cur: WriteCursor, value: u16, ghost before: seq<u8>, ghost at: nat, ghost written: seq<u8>)
    returns (r: Result<(), RequestError>)
    requires cur.Valid() && cur.pos == at + |written| && Wrote(before, at, cur.dest[..], written)
    modifies cur, cur.dest
    ensures cur.Valid()
    ensures r.Ok? <==> at + |written| + 2 <= |before|
    ensures r.Ok? ==> cur.pos == at + |written| + 2 && Wrote(before, at, cur.dest[..], written + BeBytes(value))
    ensures r.Err? ==> r.error.Internal? && r.error.internal.InsufficientWriteSpace?
  {
    ghost var mid := cur.dest[..];
    var w := cur.WriteU16Be(value);
    if w.Err? {
      return Err(Internal(w.error));
    }
    WroteThen(before, at, mid, written, cur.dest[..], BeBytes(value));
    r := Ok(());
  }

  /** Writes `values` big-endian after `written`, one register at a time. */
  method PutWords(cur: WriteCursor, values: seq<u16>, ghost before: seq<u8>, ghost at: nat, ghost written: seq<u8>)
    returns (r: Result<(), RequestError>)
    requires cur.Valid() && cur.pos == at + |written| && Wrote(before, at, cur.dest[..], written)
    modifies cur, cur.dest
    ensures cur.Valid()
    ensures r.Ok? <==> at + |written| + 2 * |values| <= |before|
    ensures r.Ok? ==> cur.pos == at + |written| + 2 * |values| && Wrote(before, at, cur.dest[..], written + BeWords(values))
    ensures r.Err? ==> r.error.Internal? && r.error.internal.InsufficientWriteSpace?
  {
    assert written + BeWords(values[..0]) == written;
    var k := 0;
    while k < |values|
      invariant k <= |values|
      invariant cur.Valid() && cur.pos == at + |written| + 2 * k
      invariant Wrote(before, at, cur.dest[..], written + BeWords(values[..k]))
    {
      ghost var sofar := written + BeWords(values[..k]);
      r := PutU16Be(cur, values[k], before, at, sofar);
      if r.Err? {
        return;
      }
      BeWordsSnoc(values[..k], values[k]);
      assert values[..k + 1] == values[..k] + [values[k]];
      assert sofar + BeBytes(values[k]) == written + BeWords(values[..k + 1]);
      k := k + 1;
    }
    assert values[..k] == values;
    r := Ok(());
  }

  /** Writes `bytes` after `written`, one at a time. */
  method PutBytes(cur: WriteCursor, bytes: seq<u8>, ghost before: seq<u8>, ghost at: nat, ghost written: seq<u8>)
    returns (r: Result<(), RequestError>)
    requires cur.Valid() && cur.pos == at + |written| && Wrote(before, at, cur.dest[..], written)
    modifies cur, cur.dest
    ensures cur.Valid()
    ensures r.Ok? <==> at + |written| + |bytes| <= |before|
    ensures r.Ok? ==> cur.pos == at + |written| + |bytes| && Wrote(before, at, cur.dest[..], written + bytes)
    ensures r.Err? ==> r.error.Internal? && r.error.internal.InsufficientWriteSpace?
  {
    assert written + bytes[..0] == written;
    var k := 0;
    while k < |bytes|
      invariant k <= |bytes|
      invariant cur.Valid() && cur.pos == at + |written| + k
      invariant Wrote(before, at, cur.dest[..], written + bytes[..k])
    {
      r := PutU8(cur, bytes[k], before, at, written + bytes[..k]);
      if r.Err? {
        return;
      }
      assert written + bytes[..k] + [bytes[k]] == written + bytes[..k + 1];
      k := k + 1;
    }
    assert bytes[..k] == bytes;
    r := Ok(());
  }

  /** Writes `values` eight flags to a byte after `written`, the last byte zero-padded. */
  method PutPackedBits(cur: WriteCursor, values: seq<bool>, ghost before: seq<u8>, ghost at: nat, ghost written: seq<u8>)
    returns (r: Result<(), RequestError>)
    requires cur.Valid() && cur.pos == at + |written| && Wrote(before, at, cur.dest[..], written)
    modifies cur, cur.dest
    ensures cur.Valid()
    ensures r.Ok? <==> at + |written| + |PackBits(values)| <= |before|
    ensures r.Ok? ==> cur.pos == at + |written| + |PackBits(values)|
                      && Wrote(before, at, cur.dest[..], written + PackBits(values))
    ensures r.Err? ==> r.error.Internal? && r.error.internal.InsufficientWriteSpace?
  {
    assert written + PackBits(values[..0]) == written;
    var i := 0;
    ghost var full := 0;
    while i < |values|
      invariant i <= |values| && (i == 8 * full || i == |values|) && i <= 8 * full < i + 8
      invariant |PackBits(values[..i])| == full
      invariant cur.Valid() && cur.pos == at + |written| + full
      invariant Wrote(before, at, cur.dest[..], written + PackBits(values[..i]))
    {
      var end := if i + 8 <= |values| then i + 8 else |values|;
      var acc := PackChunk(values[i..end]);
      ghost var sofar := written + PackBits(values[..i]);
      r := PutU8(cur, acc, before, at, sofar);
      if r.Err? {
        assert |PackBits(values)| == (|values| + 7) / 8 > full;
        return;
      }
      PackBitsAppend(values[..i], values[i..end], full);
      assert values[..i] + values[i..end] == values[..end];
      assert sofar + [acc] == written + PackBits(values[..end]);
      i, full := end, full + 1;
    }
    assert values[..i] == values;
    r := Ok(());
  }

  method SerializeAddressRange(range: AddressRange, cur: WriteCursor) returns (r: Result<(), RequestError>)
    requires cur.Valid()
    modifies cur, cur.dest
    ensures Outcome(cur, old(cur.dest[..]), old(cur.pos), Ok(EncodeRange(range)), 0, r)
  {
    ghost var before := cur.dest[..];
    ghost var at := cur.pos;
    WroteNothing(before, at);
    r := PutU16Be(cur, range.start, before, at, []);
    if r.Err? {
      return;
    }
    assert [] + BeBytes(range.start) == BeBytes(range.start);
    r := PutU16Be(cur, range.count, before, at, BeBytes(range.start));
  }

  method SerializeIndexedCoil(x: Indexed<bool>, cur: WriteCursor) returns (r: Result<(), RequestError>)
    requires cur.Valid()
    modifies cur, cur.dest
    ensures Outcome(cur, old(cur.dest[..]), old(cur.pos), Ok(EncodeIndexedCoil(x)), 0, r)
  {
    ghost var before := cur.dest[..];
    ghost var at := cur.pos;
    WroteNothing(before, at);
    r := PutU16Be(cur, x.index, before, at, []);
    if r.Err? {
      return;
    }
    assert [] + BeBytes(x.index) == BeBytes(x.index);
    r := PutU16Be(cur, CoilToU16(x.value), before, at, BeBytes(x.index));
  }

  method SerializeIndexedRegister(x: Indexed<u16>, cur: WriteCursor) returns (r: Result<(), RequestError>)
    requires cur.Valid()
    modifies cur, cur.dest
    ensures Outcome(cur, old(cur.dest[..]), old(cur.pos), Ok(EncodeIndexedRegister(x)), 0, r)
  {
    ghost var before := cur.dest[..];
    ghost var at := cur.pos;
    WroteNothing(before, at);
    r := PutU16Be(cur, x.index, before, at, []);
    if r.Err? {
      return;
    }
    assert [] + BeBytes(x.index) == BeBytes(x.index);
    r := PutU16Be(cur, x.value, before, at, BeBytes(x.index));
  }

  /** The inner loop of `&[bool]` serialization: `acc |= 1 << count` for each set flag. */
  method PackChunk(bits: seq<bool>) returns (acc: u8)
    requires |bits| <= 8
    ensures acc == PackByte(bits)
  {
    var a: nat := 0;
    var count := 0;
    while count < |bits|
      invariant count <= |bits| && a == PackByte(bits[..count])
    {
      PackByteSnoc(bits[..count], bits[count]);
      assert bits[..count + 1] == bits[..count] + [bits[count]];
      if bits[count] {
        a := a + Pow2(count);
      }
      count := count + 1;
    }
    assert bits[..count] == bits;
    acc := a;
  }

  /** `&[bool]`: the byte count, then each chunk of eight flags accumulated into one byte. */
  method SerializeCoils(values: seq<bool>, cur: WriteCursor) returns (r: Result<(), RequestError>)
    requires cur.Valid()
    modifies cur, cur.dest
    ensures Outcome(cur, old(cur.dest[..]), old(cur.pos), EncodeCoils(values), 0, r)
  {
    ghost var before := cur.dest[..];
    ghost var at := cur.pos;
    var numBytes := CalcBytesForBits(|values|);
    if numBytes.Err? {
      return Err(Internal(numBytes.error));
    }
    WroteNothing(before, at);
    r := PutU8(cur, numBytes.value, before, at, []);
    if r.Err? {
      return;
    }
    assert [] + [numBytes.value] + PackBits(values) == EncodeCoils(values).value;
    r := PutPackedBits(cur, values, before, at, [] + [numBytes.value]);
  }

  /** `&[u16]`: the byte count, then each register big-endian. */
  method SerializeRegisters(values: seq<u16>, cur: WriteCursor) returns (r: Result<(), RequestError>)
    requires cur.Valid()
    modifies cur, cur.dest
    ensures Outcome(cur, old(cur.dest[..]), old(cur.pos), EncodeRegisters(values), 0, r)
  {
    ghost var before := cur.dest[..];
    ghost var at := cur.pos;
    var numBytes := CalcBytesForRegisters(|values|);
    if numBytes.Err? {
      return Err(Internal(numBytes.error));
    }
    WroteNothing(before, at);
    r := PutU8(cur, numBytes.value, before, at, []);
    if r.Err? {
      return;
    }
    assert [] + [numBytes.value] + BeWords(values) == EncodeRegisters(values).value;
    r := PutWords(cur, values, before, at, [] + [numBytes.value]);
  }

  method SerializeWriteMultipleCoils(range: AddressRange, values: seq<bool>, cur: WriteCursor)
    returns (r: Result<(), RequestError>)
    requires cur.Valid()
    modifies cur, cur.dest
    ensures Outcome(cur, old(cur.dest[..]), old(cur.pos), EncodeWriteMultipleCoils(range, values), 4, r)
  {
    ghost var before := cur.dest[..];
    ghost var at := cur.pos;
    r := SerializeAddressRange(range, cur);
    if r.Err? {
      return;
    }
    ghost var mid := cur.dest[..];
    r := SerializeCoils(values, cur);
    if r.Ok? {
      WroteThen(before, at, mid, EncodeRange(range), cur.dest[..], EncodeCoils(values).value);
    }
  }

  method SerializeWriteMultipleRegisters(range: AddressRange, values: seq<u16>, cur: WriteCursor)
    returns (r: Result<(), RequestError>)
    requires cur.Valid()
    modifies cur, cur.dest
    ensures Outcome(cur, old(cur.dest[..]), old(cur.pos), EncodeWriteMultipleRegisters(range, values), 4, r)
  {
    ghost var before := cur.dest[..];
    ghost var at := cur.pos;
    r := SerializeAddressRange(range, cur);
    if r.Err? {
      return;
    }
    ghost var mid := cur.dest[..];
    r := SerializeRegisters(values, cur);
    if r.Ok? {
      WroteThen(before, at, mid, EncodeRange(range), cur.dest[..], EncodeRegisters(values).value);
    }
  }

  method SerializeCustomFunctionCode(c: CustomFunctionCode, cur: WriteCursor) returns (r: Result<(), RequestError>)
    requires cur.Valid()
    modifies cur, cur.dest
    ensures Outcome(cur, old(cur.dest[..]), old(cur.pos), Ok(EncodeCustomFunctionCode(c)), 0, r)
  {
    ghost var before := cur.dest[..];
    ghost var at := cur.pos;
    WroteNothing(before, at);
    r := PutU8(cur, c.functionCode, before, at, []);
    if r.Err? {
      return;
    }
    r := PutU8(cur, c.byteCountIn, before, at, [] + [c.functionCode]);
    if r.Err? {
      return;
    }
    r := PutU8(cur, c.byteCountOut, before, at, [] + [c.functionCode] + [c.byteCountIn]);
    if r.Err? {
      return;
    }
    ghost var header := [] + [c.functionCode] + [c.byteCountIn] + [c.byteCountOut];
    assert header + BeWords(c.data) == EncodeCustomFunctionCode(c);
    r := PutWords(cur, c.data, before, at, header);
  }

  /**
   * One flag of `BitWriter::serialize`: `acc |= 1 << num_bits` when it is set, and
   * the byte written out once it holds eight flags. `done` are the flags already
   * written as whole bytes, `pending` those held in `acc`.
   */
  method PushBit(cur: WriteCursor, acc: u8, numBits: nat, bit: bool, ghost before: seq<u8>, ghost at: nat,
                 ghost header: seq<u8>, ghost done: seq<bool>, ghost pending: seq<bool>, ghost full: nat)
    returns (r: Result<(), RequestError>, acc': u8, numBits': nat,
             ghost done': seq<bool>, ghost pending': seq<bool>, ghost full': nat)
    requires numBits == |pending| < 8 && |done| == 8 * full && acc == PackByte(pending)
    requires cur.Valid() && cur.pos == at + |header| + full
    requires Wrote(before, at, cur.dest[..], header + PackBits(done))
    modifies cur, cur.dest
    ensures cur.Valid()
    ensures r.Ok? ==> done' + pending' == done + pending + [bit]
                      && numBits' == |pending'| < 8 && |done'| == 8 * full' && acc' == PackByte(pending')
                      && cur.pos == at + |header| + full'
                      && Wrote(before, at, cur.dest[..], header + PackBits(done'))
    ensures r.Err? ==> r.error.Internal? && r.error.internal.InsufficientWriteSpace?
                       && numBits == 7 && at + |header| + full + 1 > |before|
  {
    full' := full;
    PackByteSnoc(pending, bit);
    var a: nat := acc;
    if bit {
      a := a + Pow2(numBits);
    }
    acc', numBits', done', pending' := a, numBits + 1, done, pending + [bit];
    if numBits' == 8 {
      r := PutU8(cur, acc', before, at, header + PackBits(done));
      if r.Err? {
        return;
      }
      FlushByte(header, done, pending, bit, full);
      acc', numBits', done', pending', full' := 0, 0, done + pending', [], full + 1;
    }
    r := Ok(());
  }

  /** The eighth flag completes a byte: the flags, regrouped, and the bytes written so far. */
  lemma FlushByte(header: seq<u8>, done: seq<bool>, pending: seq<bool>, bit: bool, full: nat)
    requires |done| == 8 * full && |pending| == 7
    ensures done + (pending + [bit]) + [] == done + pending + [bit]
    ensures header + PackBits(done) + [PackByte(pending + [bit])] == header + PackBits(done + (pending + [bit]))
  {
    PackBitsAppend(done, pending + [bit], full);
  }

  /**
   * The address loop of `BitWriter::serialize`, after the byte count `header`: the
   * getter's flag for each address in ascending order, accumulated into `acc` and
   * flushed each time eight flags are in. It returns the partial byte still held.
   */
  method WriteBitsLoop(inner: AddressRange, getter: u16 -> Result<bool, ExceptionCode>, cur: WriteCursor,
                       ghost before: seq<u8>, ghost at: nat, ghost header: seq<u8>)
    returns (r: Result<(), RequestError>, acc: u8, numBits: nat,
             ghost done: seq<bool>, ghost pending: seq<bool>, ghost full: nat)
    requires inner.IsValid() && cur.Valid()
    requires cur.pos == at + |header| && Wrote(before, at, cur.dest[..], header)
    modifies cur, cur.dest
    ensures cur.Valid()
    ensures r.Ok? ==> ReadAll(getter, Addresses(inner)) == Ok(done + pending)
                      && numBits == |pending| < 8 && |done| == 8 * full && acc == PackByte(pending)
                      && cur.pos == at + |header| + full
                      && Wrote(before, at, cur.dest[..], header + PackBits(done))
    ensures r.Err? ==>
              || (r.error.Internal? && r.error.internal.InsufficientWriteSpace?
                  && 8 * (|before| + 1 - at - |header|) <= inner.count)
              || (ReadAll(getter, Addresses(inner)).Err? && r == Err(Exception(ReadAll(getter, Addresses(inner)).error)))
  {
    ghost var addrs := Addresses(inner);
    acc, numBits := 0, 0;
    done, pending, full := [], [], 0;
    var k := 0;
    assert header + PackBits([]) == header;
    assert done + pending == [];
    while k < inner.count
      invariant 0 <= k <= inner.count
      invariant BitsSoFar(getter, addrs, k, acc, numBits, done, pending, full)
      invariant cur.Valid() && cur.pos == at + |header| + full
      invariant Wrote(before, at, cur.dest[..], header + PackBits(done))
    {
      r, acc, numBits, done, pending, full := NextBit(inner, getter, cur, before, at, header, k, acc, numBits, done, pending, full);
      if r.Err? {
        return r, 0, 0, done, pending, full;
      }
      k := k + 1;
    }
    assert addrs[..k] == addrs;
    r := Ok(());
  }

  /** The state of `WriteBitsLoop` after `k` addresses: the flags read so far, in whole bytes and a partial one. */
  ghost predicate BitsSoFar(getter: u16 -> Result<bool, ExceptionCode>, addrs: seq<u16>, k: nat, acc: u8, numBits: nat,
                            done: seq<bool>, pending: seq<bool>, full: nat)
  {
    k <= |addrs| && k == |done| + |pending| && numBits == |pending| < 8 && |done| == 8 * full
    && acc == PackByte(pending) && ReadAll(getter, addrs[..k]) == Ok(done + pending)
  }

  /** One address of `WriteBitsLoop`: its flag read and pushed, or the getter's exception. */
  method NextBit(inner: AddressRange, getter: u16 -> Result<bool, ExceptionCode>, cur: WriteCursor,
                 ghost before: seq<u8>, ghost at: nat, ghost header: seq<u8>, k: nat, acc: u8, numBits: nat,
                 ghost done: seq<bool>, ghost pending: seq<bool>, ghost full: nat)
    returns (r: Result<(), RequestError>, acc': u8, numBits': nat,
             ghost done': seq<bool>, ghost pending': seq<bool>, ghost full': nat)
    requires inner.IsValid() && k < inner.count && k == |done| + |pending|
    requires numBits == |pending| < 8 && |done| == 8 * full && acc == PackByte(pending)
    requires ReadAll(getter, Addresses(inner)[..k]) == Ok(done + pending)
    requires cur.Valid() && cur.pos == at + |header| + full
    requires Wrote(before, at, cur.dest[..], header + PackBits(done))
    modifies cur, cur.dest
    ensures cur.Valid()
    ensures r.Ok? ==> k + 1 == |done'| + |pending'|
                      && numBits' == |pending'| < 8 && |done'| == 8 * full' && acc' == PackByte(pending')
                      && ReadAll(getter, Addresses(inner)[..k + 1]) == Ok(done' + pending')
                      && cur.pos == at + |header| + full'
                      && Wrote(before, at, cur.dest[..], header + PackBits(done'))
    ensures r.Err? ==>
              || (r.error.Internal? && r.error.internal.InsufficientWriteSpace?
                  && 8 * (|before| + 1 - at - |header|) <= inner.count)
              || (ReadAll(getter, Addresses(inner)).Err? && r == Err(Exception(ReadAll(getter, Addresses(inner)).error)))
  {
    ghost var addrs := Addresses(inner);
    var value := getter(inner.start + k);
    assert addrs[k] == inner.start + k;
    ReadAllStep(getter, addrs, k);
    if value.Err? {
      ReadAllFirstError(getter, addrs, k);
      return Err(Exception(value.error)), 0, 0, done, pending, full;
    }
    ghost var sofar := done + pending;
    assert ReadAll(getter, addrs[..k + 1]) == Ok(sofar + [value.value]);
    r, acc', numBits', done', pending', full' := PushBit(cur, acc, numBits, value.value, before, at, header, done, pending, full);
    if r.Err? {
      assert k + 1 == 8 * full + 8 <= inner.count;
    }
  }

  /**
   * `BitWriter::serialize`: the byte count, then the getter's flag for each address
   * of the range in ascending order, a byte at a time, then any partial byte; the
   * first getter exception ends the serialization with that exception.
   */
  method SerializeBitWriter(range: ReadBitsRange, getter: u16 -> Result<bool, ExceptionCode>, cur: WriteCursor)
    returns (r: Result<(), RequestError>)
    requires range.inner.IsValid() && cur.Valid()
    modifies cur, cur.dest
    ensures Outcome(cur, old(cur.dest[..]), old(cur.pos), EncodeBitWriter(range.inner, getter),
                    1 + Bits.NumBytesForBits(range.inner.count), r)
  {
    ghost var before := cur.dest[..];
    ghost var at := cur.pos;
    var inner := range.inner;
    ReadAllLength(getter, Addresses(inner));
    var numBytes := CalcBytesForBits(inner.count);
    if numBytes.Err? {
      return Err(Internal(numBytes.error));
    }
    WroteNothing(before, at);
    r := PutU8(cur, numBytes.value, before, at, []);
    if r.Err? {
      return;
    }
    assert [] + [numBytes.value] == [numBytes.value];
    r := WriteBits(inner, getter, cur, before, at, [numBytes.value]);
  }

  /** The flags of `BitWriter::serialize` after the byte count: the full bytes, then any partial byte. */
  method WriteBits(inner: AddressRange, getter: u16 -> Result<bool, ExceptionCode>, cur: WriteCursor,
                   ghost before: seq<u8>, ghost at: nat, ghost header: seq<u8>)
    returns (r: Result<(), RequestError>)
    requires inner.IsValid() && cur.Valid()
    requires cur.pos == at + |header| && Wrote(before, at, cur.dest[..], header)
    modifies cur, cur.dest
    ensures cur.Valid()
    ensures r.Ok? ==> ReadAll(getter, Addresses(inner)).Ok?
                      && cur.pos == at + |header| + Bits.NumBytesForBits(inner.count)
                      && Wrote(before, at, cur.dest[..], header + PackBits(ReadAll(getter, Addresses(inner)).value))
    ensures r.Err? ==>
              || (r.error.Internal? && r.error.internal.InsufficientWriteSpace?
                  && at + |header| + Bits.NumBytesForBits(inner.count) > |before|)
              || (ReadAll(getter, Addresses(inner)).Err? && r == Err(Exception(ReadAll(getter, Addresses(inner)).error)))
  {
    var acc, numBits;
    ghost var done, pending, full;
    r, acc, numBits, done, pending, full := WriteBitsLoop(inner, getter, cur, before, at, header);
    if r.Err? {
      return;
    }
    ReadAllLength(getter, Addresses(inner));
    ghost var values := done + pending;
    assert ReadAll(getter, Addresses(inner)).value == values;
    PartialByte(inner.count, full, numBits);
    if numBits > 0 {
      r := PutU8(cur, acc, before, at, header + PackBits(done));
      if r.Err? {
        return;
      }
      PackBitsAppend(done, pending, full);
      assert header + PackBits(done) + [acc] == header + PackBits(values);
    } else {
      assert values == done;
    }
  }

  /** `count` flags are `full` whole bytes and `numBits` more: one more byte exactly when `numBits > 0`. */
  lemma PartialByte(count: u16, full: nat, numBits: nat)
    requires count == 8 * full + numBits && numBits < 8
    ensures Bits.NumBytesForBits(count) == if numBits > 0 then full + 1 else full
  {
  }

  /**
   * The address loop of `RegisterWriter::serialize`, after the byte count `header`:
   * the getter's register for each address in ascending order.
   */
  method WriteRegistersLoop(inner: AddressRange, getter: u16 -> Result<u16, ExceptionCode>, cur: WriteCursor,
                            ghost before: seq<u8>, ghost at: nat, ghost header: seq<u8>)
    returns (r: Result<(), RequestError>)
    requires inner.IsValid() && cur.Valid()
    requires cur.pos == at + |header| && Wrote(before, at, cur.dest[..], header)
    modifies cur, cur.dest
    ensures cur.Valid()
    ensures r.Ok? ==> ReadAll(getter, Addresses(inner)).Ok? && cur.pos == at + |header| + 2 * inner.count
                      && Wrote(before, at, cur.dest[..], header + BeWords(ReadAll(getter, Addresses(inner)).value))
    ensures r.Err? ==>
              || (r.error.Internal? && r.error.internal.InsufficientWriteSpace?
                  && at + |header| + 2 * inner.count > |before|)
              || (ReadAll(getter, Addresses(inner)).Err? && r == Err(Exception(ReadAll(getter, Addresses(inner)).error)))
  {
    ghost var addrs := Addresses(inner);
    ghost var vals: seq<u16> := [];
    var k := 0;
    assert header + BeWords([]) == header;
    while k < inner.count
      invariant 0 <= k <= inner.count
      invariant |vals| == k && ReadAll(getter, addrs[..k]) == Ok(vals)
      invariant cur.Valid() && cur.pos == at + |header| + 2 * k
      invariant Wrote(before, at, cur.dest[..], header + BeWords(vals))
    {
      r, vals := NextRegister(inner, getter, cur, before, at, header, k, vals);
      if r.Err? {
        return;
      }
      k := k + 1;
    }
    assert addrs[..k] == addrs;
    r := Ok(());
  }

  /** One address of `WriteRegistersLoop`: its register read and written, or the getter's exception. */
  method NextRegister(inner: AddressRange, getter: u16 -> Result<u16, ExceptionCode>, cur: WriteCursor,
                      ghost before: seq<u8>, ghost at: nat, ghost header: seq<u8>, k: nat, ghost vals: seq<u16>)
    returns (r: Result<(), RequestError>, ghost vals': seq<u16>)
    requires inner.IsValid() && k < inner.count
    requires |vals| == k && ReadAll(getter, Addresses(inner)[..k]) == Ok(vals)
    requires cur.Valid() && cur.pos == at + |header| + 2 * k
    requires Wrote(before, at, cur.dest[..], header + BeWords(vals))
    modifies cur, cur.dest
    ensures cur.Valid()
    ensures r.Ok? ==> |vals'| == k + 1 && ReadAll(getter, Addresses(inner)[..k + 1]) == Ok(vals')
                      && cur.pos == at + |header| + 2 * (k + 1)
                      && Wrote(before, at, cur.dest[..], header + BeWords(vals'))
    ensures r.Err? ==>
              || (r.error.Internal? && r.error.internal.InsufficientWriteSpace?
                  && at + |header| + 2 * inner.count > |before|)
              || (ReadAll(getter, Addresses(inner)).Err? && r == Err(Exception(ReadAll(getter, Addresses(inner)).error)))
  {
    ghost var addrs := Addresses(inner);
    vals' := vals;
    var value := getter(inner.start + k);
    assert addrs[k] == inner.start + k;
    ReadAllStep(getter, addrs, k);
    if value.Err? {
      ReadAllFirstError(getter, addrs, k);
      return Err(Exception(value.error)), vals;
    }
    r := PutU16Be(cur, value.value, before, at, header + BeWords(vals));
    if r.Err? {
      return;
    }
    BeWordsSnoc(vals, value.value);
    vals' := vals + [value.value];
  }

  /**
   * `RegisterWriter::serialize`: the byte count, then the getter's register for each
   * address in ascending order; the first getter exception ends the serialization.
   */
  method SerializeRegisterWriter(range: ReadRegistersRange, getter: u16 -> Result<u16, ExceptionCode>, cur: WriteCursor)
    returns (r: Result<(), RequestError>)
    requires range.inner.IsValid() && cur.Valid()
    modifies cur, cur.dest
    ensures Outcome(cur, old(cur.dest[..]), old(cur.pos), EncodeRegisterWriter(range.inner, getter),
                    1 + 2 * range.inner.count, r)
  {
    ghost var before := cur.dest[..];
    ghost var at := cur.pos;
    var inner := range.inner;
    ReadAllLength(getter, Addresses(inner));
    var numBytes := CalcBytesForRegisters(inner.count);
    if numBytes.Err? {
      return Err(Internal(numBytes.error));
    }
    WroteNothing(before, at);
    r := PutU8(cur, numBytes.value, before, at, []);
    if r.Err? {
      return;
    }
    assert [] + [numBytes.value] == [numBytes.value];
    r := WriteRegistersLoop(inner, getter, cur, before, at, [numBytes.value]);
  }
}
