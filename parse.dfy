/**
 * PDU decoders (`Parse` implementations). Each decoder is a pure function from
 * the unread bytes to the value and the bytes left over, with a round-trip
 * lemma against the matching encoder, and a method that consumes a
 * `ReadCursor` and is proved to agree with the function.
 */
module Parse {
  import opened Num
  import opened Wrappers
  import opened Errors
  import opened Types
  import opened ReadCursors
  import opened Serialize
  import opened ReadWriteMultiples

  // ---------------------------------------------------------------------------
  // AddressRange

  /** Two big-endian words, start then count, that must form a valid range. */
  function DecodeRange(s: seq<u8>): (r: Result<Parsed<AddressRange>, RequestError>)
    ensures |s| < 4 ==> r == Err(Insufficient)
    ensures |s| >= 4 ==> (r.Ok? <==> TryFrom(Be16(s[0], s[1]), Be16(s[2], s[3])).Ok?)
    ensures |s| >= 4 && r.Err? ==> r.error == FromInvalidRange(TryFrom(Be16(s[0], s[1]), Be16(s[2], s[3])).error)
    ensures r.Ok? ==> r.value.value.IsValid() && s == EncodeRange(r.value.value) + r.value.rest
  {
    var start :- TakeU16Be(s);
    var count :- TakeU16Be(start.rest);
    match TryFrom(start.value, count.value)
    case Err(e) => Err(FromInvalidRange(e))
    case Ok(range) =>
      assert s == s[..2] + s[2..4] + s[4..];
      Ok(Parsed(range, count.rest))
  }

  /** Decoding what `EncodeRange` wrote gives the range back and leaves the rest alone. */
  lemma DecodeEncodeRange(range: AddressRange, rest: seq<u8>)
    requires range.IsValid()
    ensures DecodeRange(EncodeRange(range) + rest) == Ok(Parsed(range, rest))
  {
    var s := EncodeRange(range) + rest;
    assert s[..2] == BeBytes(range.start) && s[2..4] == BeBytes(range.count);
    assert s[4..] == rest;
  }

  method ParseAddressRange(cursor: ReadCursor) returns (r: Result<AddressRange, RequestError>)
    requires cursor.Valid()
    modifies cursor
    ensures cursor.Valid() && Agrees(r, cursor.Rest(), DecodeRange(old(cursor.Rest())))
  {
    var start :- cursor.ReadU16Be();
    var count :- cursor.ReadU16Be();
    var range := TryFrom(start, count);
    if range.Err? {
      return Err(FromInvalidRange(range.error));
    }
    return Ok(range.value);
  }

  // ---------------------------------------------------------------------------
  // Indexed<bool> and Indexed<u16>

  /** An index and a coil state, which must be 0xFF00 or 0x0000. */
  function DecodeIndexedCoil(s: seq<u8>): (r: Result<Parsed<Indexed<bool>>, RequestError>)
    ensures |s| < 4 ==> r == Err(Insufficient)
    ensures |s| >= 4 ==> (r.Ok? <==> Be16(s[2], s[3]) == 0xFF00 || Be16(s[2], s[3]) == 0x0000)
    ensures |s| >= 4 && r.Err? ==> r.error == BadResponse(UnknownCoilState(Be16(s[2], s[3])))
    ensures r.Ok? ==> s == EncodeIndexedCoil(r.value.value) + r.value.rest
  {
    var index :- TakeU16Be(s);
    var raw :- TakeU16Be(index.rest);
    match CoilFromU16(raw.value)
    case Err(e) => Err(BadResponse(e))
    case Ok(value) =>
      assert BeBytes(index.value) + BeBytes(raw.value) + raw.rest == s by {
        assert index.rest == BeBytes(raw.value) + raw.rest;
      }
      Ok(Parsed(Indexed(index.value, value), raw.rest))
  }

  lemma DecodeEncodeIndexedCoil(x: Indexed<bool>, rest: seq<u8>)
    ensures DecodeIndexedCoil(EncodeIndexedCoil(x) + rest) == Ok(Parsed(x, rest))
  {
    var s := EncodeIndexedCoil(x) + rest;
    var raw := CoilToU16(x.value);
    assert s[..2] == BeBytes(x.index) && s[2..4] == BeBytes(raw) && s[4..] == rest;
    assert TakeU16Be(s) == Ok(Parsed(x.index, s[2..]));
    assert TakeU16Be(s[2..]) == Ok(Parsed(raw, rest)) by {
      assert s[2..][..2] == BeBytes(raw) && s[2..][2..] == rest;
    }
    CoilRoundTrip(x.value);
  }

  method ParseIndexedCoil(cursor: ReadCursor) returns (r: Result<Indexed<bool>, RequestError>)
    requires cursor.Valid()
    modifies cursor
    ensures cursor.Valid() && Agrees(r, cursor.Rest(), DecodeIndexedCoil(old(cursor.Rest())))
  {
    var index :- cursor.ReadU16Be();
    var raw :- cursor.ReadU16Be();
    var value := CoilFromU16(raw);
    if value.Err? {
      return Err(BadResponse(value.error));
    }
    return Ok(Indexed(index, value.value));
  }

  /** An index and a register value, both big-endian. */
  function DecodeIndexedRegister(s: seq<u8>): (r: Result<Parsed<Indexed<u16>>, RequestError>)
    ensures r.Ok? <==> |s| >= 4
    ensures r.Err? ==> r.error == Insufficient
    ensures r.Ok? ==> s == EncodeIndexedRegister(r.value.value) + r.value.rest
  {
    var index :- TakeU16Be(s);
    var value :- TakeU16Be(index.rest);
    assert s == s[..2] + s[2..4] + s[4..];
    Ok(Parsed(Indexed(index.value, value.value), value.rest))
  }

  lemma DecodeEncodeIndexedRegister(x: Indexed<u16>, rest: seq<u8>)
    ensures DecodeIndexedRegister(EncodeIndexedRegister(x) + rest) == Ok(Parsed(x, rest))
  {
    var s := EncodeIndexedRegister(x) + rest;
    assert s[..2] == BeBytes(x.index) && s[2..4] == BeBytes(x.value) && s[4..] == rest;
  }

  method ParseIndexedRegister(cursor: ReadCursor) returns (r: Result<Indexed<u16>, RequestError>)
    requires cursor.Valid()
    modifies cursor
    ensures cursor.Valid() && Agrees(r, cursor.Rest(), DecodeIndexedRegister(old(cursor.Rest())))
  {
    var index :- cursor.ReadU16Be();
    var value :- cursor.ReadU16Be();
    return Ok(Indexed(index, value));
  }

  // ---------------------------------------------------------------------------
  // CustomFunctionCode

  /**
   * The two arguments the decoder hands to `CustomFunctionCode::new`: a length
   * word and exactly four data words. The struct itself is not part of this model.
   */
  datatype CustomFunctionCodeArgs = CustomFunctionCodeArgs(len: u16, values: seq<u16>)

  /** A length word, then always four words, whatever the length says. */
  function DecodeCustomFunctionCode(s: seq<u8>): (r: Result<Parsed<CustomFunctionCodeArgs>, RequestError>)
    ensures r.Ok? <==> |s| >= 10
    ensures r.Err? ==> r.error == Insufficient
    ensures r.Ok? ==> |r.value.value.values| == 4
                      && s == BeBytes(r.value.value.len) + BeWords(r.value.value.values) + r.value.rest
  {
    var len :- TakeU16Be(s);
    var v0 :- TakeU16Be(len.rest);
    var v1 :- TakeU16Be(v0.rest);
    var v2 :- TakeU16Be(v1.rest);
    var v3 :- TakeU16Be(v2.rest);
    BeWordsFour(v0.value, v1.value, v2.value, v3.value);
    Chain5(len.rest, BeBytes(v0.value), BeBytes(v1.value), BeBytes(v2.value), BeBytes(v3.value), v3.rest,
           v0.rest, v1.rest, v2.rest);
    assert s == BeBytes(len.value) + (BeWords([v0.value, v1.value, v2.value, v3.value]) + v3.rest);
    Ok(Parsed(CustomFunctionCodeArgs(len.value, [v0.value, v1.value, v2.value, v3.value]), v3.rest))
  }

  lemma BeWordsFour(a: u16, b: u16, c: u16, d: u16)
    ensures BeWords([a, b, c, d]) == BeBytes(a) + BeBytes(b) + BeBytes(c) + BeBytes(d)
  {
    BeWordsSnoc([a, b, c], d);
    BeWordsSnoc([a, b], c);
    BeWordsSnoc([a], b);
    assert [a, b] == [a] + [b];
    assert [a, b, c] == [a, b] + [c];
    assert [a, b, c, d] == [a, b, c] + [d];
  }

  method ParseCustomFunctionCode(cursor: ReadCursor) returns (r: Result<CustomFunctionCodeArgs, RequestError>)
    requires cursor.Valid()
    modifies cursor
    ensures cursor.Valid() && Agrees(r, cursor.Rest(), DecodeCustomFunctionCode(old(cursor.Rest())))
  {
    var len :- cursor.ReadU16Be();
    var v0 :- cursor.ReadU16Be();
    var v1 :- cursor.ReadU16Be();
    var v2 :- cursor.ReadU16Be();
    var v3 :- cursor.ReadU16Be();
    return Ok(CustomFunctionCodeArgs(len, [v0, v1, v2, v3]));
  }

  // ---------------------------------------------------------------------------
  // ReadWriteMultiple<u16>

  /** `n` big-endian words. */
  function TakeWords(s: seq<u8>, n: nat): (r: Result<Parsed<seq<u16>>, RequestError>)
    ensures r.Ok? <==> |s| >= 2 * n
    ensures r.Err? ==> r.error == Insufficient
    ensures r.Ok? ==> |r.value.value| == n && s == BeWords(r.value.value) + r.value.rest
  {
    if |s| < 2 * n then Err(Insufficient)
    else
      BeWordsOfWordsOf(s[..2 * n]);
      assert s == s[..2 * n] + s[2 * n..];
      Ok(Parsed(WordsOf(s[..2 * n]), s[2 * n..]))
  }

  /**
   * The read range, the write range, a length byte that is skipped, then one word
   * per register of the write range; the request is then built with `new`, which
   * can never reject it: a decoded request is exactly two valid ranges, some
   * length byte and one word per register of the write range.
   */
  function DecodeReadWriteMultiple(s: seq<u8>): (r: Result<Parsed<ReadWriteMultiple<u16>>, RequestError>)
    ensures r.Ok? ==> r.value.value.readRange.IsValid() && r.value.value.writeRange.IsValid()
                      && |r.value.value.values| == r.value.value.writeRange.count
                      && exists b: u8 :: s == EncodeRange(r.value.value.readRange) + EncodeRange(r.value.value.writeRange) + [b]
                                             + BeWords(r.value.value.values) + r.value.rest
  {
    var read :- DecodeRange(s);
    var write :- DecodeRange(read.rest);
    var length :- TakeU8(write.rest);
    var values :- TakeWords(length.rest, write.value.count);
    // `new` cannot fail here: exactly one word per register of the write range was read.
    var request := New(read.value, write.value, values.value).value;
    assert request == ReadWriteMultiple(read.value, write.value, values.value);
    assert write.rest == [length.value] + length.rest;
    Chain5(s, EncodeRange(read.value), EncodeRange(write.value), [length.value], BeWords(values.value), values.rest,
           read.rest, write.rest, length.rest);
    assert s == EncodeRange(request.readRange) + EncodeRange(request.writeRange) + [length.value]
                + BeWords(request.values) + values.rest;
    Ok(Parsed(request, values.rest))
  }

  /** The decoder fails only for lack of bytes or for an invalid range. */
  lemma DecodeReadWriteMultipleErrors(s: seq<u8>)
    ensures DecodeReadWriteMultiple(s).Err? ==>
              DecodeReadWriteMultiple(s).error == Insufficient || DecodeReadWriteMultiple(s).error.BadRequest?
  {
    var read := DecodeRange(s);
    if read.Ok? {
      var write := DecodeRange(read.value.rest);
      if write.Ok? {
        var length := TakeU8(write.value.rest);
        if length.Ok? {
          var values := TakeWords(length.value.rest, write.value.value.count);
        }
      }
    }
  }

  /** What a decoder consumes piece by piece is the concatenation of the pieces. */
  lemma Chain5(s: seq<u8>, a: seq<u8>, b: seq<u8>, c: seq<u8>, d: seq<u8>, e: seq<u8>,
               afterA: seq<u8>, afterB: seq<u8>, afterC: seq<u8>)
    requires s == a + afterA && afterA == b + afterB && afterB == c + afterC && afterC == d + e
    ensures s == a + b + c + d + e
  {
    Regroup5(a, b, c, d, e);
  }

  /**
   * Decoding two valid ranges, any length byte and one word per register of the
   * write range gives back the request, whatever the length byte says.
   */
  lemma DecodeReadWriteMultipleRoundTrip(request: ReadWriteMultiple<u16>, b: u8, rest: seq<u8>)
    requires request.readRange.IsValid() && request.writeRange.IsValid()
    requires |request.values| == request.writeRange.count
    ensures DecodeReadWriteMultiple(EncodeRange(request.readRange) + EncodeRange(request.writeRange) + [b]
                                    + BeWords(request.values) + rest)
            == Ok(Parsed(request, rest))
  {
    var words := BeWords(request.values) + rest;
    var tail := [b] + words;
    var afterRead := EncodeRange(request.writeRange) + tail;
    Regroup5(EncodeRange(request.readRange), EncodeRange(request.writeRange), [b], BeWords(request.values), rest);
    DecodeEncodeRange(request.readRange, afterRead);
    DecodeEncodeRange(request.writeRange, tail);
    assert TakeU8(tail) == Ok(Parsed(b, words));
    TakeWordsBeWords(request.values, rest);
    assert New(request.readRange, request.writeRange, request.values) == Ok(request);
  }

  /** Five concatenated pieces, grouped from the right as a decoder consumes them. */
  lemma Regroup5(a: seq<u8>, b: seq<u8>, c: seq<u8>, d: seq<u8>, e: seq<u8>)
    ensures a + b + c + d + e == a + (b + (c + (d + e)))
  {
  }

  /** `TakeWords` reads back what `BeWords` wrote. */
  lemma TakeWordsBeWords(values: seq<u16>, rest: seq<u8>)
    ensures TakeWords(BeWords(values) + rest, |values|) == Ok(Parsed(values, rest))
  {
    var r := TakeWords(BeWords(values) + rest, |values|);
    assert BeWords(r.value.value) + r.value.rest == BeWords(values) + rest;
    assert BeWords(r.value.value) == (BeWords(values) + rest)[..2 * |values|];
    WordsOfBeWords(r.value.value);
    WordsOfBeWords(values);
  }

  /** Unit test of the decoder: one register written, at the bottom of the address space. */
  lemma DecodeReadWriteMultipleSingle(s: seq<u8>)
    requires s == [0x00, 0x00, 0x00, 0x05, 0x00, 0x00, 0x00, 0x01, 0x02, 0x00, 0x00]
    ensures DecodeReadWriteMultiple(s) == Ok(Parsed(ReadWriteMultiple(AddressRange(0, 5), AddressRange(0, 1), [0x0000]), []))
  {
    var a := ReadWriteMultiple(AddressRange(0, 5), AddressRange(0, 1), [0x0000]);
    assert EncodeRange(a.readRange) == s[..4];
    assert EncodeRange(a.writeRange) == s[4..8];
    assert BeWords(a.values) == s[9..];
    assert s == s[..4] + s[4..8] + [s[8]] + s[9..] + [];
    DecodeReadWriteMultipleRoundTrip(a, 0x02, []);
  }

  /** Unit test of the decoder: one register written, at the top of the address space. */
  lemma DecodeReadWriteMultipleTop(s: seq<u8>)
    requires s == [0xFF, 0xFB, 0x00, 0x05, 0xFF, 0xFF, 0x00, 0x01, 0x02, 0xFF, 0xFF]
    ensures DecodeReadWriteMultiple(s) == Ok(Parsed(ReadWriteMultiple(AddressRange(0xFFFB, 5), AddressRange(0xFFFF, 1), [0xFFFF]), []))
  {
    var a := ReadWriteMultiple(AddressRange(0xFFFB, 5), AddressRange(0xFFFF, 1), [0xFFFF]);
    assert EncodeRange(a.readRange) == s[..4];
    assert EncodeRange(a.writeRange) == s[4..8];
    assert BeWords(a.values) == s[9..];
    assert s == s[..4] + s[4..8] + [s[8]] + s[9..] + [];
    DecodeReadWriteMultipleRoundTrip(a, 0x02, []);
  }

  /** Unit test of the decoder: the length byte says 4 but three registers are read and accepted. */
  lemma DecodeReadWriteMultipleWrongLength(s: seq<u8>)
    requires s == [0x00, 0x00, 0x00, 0x05, 0x00, 0x00, 0x00, 0x03, 0x04, 0xCA, 0xFE, 0xC0, 0xDE, 0xCA, 0xFE]
    ensures DecodeReadWriteMultiple(s)
            == Ok(Parsed(ReadWriteMultiple(AddressRange(0, 5), AddressRange(0, 3), [0xCAFE, 0xC0DE, 0xCAFE]), []))
  {
    var a := ReadWriteMultiple(AddressRange(0, 5), AddressRange(0, 3), [0xCAFE, 0xC0DE, 0xCAFE]);
    assert EncodeRange(a.readRange) == s[..4];
    assert EncodeRange(a.writeRange) == s[4..8];
    var w1: seq<u16> := [0xCAFE];
    var w2: seq<u16> := [0xC0DE] + w1;
    assert a.values == [0xCAFE] + w2;
    assert BeWords(w1) == BeBytes(0xCAFE) + BeWords([]);
    assert BeWords(w2) == BeBytes(0xC0DE) + BeWords(w1);
    assert BeWords(a.values) == BeBytes(0xCAFE) + BeWords(w2);
    assert BeWords(a.values) == s[9..];
    assert s == s[..4] + s[4..8] + [s[8]] + s[9..] + [];
    DecodeReadWriteMultipleRoundTrip(a, 0x04, []);
  }

  /**
   * Fewer than two bytes per register of the write range is InsufficientBytes,
   * for any two valid ranges and any length byte.
   */
  lemma DecodeReadWriteMultipleShort(readRange: AddressRange, writeRange: AddressRange, b: u8, tail: seq<u8>)
    requires readRange.IsValid() && writeRange.IsValid()
    requires |tail| < 2 * writeRange.count
    ensures DecodeReadWriteMultiple(EncodeRange(readRange) + EncodeRange(writeRange) + [b] + tail) == Err(Insufficient)
  {
    var afterWrite := [b] + tail;
    var afterRead := EncodeRange(writeRange) + afterWrite;
    assert EncodeRange(readRange) + EncodeRange(writeRange) + [b] + tail == EncodeRange(readRange) + afterRead;
    DecodeEncodeRange(readRange, afterRead);
    DecodeEncodeRange(writeRange, afterWrite);
    assert TakeU8(afterWrite) == Ok(Parsed(b, tail));
  }

  method ParseReadWriteMultiple(cursor: ReadCursor) returns (r: Result<ReadWriteMultiple<u16>, RequestError>)
    requires cursor.Valid()
    modifies cursor
    ensures cursor.Valid() && Agrees(r, cursor.Rest(), DecodeReadWriteMultiple(old(cursor.Rest())))
  {
    var readRange :- ParseAddressRange(cursor);
    var writeRange :- ParseAddressRange(cursor);
    // the data length byte is read and ignored
    var length :- cursor.ReadU8();
    var values :- ParseWords(cursor, writeRange.count);
    r := New(readRange, writeRange, values);
  }

  /** The loop of `parse` that reads one big-endian word per register of the write range. */
  method ParseWords(cursor: ReadCursor, n: nat) returns (r: Result<seq<u16>, RequestError>)
    requires cursor.Valid()
    modifies cursor
    ensures cursor.Valid() && Agrees(r, cursor.Rest(), TakeWords(old(cursor.Rest()), n))
  {
    ghost var start := cursor.Rest();
    var values: seq<u16> := [];
    var k := 0;
    while k < n
      invariant k <= n && |values| == k && cursor.Valid()
      invariant 2 * k <= |start| && BeWords(values) == start[..2 * k] && cursor.Rest() == start[2 * k..]
    {
      var value := cursor.ReadU16Be();
      if value.Err? {
        return Err(value.error);
      }
      BeWordsSnoc(values, value.value);
      assert start[..2 * k + 2] == start[..2 * k] + start[2 * k..2 * k + 2];
      values := values + [value.value];
      k := k + 1;
    }
    WordsOfBeWords(values);
    return Ok(values);
  }

  /** The decoder unit tests for coils and registers. */
  lemma DecodeIndexedExamples()
    ensures DecodeIndexedCoil([0x00, 0x01, 0xAB, 0xCD]) == Err(BadResponse(UnknownCoilState(0xABCD)))
    ensures DecodeIndexedCoil([0x00, 0x01, 0x00, 0x00]) == Ok(Parsed(Indexed(1, false), []))
    ensures DecodeIndexedCoil([0x00, 0x01, 0xFF, 0x00]) == Ok(Parsed(Indexed(1, true), []))
    ensures DecodeIndexedRegister([0x00, 0x01, 0xCA, 0xFE]) == Ok(Parsed(Indexed(1, 0xCAFE), []))
  {
    DecodeEncodeIndexedCoil(Indexed(1, false), []);
    assert EncodeIndexedCoil(Indexed(1, false)) + [] == [0x00, 0x01, 0x00, 0x00];
    DecodeEncodeIndexedCoil(Indexed(1, true), []);
    assert EncodeIndexedCoil(Indexed(1, true)) + [] == [0x00, 0x01, 0xFF, 0x00];
    DecodeEncodeIndexedRegister(Indexed(1, 0xCAFE), []);
    assert EncodeIndexedRegister(Indexed(1, 0xCAFE)) + [] == [0x00, 0x01, 0xCA, 0xFE];
  }

  /** The decoder unit tests for the custom function code. */
  lemma DecodeCustomFunctionCodeExamples()
    ensures DecodeCustomFunctionCode([0x00, 0x04, 0xCA, 0xFE, 0xC0, 0xDE, 0xCA, 0xFE, 0xC0, 0xDE])
            == Ok(Parsed(CustomFunctionCodeArgs(4, [0xCAFE, 0xC0DE, 0xCAFE, 0xC0DE]), []))
    ensures DecodeCustomFunctionCode([0x00, 0x04, 0xCA, 0xFE, 0xC0, 0xDE, 0xCA, 0xFE, 0xC0]) == Err(Insufficient)
  {
  }
}
