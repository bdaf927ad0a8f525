# rodbus core in Dafny

This project models the protocol core of rodbus, a Modbus library for TCP, TLS
and serial RTU: the data types and their wire encodings, the MBAP and RTU
frame parsers and formatters with their CRC, the receive buffer, the client's
requests and how each reply is checked, the server's request parsing, the
handler and authorization dispatch, and the reply a session sends for each frame.
It also models the pieces of the C bindings that carry state or decisions:
the database and handlers of their servers, device maps, address filters,
and the conversion of errors and results across the boundary.

Each core file becomes one module. Pure parsing and encoding become
datatypes, functions and lemmas; round trips are proved between each parser
and its encoder. Code that changes state in place becomes a class with
`modifies` clauses, proved against the pure function that specifies it. This
applies to the cursors, the read buffer, the frame parsers, the client
promise, the session tracker, the retry strategy, and the handlers of the
bindings. Foreign callbacks, the clock and the IP address parser of the
standard library are parameters.

## Model

| member | source | states |
|---|---|---|
| Num.BeBytes | rodbus/src/common/cursor.rs:63-72 | the two bytes of a register, most significant first, whose big-endian value is the register |
| Num.LeBytes | rodbus/src/common/cursor.rs:74-84 | the two bytes of a value, least significant first, whose little-endian value is the value (the RTU CRC order) |
| Num.Be16 | rodbus/src/common/cursor.rs:63-72 | joining a high and a low byte gives the register whose big-endian bytes are exactly those two |
| Num.Le16 | rodbus/src/common/cursor.rs:74-84 | joining a low and a high byte gives the value whose little-endian bytes are exactly those two |
| Num.BeWords | rodbus/src/common/serialize.rs:225-243 | a run of registers is written as twice as many bytes |
| Num.BeWordsAt | rodbus/src/common/serialize.rs:225-243 | the k-th byte pair of a written register run reads back as the k-th register |
| Num.WordsOf | rodbus/src/service/serialization/client_response_parsers.rs:106-113 | an even run of bytes read as registers: half as many, each the big-endian pair at its position |
| Num.WordsOfBeWords | rodbus/src/common/serialize.rs:225-243 | reading back written registers gives the registers (decode after encode) |
| Num.BeWordsOfWordsOf | rodbus/src/service/serialization/client_response_parsers.rs:106-113 | writing registers read from an even byte run gives the bytes back (encode after decode) |
| Num.PackByte | rodbus/src/common/serialize.rs:137-156 | up to eight flags packed into one byte, first flag in the least significant bit; the byte stays below 2 to the flag count |
| Num.PackByteBit | rodbus/src/common/serialize.rs:137-156 | bit i of the packed byte is flag i, so unpacking recovers every packed flag |
| Num.PackByteSnoc | rodbus/src/common/serialize.rs:145-150 | adding one flag to an accumulator sets exactly the next higher bit, as or-ing in 1 shifted by the count does |
| Num.BeWordsSnoc | rodbus/src/common/serialize.rs:225-243 | writing one more register appends exactly its two big-endian bytes |
| Num.Wrap16 | rodbus/src/client/requests/read_write_multiple.rs:75-76 | below 65536 the wrapped count is the count itself |
| Exception.FromByte | rodbus/src/exception.rs:42-63 | a byte decodes to Unknown exactly when it is not one of the nine named codes, and Unknown keeps the byte |
| Exception.ToByte | rodbus/src/exception.rs:65-86 | every named code is written as one of the nine named bytes |
| Exception.ToByteFromByte | rodbus/src/exception.rs:42-86 | every byte survives decoding and re-encoding |
| Exception.FromByteToByte | rodbus/src/exception.rs:42-86 | a code survives encoding and decoding if and only if it is named, or Unknown with a byte that is not a named code |
| Exception.UnnamedBytes | rodbus/src/exception.rs:60 | bytes 0, 7, 9 and 0x0C upwards decode to Unknown carrying the byte |
| Exception.NamedCodesDistinct | rodbus/src/exception.rs:65-86 | two codes are written as the same byte if and only if they are the same code |
| Function.FunctionCode.Value | rodbus/src/common/function.rs:116-118 | a function code's byte is below 0x80 |
| Function.FunctionCode.AsError | rodbus/src/common/function.rs:120-122 | the exception-reply byte of a code has the high bit set and is the code's byte plus 0x80 |
| Function.SetHighBit | rodbus/src/common/function.rs:120-122 | or-ing 0x80 gives a byte at least 0x80, adds 0x80 to a byte below it and leaves one above it unchanged |
| Function.Get | rodbus/src/common/function.rs:124-155 | a byte is recognised exactly when it is one of the 27 codes, and the recognised code has that byte |
| Function.GetValue | rodbus/src/common/function.rs:116-155 | every code is recovered from its own byte |
| Function.ValueInjective | rodbus/src/common/function.rs:35-63 | two codes have the same byte if and only if they are the same code |
| Function.GetAsError | rodbus/src/common/function.rs:120-155 | an exception-reply byte is never recognised as a function code |
| Bits.NumBytesForBits | rodbus/src/util/bits.rs:1-3 | the byte count holds the bits with fewer than eight to spare, and is at most 8192 (no overflow for 0xFFFF) |
| Bits.NumBytesForBitsExamples | rodbus/src/util/bits.rs:9-18 | the values the unit test asserts: 7 and 8 bits need 1 byte, 9-16 need 2, 17 need 3, 0xFFFF need 8192 |
| Bits.NumBytesForBitsIsMinimal | rodbus/src/util/bits.rs:1-3 | no smaller byte count holds the bits |
| ReadCursors.TakeU8 | rodbus/src/util/cursor.rs:27-35 | one byte is taken exactly when a byte is left, and the rest follows it; otherwise too few bytes |
| ReadCursors.TakeU16Be | rodbus/src/util/cursor.rs:37-41 | two bytes are taken exactly when two are left, read high byte first; otherwise too few bytes |
| ReadCursors.TakeBytes | rodbus/src/util/cursor.rs:43-51 | n bytes are taken exactly when n are left, and taken plus rest is the input; otherwise too few bytes |
| ReadCursors.RequireEmpty | rodbus/src/server/request.rs:166-170 | succeeds exactly when nothing is left; otherwise trailing bytes, with their count |
| ReadCursors.ReadCursor.Remaining | rodbus/src/util/cursor.rs:19-21 | the number of unread bytes |
| ReadCursors.ReadCursor.constructor | rodbus/src/util/cursor.rs:15-17 | a cursor whose unread bytes are the whole input |
| ReadCursors.ReadCursor.ReadU8 | rodbus/src/util/cursor.rs:27-35 | consumes and returns what TakeU8 specifies, or fails with its error |
| ReadCursors.ReadCursor.ReadU16Be | rodbus/src/util/cursor.rs:37-41 | consumes and returns what TakeU16Be specifies, or fails with its error |
| ReadCursors.ReadCursor.ReadBytes | rodbus/src/util/cursor.rs:43-51 | consumes and returns what TakeBytes specifies, or fails with its error |
| ReadCursors.ReadCursor.ExpectEmpty | rodbus/src/server/request.rs:166-170 | agrees with RequireEmpty on the unread bytes |
| WriteCursors.WroteThen | rodbus/src/common/cursor.rs:63-72 | two consecutive writes are one write of the concatenated bytes |
| WriteCursors.WroteOver | rodbus/src/common/cursor.rs:44-50 | a write over part of an earlier write (after seeking back) is one write of the patched bytes |
| WriteCursors.WroteOnly | rodbus/src/common/cursor.rs:52-61 | a write changes exactly the written positions and keeps every other byte |
| WriteCursors.WroteNothing | rodbus/src/common/cursor.rs:36-42 | writing no bytes leaves the buffer unchanged |
| WriteCursors.WriteCursor.constructor | rodbus/src/common/cursor.rs:24-26 | a cursor at position 0 over the given buffer |
| WriteCursors.WriteCursor.Remaining | rodbus/src/common/cursor.rs:32-34 | position plus remaining is the buffer length |
| WriteCursors.WriteCursor.SeekFromCurrent | rodbus/src/common/cursor.rs:36-42 | moves forward exactly when the count fits in what remains; otherwise BadSeekOperation and the position is kept |
| WriteCursors.WriteCursor.SeekFromStart | rodbus/src/common/cursor.rs:44-50 | moves to the absolute position exactly when it is at most the buffer length; otherwise BadSeekOperation and the position is kept |
| WriteCursors.WriteCursor.WriteU8 | rodbus/src/common/cursor.rs:52-61 | writes the byte at the position and advances exactly when the position is inside the buffer; otherwise InsufficientWriteSpace(1, 0) |
| WriteCursors.WriteCursor.WriteU16Be | rodbus/src/common/cursor.rs:63-72 | writes both bytes high first and advances by two exactly when two bytes remain; otherwise InsufficientWriteSpace(2, remaining) and nothing is written |
| WriteCursors.WriteCursor.WriteU16Le | rodbus/src/common/cursor.rs:74-84 | writes both bytes low first and advances by two exactly when two bytes remain; otherwise InsufficientWriteSpace(2, remaining) and nothing is written |
| Types.TryFrom | rodbus/src/types.rs:437-451 | a range is accepted exactly when its count is non-zero and its last address is at most 0xFFFF; a zero count is CountOfZero, any other refusal AddressOverflow(start, count) |
| Types.TryFromExamples | rodbus/src/types.rs:567-588 | the unit tests: (0xFFFF, 1) and (0, 0xFFFF) are accepted, (0, 0) is CountOfZero, (0xFFFF, 2) overflows |
| Types.LimitedCount | rodbus/src/types.rs:475-480 | the range is returned unchanged exactly when its count is within the limit; otherwise CountTooLargeForType(count, limit) |
| Types.OfReadBits | rodbus/src/types.rs:463-467 | a bit read range is accepted exactly when it asks for at most 2000 coils, and keeps the range |
| Types.OfReadRegisters | rodbus/src/types.rs:469-473 | a register read range is accepted exactly when it asks for at most 125 registers, and keeps the range |
| Types.Enumerate | rodbus/src/types.rs:410-418 | values paired with consecutive addresses from the start: same length, k-th item at start + k with the k-th value |
| Types.CoilToU16 | rodbus/src/types.rs:428-434 | a coil is written as 0xFF00 when on and 0x0000 when off, and only as those |
| Types.CoilFromU16 | rodbus/src/types.rs:420-426 | only 0xFF00 and 0x0000 are accepted, and the coil read back re-encodes to the word; anything else is UnknownCoilState(word) |
| Types.CoilRoundTrip | rodbus/src/types.rs:420-434 | a coil survives encoding and decoding |
| Types.MeiCodeFromByte | rodbus/src/types.rs:39-47 | a byte converts to a MEI code exactly when it is 14 or 15 (ReadDeviceId, CanOpenGeneralReference); every other byte is `None`, where the source panics |
| Types.MeiCodeToByte | rodbus/src/types.rs:49-56 | the byte of a MEI code is 14 or 15 and converts back to the same code |
| Types.MeiCodeRoundTrip | rodbus/src/types.rs:39-56 | a MEI byte converts to a code whose byte is the byte again |
| Types.ReadDeviceIdCodeFromByte | rodbus/src/types.rs:87-97 | a byte converts to a device-id code exactly when it is 1 to 4; every other byte is `None`, where the source panics |
| Types.ReadDeviceIdCodeToByte | rodbus/src/types.rs:76-85 | the byte of a device-id code is 1 to 4 and converts back to the same code |
| Types.ReadDeviceIdCodeRoundTrip | rodbus/src/types.rs:76-97 | a device-id byte converts to a code whose byte is the byte again |
| Types.ConformityLevelFromByte | rodbus/src/types.rs:110-122 | a byte converts to a conformity level exactly when it is 0x01 to 0x03 or 0x81 to 0x83; every other byte is `None`, where the source panics |
| Types.ConformityLevelToByte | rodbus/src/types.rs:124-135 | the byte of a conformity level is one of the six level bytes and converts back to the same level |
| Types.ConformityLevelRoundTrip | rodbus/src/types.rs:110-135 | a conformity byte converts to a level whose byte is the byte again |
| Types.NewDeviceInfo | rodbus/src/types.rs:186-195 | a device information is built exactly when all three bytes name codes, holding those codes, no continuation and no objects; otherwise `None`, where the source panics |
| Types.BitAt | rodbus/src/types.rs:358-375 | the k-th coil of a packed reply is at address start + k and is bit k mod 8 of byte k div 8 |
| Types.BitValues | rodbus/src/types.rs:355-381 | what a fresh bit iterator yields: one item per coil the bytes hold, up to the count, each the k-th packed bit |
| Types.RegisterAt | rodbus/src/types.rs:386-402 | the k-th register of a reply is at address start + k and its big-endian bytes are bytes 2k and 2k+1 |
| Types.RegisterValues | rodbus/src/types.rs:383-408 | what a fresh register iterator yields: one item per complete byte pair, up to the count, each the k-th register |
| Types.ParseAllBits | rodbus/src/types.rs:285-298 | succeeds exactly when the unread bytes are exactly the packed byte count of the range, keeping them all; too few is InsufficientBytes, too many TrailingBytes(excess) |
| Types.ParseAllRegisters | rodbus/src/types.rs:320-333 | succeeds exactly when the unread bytes are exactly two per register, keeping them all; too few is InsufficientBytes, too many TrailingBytes(excess) |
| Types.ParseAllBitsYieldsCount | rodbus/src/types.rs:285-298 | after a successful parse the iterator yields exactly count coils |
| Types.ParseAllRegistersYieldsCount | rodbus/src/types.rs:320-333 | after a successful parse the iterator yields exactly count registers |
| Types.BitIterator.constructor | rodbus/src/types.rs:291-297 | a fresh iterator at position 0 whose items still to come are BitValues of its bytes |
| Types.BitIterator.SizeHint | rodbus/src/types.rs:377-381 | count minus position, which is exactly the number of items still to come once the bytes are complete |
| Types.BitIterator.Next | rodbus/src/types.rs:358-375 | returns the first item still to come and advances by one, or None and stays put when none is left |
| Types.BitIterator.Collect | rodbus/src/types.rs:355-381 | drains the iterator: the items collected are all the items that were still to come |
| Types.RegisterIterator.constructor | rodbus/src/types.rs:326-332 | a fresh iterator at position 0 whose items still to come are RegisterValues of its bytes |
| Types.RegisterIterator.SizeHint | rodbus/src/types.rs:404-408 | count minus position, which is exactly the number of items still to come once the bytes are complete |
| Types.RegisterIterator.Next | rodbus/src/types.rs:386-402 | returns the first item still to come and advances by one, or None and stays put when none is left |
| Types.RegisterIterator.Collect | rodbus/src/types.rs:383-408 | drains the iterator: the items collected are all the items that were still to come |
| Types.ParseBitIterator | rodbus/src/types.rs:285-298 | consumes the cursor as ParseAllBits specifies: succeeds exactly when it does, then an iterator at position 0 over the range; otherwise its error |
| Types.ParseRegisterIterator | rodbus/src/types.rs:320-333 | consumes the cursor as ParseAllRegisters specifies: succeeds exactly when it does, then an iterator at position 0 over the range; otherwise its error |
| Types.IteratorExamples | rodbus/src/types.rs:590-620 | the unit tests: 0x03 over (1, 3) yields 1 on, 2 on, 3 off; FF FF 01 CC over (1, 2) yields 0xFFFF at 1 and 0x01CC at 2 |
| Types.AddressIterator.constructor | rodbus/src/types.rs:494-498 | an iterator at the given address with the given number left |
| Types.AddressIterator.Next | rodbus/src/types.rs:500-513 | with none left returns None and changes nothing; otherwise returns the current address, decrements what is left and moves to the next address, wrapping past 0xFFFF; it yields exactly the first address still to come and drops it, and an iterator whose addresses fit the address space keeps fitting and does not wrap while any address is left |
| Types.AddressIterator.Rest | rodbus/src/types.rs:489-513 | the addresses still to come are `remain` addresses counted up from `current`, wrapping past 0xFFFF |
| Types.AddressIteratorRange | rodbus/src/types.rs:459-461 | an iterator started at a valid range's start with its count fits the address space, and its addresses are exactly the range's addresses in ascending order |
| Types.RangeIter | rodbus/src/types.rs:459-461 | `AddressRange::iter` starts at the range's start with its count, and over a valid range yields exactly the range's addresses |
| Types.Addresses | rodbus/src/types.rs:459-461 | the addresses of a valid range: count of them, the k-th being start + k |
| Types.Lengths | rodbus/src/types.rs:203-208 | the byte length of each stored object's UTF-8 encoding, in order |
| Types.ResponseMessageCount | rodbus/src/types.rs:198-212 | as written: the first object index at which the budget, reduced by (len as u8) + 2 in wrapping u8 arithmetic per object (len the object's UTF-8 byte count), runs out, or None |
| Types.ResponseMessageCountWraps | rodbus/src/types.rs:198-212 | a 254-byte object costs 0 after the wrap, so the written count reports that it fits a 10-byte budget, where the intended count reports index 0 |
| Types.TotalCost | rodbus/src/types.rs:199-209 | the bytes all objects need, at least two each |
| Types.FitCountSpec | rodbus/src/types.rs:198-212 | the intended count is None exactly when all objects fit the budget, and otherwise the index i such that objects before i fit and object i does not |
| Types.ResponseMessageCountChecked | rodbus/src/types.rs:198-212 | corrected count with len + 2 computed without wrapping: equals the intended count, below 128 and an index of an object, with all objects before it fitting |
| Serialize.CalcBytesForBits | rodbus/src/common/serialize.rs:16-22 | succeeds exactly when the bit count needs at most 255 bytes (2040 bits), giving the least byte count that holds the bits; otherwise BadByteCount with a count above 255 |
| Serialize.CalcBytesForRegisters | rodbus/src/common/serialize.rs:24-27 | succeeds exactly when 2 * n fits a byte (n at most 127), giving 2 * n; otherwise BadByteCount(2 * n) |
| Serialize.CalcBytesExamples | rodbus/src/common/serialize.rs:16-27 | boundary values: 0, 1, 8 and 2000 bits need 0, 1, 1 and 250 bytes, 2041 bits fail with 256; 125 registers need 250 bytes, 128 fail with 256 |
| Serialize.PackBits | rodbus/src/common/serialize.rs:144-152 | flags packed eight to a byte give one byte per started group of eight |
| Serialize.PackBitsAt | rodbus/src/common/serialize.rs:144-152 | flag k is bit k mod 8 of byte k div 8 (least significant bit first) |
| Serialize.PackBitsPadding | rodbus/src/common/serialize.rs:144-152 | the unused high bits of the last byte are zero |
| Serialize.PackBitsAppend | rodbus/src/common/serialize.rs:144-152 | packing whole bytes and then up to eight more flags appends exactly one byte, the packed tail |
| Serialize.BitValuesOfPackBits | rodbus/src/types.rs:355-381 | a bit iterator over packed flags yields exactly the flags, indexed from the range start (decode after encode) |
| Serialize.RegisterValuesOfBeWords | rodbus/src/types.rs:383-408 | a register iterator over written registers yields exactly the registers, indexed from the range start |
| Serialize.EncodeRange | rodbus/src/common/serialize.rs:29-35 | a range is four bytes: start then count, each big-endian |
| Serialize.EncodeIndexedCoil | rodbus/src/common/serialize.rs:63-69 | four bytes: the address big-endian, then FF 00 for on and 00 00 for off |
| Serialize.EncodeIndexedRegister | rodbus/src/common/serialize.rs:102-108 | four bytes: the address then the value, each big-endian |
| Serialize.EncodeCoils | rodbus/src/common/serialize.rs:137-156 | exists exactly when at most 2040 flags are given: a count byte equal to the number of bytes that follow, then the packed flags; otherwise an internal BadByteCount |
| Serialize.EncodeRegisters | rodbus/src/common/serialize.rs:266-277 | exists exactly when at most 127 registers are given: the count byte 2n, then each register big-endian; otherwise Internal(BadByteCount(2n)) |
| Serialize.EncodeWriteMultipleCoils | rodbus/src/common/serialize.rs:279-284 | the four range bytes followed by the encoded coils; exists exactly when those do |
| Serialize.EncodeWriteMultipleRegisters | rodbus/src/common/serialize.rs:286-291 | the four range bytes followed by the encoded registers; exists exactly when those do |
| Serialize.EncodeCustomFunctionCode | rodbus/src/common/serialize.rs:293-305 | the function code and the two byte counts as given, then each data word big-endian |
| Serialize.EncodeExamples | rodbus/src/common/serialize.rs:357-407 | the unit tests' exact bytes for the range (3, 512) and the four custom-function-code requests |
| Serialize.ReadAllSpec | rodbus/src/common/serialize.rs:172-184 | reading a getter over addresses succeeds exactly when every getter call does, and then holds every value in order; otherwise the error is that of the first failing address |
| Serialize.ReadAllLength | rodbus/src/common/serialize.rs:231-234 | a successful read gives one value per address |
| Serialize.ReadAllStep | rodbus/src/common/serialize.rs:172-184 | one more address: an earlier failure stays, otherwise the next getter's failure or value decides |
| Serialize.ReadAllKeepsError | rodbus/src/common/serialize.rs:173 | once a prefix has failed, the whole read fails with the same error (the `?` ends the loop) |
| Serialize.ReadAllFirstError | rodbus/src/common/serialize.rs:173 | the error of the whole read is the first failing getter's error |
| Serialize.EncodeBitWriterSpec | rodbus/src/common/serialize.rs:158-193 | a coil reply exists exactly when every getter succeeds; then it has 1 + ceil(count / 8) bytes, a count byte equal to the rest, and a bit iterator over it yields the getter's value at every address; otherwise the first getter exception |
| Serialize.EncodeRegisterWriterSpec | rodbus/src/common/serialize.rs:221-238 | a register reply exists exactly when every getter succeeds; then it has 1 + 2 * count bytes, a count byte 2 * count, and a register iterator over it yields the getter's value at every address; otherwise the first getter exception |
| Serialize.PutU8 | rodbus/src/common/serialize.rs:142 | one byte is appended after what was written exactly when it fits; otherwise an internal InsufficientWriteSpace |
| Serialize.PutU16Be | rodbus/src/common/serialize.rs:271-273 | one register is appended big-endian exactly when two bytes fit; otherwise an internal InsufficientWriteSpace |
| Serialize.PutWords | rodbus/src/common/serialize.rs:271-273 | the registers are appended big-endian exactly when they all fit; otherwise an internal InsufficientWriteSpace |
| Serialize.PutBytes | rodbus/src/common/serialize.rs:299-301 | the bytes are appended exactly when they all fit; otherwise an internal InsufficientWriteSpace |
| Serialize.PutPackedBits | rodbus/src/common/serialize.rs:144-152 | the packed flags are appended exactly when they all fit; otherwise an internal InsufficientWriteSpace |
| Serialize.SerializeAddressRange | rodbus/src/common/serialize.rs:29-35 | the cursor succeeds exactly when the four range bytes fit, and then has written exactly them and nothing else |
| Serialize.SerializeIndexedCoil | rodbus/src/common/serialize.rs:63-69 | the cursor succeeds exactly when EncodeIndexedCoil fits, and then has written exactly it |
| Serialize.SerializeIndexedRegister | rodbus/src/common/serialize.rs:102-108 | the cursor succeeds exactly when EncodeIndexedRegister fits, and then has written exactly it |
| Serialize.PackChunk | rodbus/src/common/serialize.rs:145-150 | the accumulated byte of a chunk of up to eight flags is the packed byte of the chunk |
| Serialize.SerializeCoils | rodbus/src/common/serialize.rs:137-156 | succeeds exactly when EncodeCoils exists and fits, and then has written exactly it; a count too large is reported as its BadByteCount |
| Serialize.SerializeRegisters | rodbus/src/common/serialize.rs:266-277 | succeeds exactly when EncodeRegisters exists and fits, and then has written exactly it |
| Serialize.SerializeWriteMultipleCoils | rodbus/src/common/serialize.rs:279-284 | succeeds exactly when EncodeWriteMultipleCoils exists and fits, and then has written exactly it |
| Serialize.SerializeWriteMultipleRegisters | rodbus/src/common/serialize.rs:286-291 | succeeds exactly when EncodeWriteMultipleRegisters exists and fits, and then has written exactly it |
| Serialize.SerializeCustomFunctionCode | rodbus/src/common/serialize.rs:293-305 | succeeds exactly when EncodeCustomFunctionCode fits, and then has written exactly it |
| Serialize.PushBit | rodbus/src/common/serialize.rs:173-183 | merges one flag into the accumulator and flushes the byte once eight flags are in: the flags written plus those pending grow by exactly that flag |
| Serialize.FlushByte | rodbus/src/common/serialize.rs:178-183 | the eighth flag completes a byte: writing the accumulator appends the packed byte of all flags so far |
| Serialize.WriteBitsLoop | rodbus/src/common/serialize.rs:168-184 | after the address loop every getter has succeeded, in ascending address order, and the whole bytes are written; or the first getter exception, or an internal write error |
| Serialize.NextBit | rodbus/src/common/serialize.rs:172-184 | one address: its flag read and pushed, or the getter's exception |
| Serialize.SerializeBitWriter | rodbus/src/common/serialize.rs:158-193 | succeeds exactly when EncodeBitWriter exists and fits, and then has written exactly it; a getter exception is reported whenever the reply would fit |
| Serialize.WriteBits | rodbus/src/common/serialize.rs:168-189 | the packed flags of every address are written after the count byte, the partial last byte included, or the first getter exception, or an internal write error |
| Serialize.PartialByte | rodbus/src/common/serialize.rs:186-189 | count flags are the whole bytes plus one more byte exactly when bits are left over |
| Serialize.WriteRegistersLoop | rodbus/src/common/serialize.rs:230-234 | after the address loop every getter has succeeded and the registers are written in ascending address order; or the first getter exception, or an internal write error |
| Serialize.NextRegister | rodbus/src/common/serialize.rs:231-234 | one address: its register read and written, or the getter's exception |
| Serialize.SerializeRegisterWriter | rodbus/src/common/serialize.rs:221-238 | succeeds exactly when EncodeRegisterWriter exists and fits, and then has written exactly it; a getter exception is reported whenever the reply would fit |
| Parse.DecodeRange | rodbus/src/common/parse.rs:8-15 | fewer than four bytes is InsufficientBytes; otherwise accepted exactly when start and count form a valid range, else the range error; an accepted range is exactly its four encoded bytes followed by the rest |
| Parse.DecodeEncodeRange | rodbus/src/common/parse.rs:8-15 | decoding an encoded valid range gives the range back and leaves the following bytes alone |
| Parse.ParseAddressRange | rodbus/src/common/parse.rs:8-15 | consumes the cursor as DecodeRange specifies |
| Parse.DecodeIndexedCoil | rodbus/src/common/parse.rs:17-24 | fewer than four bytes is InsufficientBytes; otherwise accepted exactly when the state word is 0xFF00 or 0x0000, else UnknownCoilState(word); an accepted coil is exactly its encoding followed by the rest |
| Parse.DecodeEncodeIndexedCoil | rodbus/src/common/parse.rs:17-24 | decoding an encoded coil gives it back |
| Parse.ParseIndexedCoil | rodbus/src/common/parse.rs:17-24 | consumes the cursor as DecodeIndexedCoil specifies |
| Parse.DecodeIndexedRegister | rodbus/src/common/parse.rs:26-30 | succeeds exactly when four bytes are there, and the decoded register is exactly their encoding; otherwise InsufficientBytes |
| Parse.DecodeEncodeIndexedRegister | rodbus/src/common/parse.rs:26-30 | decoding an encoded register gives it back |
| Parse.ParseIndexedRegister | rodbus/src/common/parse.rs:26-30 | consumes the cursor as DecodeIndexedRegister specifies |
| Parse.DecodeCustomFunctionCode | rodbus/src/common/parse.rs:32-39 | succeeds exactly when ten bytes are there: a length word then always four words, whatever the length says; otherwise InsufficientBytes |
| Parse.ParseCustomFunctionCode | rodbus/src/common/parse.rs:32-39 | consumes the cursor as DecodeCustomFunctionCode specifies |
| Parse.TakeWords | rodbus/src/common/parse.rs:48-50 | n words are read exactly when 2n bytes are there, and they are exactly the big-endian encoding of the words read; otherwise InsufficientBytes |
| Parse.DecodeReadWriteMultiple | rodbus/src/common/parse.rs:41-54 | a decoded request is two valid ranges, some length byte and exactly one word per register of the write range, so the constructor never rejects it |
| Parse.DecodeReadWriteMultipleErrors | rodbus/src/common/parse.rs:41-54 | the decoder fails only with InsufficientBytes or the bad-request error of an invalid range |
| Parse.DecodeReadWriteMultipleRoundTrip | rodbus/src/common/parse.rs:41-54 | decoding two valid ranges, any length byte and one word per write register gives back the request: the length byte is ignored |
| Parse.TakeWordsBeWords | rodbus/src/common/parse.rs:48-50 | reading n words back from their encoding gives the words and the rest |
| Parse.DecodeReadWriteMultipleSingle | rodbus/src/common/parse.rs:126-132 | the unit test: one zero register written at 0, five read from 0 |
| Parse.DecodeReadWriteMultipleTop | rodbus/src/common/parse.rs:140-146 | the unit test: one 0xFFFF register written at 0xFFFF, five read from 0xFFFB |
| Parse.DecodeReadWriteMultipleWrongLength | rodbus/src/common/parse.rs:218-232 | the unit test marked as a known gap: a length byte of 4 with three registers' words is accepted |
| Parse.DecodeReadWriteMultipleShort | rodbus/src/common/parse.rs:183-190 | for any two valid ranges and any length byte, fewer than two bytes per register of the write range is InsufficientBytes (the unit test at these lines, a write range of three with two words, is an instance) |
| Parse.ParseReadWriteMultiple | rodbus/src/common/parse.rs:41-54 | consumes the cursor as DecodeReadWriteMultiple specifies |
| Parse.ParseWords | rodbus/src/common/parse.rs:48-50 | the word loop consumes the cursor as TakeWords specifies |
| Parse.DecodeIndexedExamples | rodbus/src/common/parse.rs:65-91 | the unit tests: ABCD is UnknownCoilState(0xABCD), 0000 and FF00 decode to off and on at index 1, CAFE decodes as a register |
| Parse.DecodeCustomFunctionCodeExamples | rodbus/src/common/parse.rs:93-104 | the unit tests: ten bytes decode to length 4 and four words; nine bytes are InsufficientBytes |
| Buffers.FreeAfterAdjust | rodbus/src/common/buffer.rs:94-109 | as written: the room the transport read gets after the index adjustment; the whole array for an empty window, and only the space behind the window when the window does not start at the front |
| Buffers.ReadSomeStallsBeforeCapacity | rodbus/src/common/buffer.rs:101-112 | a window 1..260 in a 260-byte array leaves no room as written (the read returns 0 and the buffer reports end of stream) while the capacity check leaves one byte |
| Buffers.FreeAfterAdjustChecked | rodbus/src/common/buffer.rs:101-107 | corrected: with the window moved whenever end has reached the capacity, the room plus the unread bytes is at least the room the unmoved window had |
| Buffers.FreeAfterAdjustCheckedRoom | rodbus/src/common/buffer.rs:101-107 | corrected: a window that is not full always leaves at least one byte, and never less than the space behind the window |
| Buffers.FreeAfterAdjustAgrees | rodbus/src/common/buffer.rs:101-107 | the written and the corrected adjustment differ exactly when the window ends at the capacity but does not start at the front |
| Buffers.ReadBuffer.constructor | rodbus/src/common/buffer.rs:16-22 | an empty window at 0 over a fresh array of the frame capacity |
| Buffers.ReadBuffer.Len | rodbus/src/common/buffer.rs:25-27 | the number of unread bytes |
| Buffers.ReadBuffer.IsEmpty | rodbus/src/common/buffer.rs:30-32 | true exactly when nothing is unread |
| Buffers.ReadBuffer.Read | rodbus/src/common/buffer.rs:35-47 | succeeds exactly when count bytes are unread, returning and consuming exactly those; otherwise InsufficientBytesForRead(count, len) and nothing changes |
| Buffers.ReadBuffer.ReadU8 | rodbus/src/common/buffer.rs:50-61 | succeeds exactly when a byte is unread, returning and consuming it; otherwise InsufficientBytesForRead(1, 0) and nothing changes |
| Buffers.ReadBuffer.PeekAt | rodbus/src/common/buffer.rs:64-73 | the byte idx places into the window for idx below len, an error above len; idx equal to len reads the array slot just past the window whenever there is one |
| Buffers.ReadBuffer.ReadU16Be | rodbus/src/common/buffer.rs:76-80 | succeeds exactly when two bytes are unread, high byte first, consuming both; with one byte that byte is consumed before the error |
| Buffers.ReadBuffer.ReadU16Le | rodbus/src/common/buffer.rs:83-87 | succeeds exactly when two bytes are unread, low byte first, consuming both; with one byte that byte is consumed before the error |
| Buffers.ReadBuffer.ShiftToFront | rodbus/src/common/buffer.rs:103-106 | the window moves to index 0 and keeps exactly the same unread bytes |
| Buffers.ReadBuffer.CopyWithin | rodbus/src/common/buffer.rs:104 | the bytes from..to are copied to the front of the array |
| Buffers.ReadBuffer.ReadSome | rodbus/src/common/buffer.rs:89-116 | as written: after the adjustment as many incoming bytes as fit behind the window are appended to the unread bytes; zero bytes is UnexpectedEof |
| Buffers.ReadBuffer.ReadSomeChecked | rodbus/src/common/buffer.rs:89-116 | corrected: the same with the window moved whenever end has reached the capacity |
| Buffers.ReadBuffer.Fill | rodbus/src/common/buffer.rs:109-115 | the transport read: as many bytes as fit are appended to the unread bytes and end advances by that count; zero bytes is UnexpectedEof and nothing moves |
| Buffers.ReadBuffer.CopyAt | rodbus/src/common/buffer.rs:109 | the bytes are written from index at, and those before it are untouched |
| Buffers.ReadBuffer.Appended | rodbus/src/common/buffer.rs:109-114 | bytes written right behind the window extend the window by exactly those bytes |
| Buffers.ShiftExample | rodbus/src/common/buffer.rs:138-183 | the unit test: read 01 02 03, consume two, read 04 05; the window then holds 03 04 05 |
| Frames.TxId.constructor | rodbus/src/common/frame.rs:24-26 | the counter starts at the id it is given |
| Frames.TxId.Next | rodbus/src/common/frame.rs:32-42 | hands out the current id and advances the counter by one, 65535 wrapping to 0 |
| Frames.TxIdAtStep | rodbus/src/common/frame.rs:32-42 | advancing once from the k-th id gives the (k+1)-th id |
| Frames.TxIdsDistinct | rodbus/src/common/frame.rs:32-42 | any 65536 consecutive transaction ids are pairwise distinct, so no two outstanding requests within a full cycle share an id |
| Frames.FrameDestination.Value | rodbus/src/common/frame.rs:70-75 | the unit id byte on the wire: 0 for broadcast, the unit's own id otherwise |
| Frames.FrameDestination.IntoUnitId | rodbus/src/common/frame.rs:77-79 | the unit id carries the same byte as the destination's wire value |
| Frames.NewTcpHeader | rodbus/src/common/frame.rs:99-104 | a TCP header is addressed to the unit and carries the transaction id |
| Frames.NewRtuHeader | rodbus/src/common/frame.rs:106-112 | an RTU header keeps the destination and has no transaction id |
| Frames.Frame.constructor | rodbus/src/common/frame.rs:121-127 | a new frame has the given header and an empty payload |
| Frames.Frame.Payload | rodbus/src/common/frame.rs:139-141 | the payload never exceeds the 253-byte maximum PDU |
| Frames.Frame.Set | rodbus/src/common/frame.rs:129-137 | succeeds exactly when the source fits in 253 bytes, and then the payload is the source; a refused source leaves the frame unchanged |
| Frames.FrameSetExample | rodbus/src/common/frame.rs:129-141 | a source of exactly the maximum length is accepted and read back unchanged |
| Frames.PduBytes | rodbus/src/common/pdu.rs:17-23 | a PDU is the function code byte followed by the body; it fails exactly when the body fails, with the body's error |
| Frames.ErrorResponse.Bytes | rodbus/src/common/frame.rs:233-249 | an exception reply is two bytes, the error function byte and the exception byte, and that byte decodes back to the exception |
| Frames.NewErrorResponse | rodbus/src/common/frame.rs:222-230 | the reply's function byte has its top bit set, so it is never a valid request function code, and it carries the exception |
| Frames.NullFrameFormatter.FormatImpl | rodbus/src/common/frame.rs:255-262 | the null formatter writes nothing, whatever the message |
| Frames.NullFrameFormatter.GetFullBufferImpl | rodbus/src/common/frame.rs:264-266 | the null formatter has no buffer to hand out |
| Frames.NullFrameFormatter.GetPayloadImpl | rodbus/src/common/frame.rs:268-270 | the null formatter has no payload to hand out |
| Frames.NullFrameFormatter.Format | rodbus/src/common/frame.rs:272-280 | formatting any message, even one that fails to serialize, yields an empty frame |
| Frames.NullFrameFormatter.Error | rodbus/src/common/frame.rs:282-289 | formatting an exception reply yields an empty frame |
| Frames.NullFrameFormatter.Exception | rodbus/src/common/frame.rs:222-230 | the shared exception path, through the null error formatter, yields an empty frame |
| Frames.NextFrame | rodbus/src/common/frame.rs:309-326 | the parser is called on the buffered bytes until it yields a frame or an error; the transport is read only after a "need more bytes" answer, each call sees the previous leftover followed by the new chunk, a frame leaves exactly the unconsumed bytes buffered, a parse error is returned and resets the parser, and an exhausted transport ends in an unexpected end of stream; when it ends so while a non-empty chunk was still to come, the window reached the capacity (the stall of `read_some` as written) |
| Mbap.DecodeHeader | rodbus/src/tcp/frame.rs:41-67 | a header is accepted exactly when the protocol id is 0 and the length field is between 1 and 254; the transaction id and unit id are carried over and the PDU length is the field minus one; otherwise the error names the first failed check (unknown protocol id, length too big, length zero) |
| Mbap.Step | rodbus/src/tcp/frame.rs:75-107 | one parse call never consumes more bytes than it is given |
| Mbap.ParserConsumes | rodbus/src/tcp/frame.rs:75-107 | the MBAP parser meets the frame reader's requirement that a parse consumes at most the buffered bytes |
| Mbap.StepWaitsForHeader | rodbus/src/tcp/frame.rs:98-101 | with fewer than seven bytes buffered the parser consumes nothing and asks for more |
| Mbap.StepKeepsHeader | rodbus/src/tcp/frame.rs:81-84 | a complete header with an incomplete body consumes the header and keeps it in the state until the body arrives |
| Mbap.StepFrame | rodbus/src/tcp/frame.rs:69-97 | a valid header followed by enough bytes yields a frame with the header's transaction id and unit id and exactly length-minus-one PDU bytes, consumes header and body, and returns to the initial state |
| Mbap.StepBegin | rodbus/src/tcp/frame.rs:98-105 | after a good header the parser goes on at once with the body under that header |
| Mbap.StepHeaderError | rodbus/src/tcp/frame.rs:41-67 | a bad header is reported as an error after the seven header bytes are consumed, and the state stays at the start |
| Mbap.StepResumes | rodbus/src/tcp/frame.rs:75-107 | bytes may arrive in any pieces: resuming after a "need more" answer with further bytes ends where one call on all the bytes ends, having consumed the same bytes |
| Mbap.MbapParser.constructor | rodbus/src/tcp/frame.rs:35-39 | a new parser waits for a header |
| Mbap.MbapParser.ReadHeaderFields | rodbus/src/tcp/frame.rs:42-45 | the four header fields are read big-endian from the seven bytes, which are consumed |
| Mbap.MbapParser.ParseHeader | rodbus/src/tcp/frame.rs:41-67 | agrees with the header decoder on the seven unread bytes and consumes them |
| Mbap.MbapParser.ParseBody | rodbus/src/tcp/frame.rs:69-73 | the frame holds the next PDU-length bytes under a TCP header, which are consumed |
| Mbap.MbapParser.Parse | rodbus/src/tcp/frame.rs:75-107 | the in-place parser does what one step of the state machine does: same next state, same bytes consumed, same answer |
| Mbap.MbapParser.Reset | rodbus/src/tcp/frame.rs:109-111 | the parser returns to waiting for a header |
| Mbap.EncodeMbap | rodbus/src/tcp/frame.rs:114-149 | the frame is the seven-byte header followed by the PDU unchanged |
| Mbap.ParseEncodeMbap | rodbus/src/tcp/frame.rs:41-149 | round trip: parsing a formatted frame of at most 253 PDU bytes yields the same transaction id, unit id and PDU and consumes exactly the frame |
| Mbap.ParseEncodeMbapTooLong | rodbus/src/tcp/frame.rs:51-55 | a PDU longer than 253 bytes produces a length field the parser rejects as too big |
| Mbap.HeaderOfTooLong | rodbus/src/tcp/frame.rs:51-55 | the header written for a PDU longer than 253 bytes decodes to a frame-length-too-big error carrying the length field (PDU length plus one) and the limit 254 |
| Mbap.FormatMbap | rodbus/src/tcp/frame.rs:114-149 | succeeds exactly when the message serializes and header plus PDU fit the buffer, and then the buffer holds the encoded frame at the old position; a message error is passed through, and a buffer too short for the header fails |
| Mbap.LengthPatched | rodbus/src/tcp/frame.rs:135-140 | writing the length field over the blank header completes the encoded frame |
| Mbap.BlankHeader | rodbus/src/tcp/frame.rs:125-129 | the header as first written has seven bytes |
| Mbap.WriteBlankHeader | rodbus/src/tcp/frame.rs:125-129 | the first header writes succeed exactly when seven bytes remain, skipping the length bytes; each fails in turn on a short buffer |
| Mbap.BlankHeaderWritten | rodbus/src/tcp/frame.rs:125-129 | the three header writes together leave the blank header in the buffer |
| Mbap.FormatsSimpleFrame | rodbus/src/tcp/frame.rs:251-264 | transaction 7, unit 42 and PDU 03 04 format to the nine bytes of the unit test |
| Mbap.ParsesSimpleFrame | rodbus/src/tcp/frame.rs:266-279 | those nine bytes parse back to transaction 7, unit 42 and PDU 03 04 |
| Mbap.ParsesSegmentedFrame | rodbus/src/tcp/frame.rs:219-235 | the frame split inside the header or inside the payload still parses to the same frame |
| Mbap.ParsesMaximumFrame | rodbus/src/tcp/frame.rs:281-305 | a length field of 0xFE carries a 253-byte PDU |
| Mbap.HeaderErrors | rodbus/src/tcp/frame.rs:317-346 | protocol id 0xCAFE, length 0 and length 0xFF are rejected with their respective errors |
| Rtu.LengthModeOf | rodbus/src/serial/frame.rs:79-114 | requests of functions 1-6 have a 4-byte body and the two multiple writes take their length from the byte at offset 5; responses of the four reads take it from offset 1 and the writes have 4 bytes; a response with the top bit set is a one-byte exception reply; any other code has no length rule |
| Rtu.Then | rodbus/src/serial/frame.rs:121-207 | a step that hands over after consuming n bytes ends where the inner step ends, having consumed n more |
| Rtu.ExpectedCrc | rodbus/src/serial/frame.rs:178-185 | the CRC expected of a frame is the Modbus CRC of the unit id followed by the PDU |
| Rtu.Step | rodbus/src/serial/frame.rs:121-207 | one parse call never consumes more bytes than it is given |
| Rtu.ParserConsumes | rodbus/src/serial/frame.rs:121-207 | the RTU parser meets the frame reader's requirement that a parse consumes at most the buffered bytes |
| Rtu.EncodeRtu | rodbus/src/serial/frame.rs:215-254 | a frame is the unit id, the PDU unchanged, then two CRC bytes |
| Rtu.StepBody | rodbus/src/serial/frame.rs:158-206 | a body of the announced length followed by two CRC bytes is consumed whole; it is the frame when the CRC matches the unit id and PDU, a CRC validation failure otherwise |
| Rtu.StepHeader | rodbus/src/serial/frame.rs:123-144 | from the start, the unit id is consumed and the function code, left in place, decides the body length to read |
| Rtu.StepCrcMismatch | rodbus/src/serial/frame.rs:187-192 | a frame whose CRC bytes do not match is rejected with both the received and the expected value, the whole frame consumed |
| Rtu.ParseEncodeRtu | rodbus/src/serial/frame.rs:121-254 | round trip: parsing a formatted frame whose length its function code announces yields the same unit id and PDU and consumes exactly the frame, leaving what follows |
| Rtu.BodySound | rodbus/src/serial/frame.rs:158-206 | a frame accepted while reading a body is exactly the next length-plus-one bytes, followed by their CRC |
| Rtu.StepSound | rodbus/src/serial/frame.rs:121-207 | conversely, every frame the parser accepts from the start is an encoded frame: a delimited PDU behind its unit id, followed by its own CRC |
| Rtu.FrameIsEncoded | rodbus/src/serial/frame.rs:215-254 | a unit id, a PDU and that PDU's CRC at the front of the bytes are the encoded frame |
| Rtu.StartLength | rodbus/src/serial/frame.rs:132-156 | a step from the start that gets past the function code reads a body whose length is the fixed one, or the offset plus the announced byte count |
| Rtu.FrameBytes | rodbus/src/serial/frame.rs:171-176 | the first k+3 bytes split as unit id, k PDU bytes and two CRC bytes |
| Rtu.PrefixPending | rodbus/src/serial/frame.rs:502-545 | every proper prefix of a frame leaves the parser asking for more, so fed byte by byte it answers only at the last byte |
| Rtu.StepOffsetTooBig | rodbus/src/serial/frame.rs:158-166 | a byte count announcing more than the PDU limit is rejected as soon as the count arrives, before any of the body |
| Rtu.StepUnknownFunction | rodbus/src/serial/frame.rs:137-141 | a function code with no length rule is rejected, naming that code |
| Rtu.StepResumes | rodbus/src/serial/frame.rs:121-207 | bytes may arrive in any pieces: resuming after a "need more" answer ends where one call on all the bytes ends, having consumed the same bytes |
| Rtu.BodyWaits | rodbus/src/serial/frame.rs:168-170 | a body still short of bytes waits in its state, having consumed nothing |
| Rtu.BodyResumes | rodbus/src/serial/frame.rs:158-206 | a waiting body is read afresh from the longer buffer |
| Rtu.OffsetResumes | rodbus/src/serial/frame.rs:146-156 | waiting for the byte count resumes to the same body state and result |
| Rtu.StartResumes | rodbus/src/serial/frame.rs:123-144 | waiting at the start resumes to the same body state and result |
| Rtu.StartNext | rodbus/src/serial/frame.rs:123-144 | the state a start step hands over to depends only on the unit id and function code |
| Rtu.InnerResumes | rodbus/src/serial/frame.rs:146-206 | resuming holds for every state reached after the unit id |
| Rtu.ParsesTwoFrames | rodbus/src/serial/frame.rs:547-609 | two frames back to back parse as two frames, the second from the bytes the first left |
| Rtu.RtuParser.NewRequestParser | rodbus/src/serial/frame.rs:62-68 | a server's parser reads requests and waits for a frame |
| Rtu.RtuParser.NewResponseParser | rodbus/src/serial/frame.rs:70-76 | a client's parser reads responses and waits for a frame |
| Rtu.RtuParser.ReadFrame | rodbus/src/serial/frame.rs:171-176 | the frame holds the function code and body bytes, the received CRC is the next two bytes little-endian, and all of them are consumed |
| Rtu.RtuParser.Parse | rodbus/src/serial/frame.rs:121-207 | the in-place parser does what one step of the state machine does: same next state, same bytes consumed, same answer |
| Rtu.RtuParser.ParseStart | rodbus/src/serial/frame.rs:123-144 | the start branch agrees with the state machine |
| Rtu.RtuParser.ParseToOffset | rodbus/src/serial/frame.rs:146-156 | the byte-count branch agrees with the state machine |
| Rtu.RtuParser.ParseFullBody | rodbus/src/serial/frame.rs:158-206 | the body branch agrees with the state machine |
| Rtu.RtuParser.Reset | rodbus/src/serial/frame.rs:209-211 | the parser returns to waiting for a frame |
| Rtu.RtuFormatter.constructor | rodbus/src/serial/frame.rs:52-59 | a new formatter owns a buffer of the largest frame size |
| Rtu.RtuFormatter.FormatImpl | rodbus/src/serial/frame.rs:215-254 | succeeds exactly when the message serializes within the PDU limit, and then the buffer starts with the encoded frame and the length is the frame's; a message error is passed on and an oversized message is an insufficient-space error |
| Rtu.RtuFormatter.WriteCrc | rodbus/src/serial/frame.rs:230-238 | the CRC of the bytes written so far is stored little-endian right after them, when two bytes remain |
| Rtu.RtuFormatter.CrcAppended | rodbus/src/serial/frame.rs:220-238 | the unit id and message followed by their CRC make the encoded frame |
| Rtu.RtuFormatter.GetFullBufferImpl | rodbus/src/serial/frame.rs:256-258 | the first size bytes of the buffer, when it holds that many |
| Rtu.RtuFormatter.GetPayloadImpl | rodbus/src/serial/frame.rs:260-263 | the bytes between the unit id and the CRC, when the size covers both and fits the buffer |
| Rtu.RtuFormatter.GetFullBuffer | rodbus/src/common/frame.rs:176-181 | the full frame, or a bad-seek error when the buffer does not hold it |
| Rtu.RtuFormatter.GetPayload | rodbus/src/common/frame.rs:183-191 | the PDU after its function code, or a bad-seek error |
| Rtu.RtuFormatter.Error | rodbus/src/common/frame.rs:233-249 | an exception reply is framed as the encoded frame of its two bytes |
| Rtu.RtuFormatter.Exception | rodbus/src/common/frame.rs:222-230 | the reply to a function carrying an exception is the frame of the error function byte and the exception byte |
| Rtu.RtuFormatter.Format | rodbus/src/common/frame.rs:194-220 | a message that serializes is framed behind its function code; an oversized one is an insufficient-space error; one that fails with an exception code is answered with that exception reply instead; any other failure is passed on |
| Rtu.ExceptionFrameParses | rodbus/src/serial/frame.rs:102-112 | the exception reply the formatter writes is a frame a response parser accepts whole, since a top-bit function byte announces one code byte |
| Rtu.FormattedViews | rodbus/src/serial/frame.rs:256-263 | after a frame is written, the payload view is the PDU without its function code and the full view is the frame |
| Rtu.ReadHoldingRequestChecksum | rodbus/src/serial/frame.rs:345-351 | the CRC of unit 0x2A reading 3 holding registers from 0x10 is 0x1502, as the test frame carries |
| Rtu.ReadHoldingRequestFrame | rodbus/src/serial/frame.rs:345-351 | that request is what the formatter writes for its PDU, and a request parser takes it whole in one step |
| Rtu.ReadHoldingResponseChecksum | rodbus/src/serial/frame.rs:353-359 | the CRC of the 3-register response is 0x6030, as the test frame carries |
| Rtu.ReadHoldingResponseFrame | rodbus/src/serial/frame.rs:353-359 | its length comes from the byte count, and a response parser takes it whole in one step |
| Rtu.WriteCoilsRequestChecksum | rodbus/src/serial/frame.rs:409-417 | the CRC of the write of 10 coils is 0x2E00, as the test frame carries |
| Rtu.WriteCoilsRequestFrame | rodbus/src/serial/frame.rs:409-417 | its length comes from the byte count at offset 5, and a request parser takes it whole in one step |
| Crc.ShiftBitFolds | rodbus/src/serial/frame.rs:178-185 | one shift of the CRC-16/MODBUS register XORs in the reflected polynomial 0xA001 exactly when the bit shifted out is 1 |
| Crc.UpdateAppend | rodbus/src/serial/frame.rs:178-185 | two digest updates equal one update of the concatenation, so the parser's unit-id-then-payload digest equals the formatter's one-shot checksum |
| Crc.UpdateSnoc | rodbus/src/serial/frame.rs:181-187 | digesting one more byte puts it on top of the digest of the bytes before it, so bytes can be digested as they arrive |
| Crc.CheckValue | rodbus/src/serial/frame.rs:231 | the checksum of the ASCII digits 123456789 is 0x4B37, the published check value of CRC-16/MODBUS |
| Phys.NewDuration | rodbus/src/common/phys.rs:148-150 | a duration built from seconds and nanoseconds is exactly that many nanoseconds long, excess nanoseconds carrying into seconds |
| Phys.MulU32Exact | rodbus/src/common/phys.rs:150 | multiplying a duration by an integer multiplies its length exactly |
| Phys.DivWholeSeconds | rodbus/src/common/phys.rs:149 | dividing a whole number of seconds by the baud rate gives the nanosecond count rounded down |
| Phys.DivByTen | rodbus/src/common/phys.rs:150 | dividing a duration by ten gives its length divided by ten, rounded down |
| Phys.InterCharacterDelay | rodbus/src/common/phys.rs:135-158 | a delay exists for every baud rate but zero, where the source divides by zero |
| Phys.InterCharacterDelayNanos | rodbus/src/common/phys.rs:135-158 | up to 19200 baud the delay is 3.5 character times of 11 bits, each division rounding down; above it, or with the rate unknown, it is 1750 microseconds |
| Phys.CharacterTimeAtLeast | rodbus/src/common/phys.rs:137-141 | at 19200 baud or slower one character lasts at least 572916 ns |
| Phys.InterCharacterDelayAtLeastMin | rodbus/src/common/phys.rs:135-158 | whatever the baud rate, the delay is never shorter than the 1750-microsecond minimum, so a slow line never waits less than a fast one |
| Phys.ScaledQuotientBound | rodbus/src/common/phys.rs:149-150 | rounding down twice never overshoots 3.5 times the unrounded quotient |
| Phys.InterCharacterDelayAtMostThreeAndAHalf | rodbus/src/common/phys.rs:147-151 | up to 19200 baud the delay never exceeds three and a half character times |
| Phys.InterCharacterDelayExamples | rodbus/src/common/phys.rs:135-158 | 9600 baud waits 4010415 ns, 19200 baud 2005206 ns, 115200 baud 1750 us |
| Phys.Hex2 | rodbus/src/common/phys.rs:170 | each byte prints as exactly two upper-case hex digits |
| Phys.Hex2RoundTrip | rodbus/src/common/phys.rs:170 | reading the two digits back gives the byte, so the dump loses nothing |
| Phys.Dump | rodbus/src/common/phys.rs:162-175 | the dump has three characters per byte |
| Phys.DumpAt | rodbus/src/common/phys.rs:162-175 | byte i sits at offset 3i behind a line break when it starts a chunk of 18 and a space otherwise |
| Phys.DumpSnoc | rodbus/src/common/phys.rs:162-175 | one more byte extends the dump of the bytes before it by its separator and its two digits |
| Phys.FormatBytes | rodbus/src/common/phys.rs:162-175 | the chunked, nested loop writes exactly the dump |
| Phys.ChunkPosition | rodbus/src/common/phys.rs:163-169 | only the first byte of each 18-byte chunk starts a line |
| Phys.DumpExample | rodbus/src/common/phys.rs:162-175 | the bytes 0A FF dump as a line break followed by "0A FF" |
| Phys.PhysLayer.NewTcp | rodbus/src/common/phys.rs:36-40 | a TCP layer has no delay and has sent nothing |
| Phys.PhysLayer.NewSerial | rodbus/src/common/phys.rs:42-47 | a serial layer takes its delay from the port's baud rate and has no last activity yet |
| Phys.PhysLayer.Write | rodbus/src/common/phys.rs:86-112 | the data is appended to what was sent; TCP sends at once; a serial write waits until the last activity plus the delay, and records its own send time as the last activity |
| Phys.WritesKeepDelay | rodbus/src/common/phys.rs:96-104 | two serial writes in a row are at least one inter-character delay apart, whenever the second is issued |
| ClientMessage.Function | rodbus/src/client/message.rs:124-136 | each kind of request is sent with its own function code, distinct from every other kind's, and a custom request with a user-defined code |
| ClientMessage.ReadRequestRoundTrip | rodbus/src/client/message.rs:176-190 | a read request's body is four bytes, which the server's range parser decodes back to the requested range |
| ClientMessage.ErrorFor | rodbus/src/client/message.rs:85-121 | an exception is reported only for the expected function's error byte followed by exactly one code byte; an unknown-function error exactly when the byte is not that error byte |
| ClientMessage.CheckFunction | rodbus/src/client/message.rs:61-83 | a reply goes on to the request's handler exactly when its first byte is the expected function code, and then the handler gets the bytes after it; an empty reply is an insufficient-bytes error |
| ClientMessage.ExceptionReply | rodbus/src/client/message.rs:85-102 | an exception reply of the error byte and one code byte yields the exception of that code, which converts back to the same byte |
| ClientMessage.ExceptionReplyMalformed | rodbus/src/client/message.rs:90-107 | an exception reply without a code byte is an insufficient-bytes error, and one with extra bytes a trailing-bytes error, never an exception |
| ClientMessage.OtherFunctionReply | rodbus/src/client/message.rs:108-119 | a reply with any other function byte is an unknown-function error naming the received byte, the expected byte and its exception form |
| ClientMessage.HandlerResult | rodbus/src/client/message.rs:152-174 | every request handler but the custom one accepts any body; the custom one accepts exactly a body that decodes |
| ClientMessage.HandleDetails | rodbus/src/client/message.rs:152-174 | each kind of request hands the body to its own handler, which completes that request's promise as its handler promises |
| ClientMessage.HandleResponse | rodbus/src/client/message.rs:61-83 | a reply with the wrong function byte is reported as the error and leaves the promise untouched; a matching reply is handed, without its function byte, to the request's handler |
| ClientMessage.Fail | rodbus/src/client/message.rs:138-150 | failing a request delivers the error to that request's promise, whatever its kind |
| ClientPromise.Promise.constructor | rodbus/src/client/message.rs:280-287 | a new promise holds its callback and has delivered nothing |
| ClientPromise.Promise.Complete | rodbus/src/client/message.rs:303-307 | the callback is invoked with the result only if it is still held, and is then gone, so it runs at most once |
| ClientPromise.Promise.Failure | rodbus/src/client/message.rs:295-297 | failing delivers the error, if the callback is still held |
| ClientPromise.Promise.Success | rodbus/src/client/message.rs:299-301 | succeeding delivers the value, if the callback is still held |
| ClientPromise.Promise.Drop | rodbus/src/client/message.rs:310-317 | dropping a promise nobody completed delivers a shutdown error; a completed promise stays silent |
| ClientPromise.CompleteThenDrop | rodbus/src/client/message.rs:303-317 | completing and then dropping a promise invokes the callback exactly once, with the completion's result |
| ClientPromise.DropFresh | rodbus/src/client/message.rs:392-405 | a request dropped before any reply delivers exactly one shutdown error |
| ClientPromise.ReadPromise.constructor | rodbus/src/client/requests/read_bits.rs:9-12 | a read promise, channel or callback, starts unused |
| ClientPromise.ReadPromise.Complete | rodbus/src/client/requests/read_bits.rs:19-27 | the moved promise is used once, delivering the result |
| ClientPromise.ReadPromise.Failure | rodbus/src/client/requests/read_bits.rs:15-17 | failing a read promise delivers the error |
| ClientRequests.DecodeBitsResponse | rodbus/src/client/requests/read_bits.rs:74-83 | a bit reply is accepted exactly when one byte-count byte is followed by exactly ceil(count/8) packed bytes, and then yields count bits, bit k taken from the packed bytes at position k; fewer bytes are an insufficient-bytes error and more a trailing-bytes error |
| ClientRequests.DecodeBitsResponseOfEncode | rodbus/src/client/requests/read_bits.rs:74-83 | round trip: the coils a server packs behind a byte count decode back, indexed from the range start |
| ClientRequests.DecodeBitsResponseIgnoresCount | rodbus/src/client/requests/read_bits.rs:79-80 | the reply's byte-count byte is never checked: any value gives the same result |
| ClientRequests.ParseBitsResponse | rodbus/src/client/requests/read_bits.rs:74-83 | the cursor-based parse succeeds exactly when the decoder does and yields an iterator over its bits, or its error |
| ClientRequests.ReadBits.constructor | rodbus/src/client/requests/read_bits.rs:35-37 | the request keeps its range and promise |
| ClientRequests.ReadBits.HandleResponse | rodbus/src/client/requests/read_bits.rs:47-72 | the promise is completed once with the decoded reply, success or error alike |
| ClientRequests.DecodeRegistersResponseOfEncode | rodbus/src/client/requests/read_registers.rs:76-85 | round trip: the registers a server writes behind a byte count decode back, indexed from the range start |
| ClientRequests.ReadRegisters.constructor | rodbus/src/client/requests/read_registers.rs:37-39 | the request keeps its range and promise |
| ClientRequests.ReadRegisters.HandleResponse | rodbus/src/client/requests/read_registers.rs:49-85 | the promise is completed once with the reply decoded against the request's range, success or error alike |
| ClientRequests.EncodeSingleWrite | rodbus/src/client/requests/write_single.rs:51-76 | a single write is four bytes: the index, then the coil state or register value, big-endian |
| ClientRequests.DecodeSingleWrite | rodbus/src/client/requests/write_single.rs:58-76 | a decoded echo is of the same kind as the request and is exactly the four bytes it consumed |
| ClientRequests.DecodeEncodeSingleWrite | rodbus/src/client/requests/write_single.rs:51-76 | round trip: decoding what serialize wrote gives the operation back, leaving what follows |
| ClientRequests.SingleWriteReply | rodbus/src/client/requests/write_single.rs:41-49 | an accepted reply is the request itself |
| ClientRequests.SingleWriteReplyIsEcho | rodbus/src/client/requests/write_single.rs:41-76 | a single-write reply is accepted exactly when it is the byte-for-byte echo of the request |
| ClientRequests.SingleWriteReplyErrors | rodbus/src/client/requests/write_single.rs:41-49 | a short reply is an insufficient-bytes error, then trailing bytes, then an echo mismatch, in that order |
| ClientRequests.SingleWriteReplyExamples | rodbus/src/client/requests/write_single.rs:58-64 | 00 01 AB CD is an unknown coil state; 00 01 FF 00 is coil 1 on, accepted for that request and a mismatch for coil 1 off |
| ClientRequests.ParseSingleWrite | rodbus/src/client/requests/write_single.rs:58-76 | the cursor-based parse agrees with the decoder, consuming exactly what it consumes |
| ClientRequests.SingleWrite.constructor | rodbus/src/client/requests/write_single.rs:24-26 | the request keeps its operation and promise |
| ClientRequests.SingleWrite.ParseAll | rodbus/src/client/requests/write_single.rs:41-49 | the cursor-based check gives the reply's verdict |
| ClientRequests.SingleWrite.HandleResponse | rodbus/src/client/requests/write_single.rs:36-39 | the promise is completed with the reply's verdict, if it is still waiting |
| ClientRequests.MultipleWriteReply | rodbus/src/client/requests/write_multiple.rs:59-67 | an accepted reply is the request's own range |
| ClientRequests.MultipleWriteReplyIsEcho | rodbus/src/client/requests/write_multiple.rs:59-67 | a valid range is acknowledged exactly by its own four bytes |
| ClientRequests.MultipleWriteReplyMismatchFirst | rodbus/src/client/requests/write_multiple.rs:59-67 | a different range is an echo mismatch even when bytes follow it: the comparison comes before the trailing-bytes check |
| ClientRequests.MultipleWrite.constructor | rodbus/src/client/requests/write_multiple.rs:22-24 | the request keeps its values and promise |
| ClientRequests.MultipleWrite.ParseAll | rodbus/src/client/requests/write_multiple.rs:59-67 | the cursor-based check gives the reply's verdict |
| ClientRequests.MultipleWrite.HandleResponse | rodbus/src/client/requests/write_multiple.rs:34-57 | the promise is completed with the reply's verdict, if it is still waiting |
| ClientRequests.DecodeCustomFcResponse | rodbus/src/client/requests/send_custom_fc.rs:79-97 | a custom reply is accepted exactly when it is three header bytes followed by exactly as many words as its output count says, and then carries those fields; a short reply is insufficient and a count that disagrees with the words present is an error |
| ClientRequests.DecodeEncodeCustomFc | rodbus/src/client/requests/send_custom_fc.rs:66-97 | round trip: decoding what serialize wrote gives the request back when its output count matches its data |
| ClientRequests.DecodeCustomFcOddLength | rodbus/src/client/requests/send_custom_fc.rs:79-97 | an odd byte after the declared words is a trailing-bytes error |
| ClientRequests.ParseCustomFc | rodbus/src/client/requests/send_custom_fc.rs:79-97 | the word-by-word loop agrees with the decoder, and a success consumes the whole reply |
| ClientRequests.CustomFcRequest.constructor | rodbus/src/client/requests/send_custom_fc.rs:29-31 | the request keeps its value and promise |
| ClientRequests.CustomFcRequest.HandleResponse | rodbus/src/client/requests/send_custom_fc.rs:41-64 | a reply that does not decode is returned as the error and leaves the promise alone; a decoded reply completes it successfully |
| ClientRequests.MultipleReadWriteRequest.constructor | rodbus/src/client/requests/read_write_multiple.rs:102-104 | the request keeps its value and promise |
| ClientRequests.MultipleReadWriteRequest.HandleResponse | rodbus/src/client/requests/read_write_multiple.rs:114-130 | as written: the reply is decoded against the write range; a failure is returned and leaves the promise alone, a success completes it |
| ClientRequests.MultipleReadWriteRequest.HandleResponseByReadRange | rodbus/src/client/requests/read_write_multiple.rs:114-130 | corrected: the reply is decoded against the read range, whose registers it carries |
| ClientRequests.ReadWriteReplyByWriteRangeRefused | rodbus/src/client/requests/read_write_multiple.rs:120 | a reply carrying five read registers is refused as trailing bytes when decoded against a one-register write range, and delivered at the read addresses when decoded against the read range |
| ReadWriteMultiples.LengthAsU16 | rodbus/src/client/requests/read_write_multiple.rs:37 | below 65536 the cast keeps the length unchanged |
| ReadWriteMultiples.New | rodbus/src/client/requests/read_write_multiple.rs:32-47 | as written: accepted exactly when the write count equals the number of values cut to 16 bits, and then keeps the two ranges and the values; otherwise a count-too-big error naming both counts |
| ReadWriteMultiples.NewAcceptsWrappedLength | rodbus/src/client/requests/read_write_multiple.rs:37-40 | 65537 values are accepted for a one-register write range |
| ReadWriteMultiples.NewChecked | rodbus/src/client/requests/read_write_multiple.rs:32-47 | corrected: accepted exactly when the write count equals the full number of values |
| ReadWriteMultiples.WrappedEnumerate | rodbus/src/client/requests/read_write_multiple.rs:71-81 | the k-th pair holds the k-th value and the address first + k cut to 16 bits |
| ReadWriteMultiples.WrappedEnumerateInRange | rodbus/src/client/requests/read_write_multiple.rs:71-81 | while the addresses stay inside the address space the wrapped pairs are the plain pairs start + k |
| ReadWriteMultiples.WrappedEnumerateTail | rodbus/src/client/requests/read_write_multiple.rs:71-81 | dropping the first pair leaves the pairs of the remaining values from the next address |
| ReadWriteMultiples.WrappedRequestWrapsAddress | rodbus/src/client/requests/read_write_multiple.rs:37-40 | the 65537-value request the cut lets through writes its second value to address 0 after 0xFFFF |
| ReadWriteMultiples.NewCheckedIterable | rodbus/src/client/requests/read_write_multiple.rs:49-81 | a request the corrected check accepts over a valid write range is iterated without any wrap: the k-th value goes to address start + k |
| ReadWriteMultiples.NewCheckedAgrees | rodbus/src/client/requests/read_write_multiple.rs:32-47 | below 65536 values the two checks agree |
| ReadWriteMultiples.ReadWriteMultipleIterator.constructor | rodbus/src/client/requests/read_write_multiple.rs:55-61 | a new iterator over any range and values is at position 0 with every value still to come, addressed from the range start |
| ReadWriteMultiples.ReadWriteMultipleIterator.SizeHint | rodbus/src/client/requests/read_write_multiple.rs:84-87 | the hint is the count minus the number yielded while that is not negative, and exactly the number of pairs still to come when there are as many values as the count |
| ReadWriteMultiples.ReadWriteMultipleIterator.Next | rodbus/src/client/requests/read_write_multiple.rs:70-81 | yields the next value paired with the range start plus the number yielded, cut to 16 bits as the u16 addition wraps, or nothing once the values are exhausted (then nothing changes) |
| ReadWriteMultiples.ReadWriteMultipleIterator.Collect | rodbus/src/client/requests/read_write_multiple.rs:64-88 | collecting yields every pair still to come, in order |
| ReadWriteMultiples.Iter | rodbus/src/client/requests/read_write_multiple.rs:49-51 | the iterator of any request yields each value paired with its address from the write range's start, wrapping past 0xFFFF |
| ReadWriteMultiples.DecodeRegistersResponse | rodbus/src/client/requests/read_write_multiple.rs:132-140 | the reply is accepted exactly when a byte-count byte is followed by exactly two bytes per register of the range, and then yields the words indexed from the range start; shorter is insufficient, longer trailing bytes |
| ReadWriteMultiples.DecodeRegistersResponseIgnoresCount | rodbus/src/client/requests/read_write_multiple.rs:136-137 | the reply's byte-count byte is never checked |
| ReadWriteMultiples.ParseRegistersResponse | rodbus/src/client/requests/read_write_multiple.rs:132-140 | the cursor-based parse agrees with the decoder, yielding an iterator over its registers or its error |
| Service.CheckValidity | rodbus/src/service/validation.rs:11-30 | a range passes exactly when it is non-empty, stays within the address space and does not exceed the per-type maximum; a zero count is reported first |
| Service.CheckValidityForReadBits | rodbus/src/service/validation.rs:32-34 | a bit read passes exactly when its range is valid and at most 2000 long |
| Service.CheckValidityForReadRegisters | rodbus/src/service/validation.rs:36-38 | a register read passes exactly when its range is valid and at most 125 long |
| Service.CheckValidityAgreesWithTryFrom | rodbus/src/service/validation.rs:11-30 | the older check decides, error for error, like building the range and then limiting its count for the type |
| Service.CheckValidityExamples | rodbus/src/service/validation.rs:46-97 | 2000 bits and 125 registers pass and one more fails; a zero count and a range past 0xFFFF fail; a single address at 0xFFFF passes |
| Service.ParseWriteMultipleCoils | rodbus/src/service/parse.rs:7-19 | an accepted request has a valid range and exactly one coil per address of it |
| Service.ParseWriteMultipleRegisters | rodbus/src/service/parse.rs:21-34 | an accepted request has a valid range and exactly one register per address of it |
| Service.ParseEncodedWriteMultipleCoils | rodbus/src/service/parse.rs:7-19 | round trip: a write-multiple-coils request as the client encodes it parses back into its range and coils |
| Service.ParseEncodedWriteMultipleRegisters | rodbus/src/service/parse.rs:21-34 | round trip: a write-multiple-registers request as the client encodes it parses back into its range and registers |
| Service.ParseWriteMultipleCoilsErrors | rodbus/src/service/parse.rs:7-19 | for every valid range, a byte count other than ceil(count / 8) is a mismatch naming the expected and the given count, a payload shorter than the byte count is insufficient, and bytes after it are trailing, counted (the unit tests at lines 45-71 are instances) |
| Service.ParseWriteMultipleCoilsExample | rodbus/src/service/parse.rs:73-86 | 00 01 00 03 01 05 writes on, off, on to coils 1 to 3 |
| Service.ParseWriteMultipleRegistersErrors | rodbus/src/service/parse.rs:21-34 | for every valid range, a byte count other than 2 * count is a mismatch naming the expected and the given count, a short payload is insufficient, and extra bytes are trailing, counted (the unit tests at lines 89-115 are instances) |
| Service.ParseWriteMultipleRegistersExample | rodbus/src/service/parse.rs:117-127 | 00 01 00 02 04 CA FE BB DD writes 0xCAFE and 0xBBDD to registers 1 and 2 |
| Service.ParseWriteMultipleCoilsFrom | rodbus/src/service/parse.rs:7-19 | the cursor-based parser agrees with the functional one |
| Service.ParseWriteMultipleRegistersFrom | rodbus/src/service/parse.rs:21-34 | the cursor-based parser agrees with the functional one |
| Service.ParseCoilEcho | rodbus/src/service/serialization/client_response_parsers.rs:21-34 | an accepted coil echo starts with the request's own four bytes and is the request |
| Service.ParseRegisterEcho | rodbus/src/service/serialization/client_response_parsers.rs:6-19 | an accepted register echo starts with the request's own four bytes and is the request |
| Service.EchoIsExact | rodbus/src/service/serialization/client_response_parsers.rs:6-34 | an echo is accepted exactly when the reply starts with the request's own four bytes |
| Service.EchoMismatch | rodbus/src/service/serialization/client_response_parsers.rs:6-19 | a well-formed echo of another register write is an echo mismatch |
| Service.ParseBitsReply | rodbus/src/service/serialization/client_response_parsers.rs:36-81 | a bit reply is accepted exactly when its byte count is ceil(count/8) and exactly that many bytes follow, and then yields one bit per address, low bit first |
| Service.ParseRegistersReply | rodbus/src/service/serialization/client_response_parsers.rs:83-121 | a register reply is accepted exactly when its byte count is twice the count and exactly that many bytes follow, and then yields one register per address |
| Service.ParseBitsReplyOfEncode | rodbus/src/service/serialization/client_response_parsers.rs:36-81 | round trip: a server's coil reply for the range is parsed back into the coils |
| Service.ParseRegistersReplyOfEncode | rodbus/src/service/serialization/client_response_parsers.rs:83-121 | round trip: a server's register reply for the range is parsed back into the registers |
| Service.ParseBitsReplyExample | rodbus/src/service/serialization/client_response_parsers.rs:123-137 | 01 05 for three coils from 0 is on, off, on |
| Service.PackedPosition | rodbus/src/service/serialization/client_response_parsers.rs:62-75 | position 8j+i of a packed reply is bit i of byte j |
| Service.UnpackBits | rodbus/src/service/serialization/client_response_parsers.rs:62-78 | the nested loop over the checked bytes, low bit first and stopping at the count, yields exactly the bits the reply specifies |
| Service.UnpackRegisters | rodbus/src/service/serialization/client_response_parsers.rs:106-115 | the loop over the checked bytes yields exactly the registers the reply specifies, the k-th at the range's start plus k; its `u16` index wraps only after the last register |
| Service.ParseBitsReplyFrom | rodbus/src/service/serialization/client_response_parsers.rs:36-81 | the cursor-based parser agrees with the functional one |
| Service.ParseRegistersReplyFrom | rodbus/src/service/serialization/client_response_parsers.rs:83-121 | the cursor-based parser agrees with the functional one |
| Server.Request.GetFunction | rodbus/src/server/request.rs:27-38 | a parsed request always maps to one of the eight standard function codes, never a custom one |
| Server.ParseReadBits | rodbus/src/server/request.rs:166-177 | a bit read is accepted exactly when its four bytes form a valid range of at most 2000 and nothing follows, and is then the range they encode; short input is insufficient, an invalid or too large range is a bad request, extra bytes are trailing |
| Server.ParseReadRegisters | rodbus/src/server/request.rs:178-188 | a register read is accepted exactly when its four bytes form a valid range of at most 125 and nothing follows, with the same errors as the bit read |
| Server.ParseSingleCoil | rodbus/src/server/request.rs:189-193 | a single coil write is accepted exactly when it is four bytes whose value word is 0xFF00 or 0x0000, and is then the coil those bytes encode; any other value word is a bad coil value |
| Server.ParseSingleRegister | rodbus/src/server/request.rs:194-198 | a single register write is accepted exactly when it is four bytes, and is then the register they encode; extra bytes are trailing |
| Server.ParseWriteCoils | rodbus/src/server/request.rs:199-208 | a multiple coil write is accepted exactly when its range is valid and enough bytes follow the byte-count byte, and then carries one coil per address of the range |
| Server.ParseWriteRegisters | rodbus/src/server/request.rs:209-218 | a multiple register write is accepted exactly when its range is valid and enough bytes follow the byte-count byte, and then carries one register per address of the range |
| Server.ParseRequest | rodbus/src/server/request.rs:161-219 | an accepted request carries the function code it was parsed under and is well formed; a custom function code, for which the parser has no arm, is refused as unknown |
| Server.ServerFunction | rodbus/src/server/task.rs:151-164 | the server knows a function byte exactly when `FunctionCode::get` does and it is not a user-defined code, that is exactly the eight codes `Request::parse` has arms for |
| Server.ParseEncodedReadBits | rodbus/src/server/request.rs:166-177 | round trip: a bit read range as the client encodes it parses back into the same read coils or read discrete inputs request |
| Server.ParseEncodedReadRegisters | rodbus/src/server/request.rs:178-188 | round trip: a register read range as the client encodes it parses back into the same read request |
| Server.ParseSingleOfEncode | rodbus/src/server/request.rs:189-198 | round trip: a single coil or register write as encoded parses back into the same value at the same index |
| Server.ParseEncodedSingleWrites | rodbus/src/server/request.rs:189-198 | round trip: encoded single writes parse back into the same write request |
| Server.ParseWriteCoilsExtendsService | rodbus/src/server/request.rs:199-208 | every coil write the byte-count-checking parser accepts, the server's parser accepts with the same result |
| Server.ParseWriteRegistersExtendsService | rodbus/src/server/request.rs:209-218 | every register write the byte-count-checking parser accepts, the server's parser accepts with the same result |
| Server.ParseEncodedWriteCoils | rodbus/src/server/request.rs:199-208 | round trip: a multiple coil write as the client encodes it parses back into its range and coils |
| Server.ParseEncodedWriteRegisters | rodbus/src/server/request.rs:209-218 | round trip: a multiple register write as the client encodes it parses back into its range and registers |
| Server.ByteCountIgnored | rodbus/src/server/request.rs:199-218 | the server's parse of a multiple write does not depend on the byte-count byte at all |
| Server.WrongByteCountAccepted | rodbus/src/server/request.rs:199-208 | for every valid range, a coil write whose byte count disagrees with ceil(count / 8) is refused by the checking parser as a mismatch but accepted by the server with the payload's bits |
| Server.IsAuthorized | rodbus/src/server/task.rs:271-287 | without an authorization handler every request is allowed |
| Server.AuthorizationIgnoresValues | rodbus/src/server/task.rs:246-269 | the authorization decision depends only on the unit, the function and the addresses, never on the values written |
| Server.CheckAuthorization | rodbus/src/server/task.rs:246-269 | each request kind is decided by its own callback, given the unit, the addresses the request touches (the index of a single write) and the role |
| Server.ExceptionPdu | rodbus/src/server/request.rs:60-82 | an exception reply is two bytes: the function code with its top bit set, which no function code equals, and the exception code |
| Server.FormatPdu | rodbus/src/server/request.rs:60-82 | a body becomes the function code followed by the body; an exception becomes the exception reply; any other error is passed on |
| Server.GetReply | rodbus/src/server/request.rs:40-159 | a well-formed request always gets a reply of at least two bytes under its own function code, or a two-byte exception under the error code; a denied request gets IllegalFunction |
| Server.ReadBitsReply | rodbus/src/server/request.rs:86-105 | when the handler answers every address the client decodes the reply into exactly those bits at those addresses; otherwise the reply is the exception of the failing address, which the client reports as that exception |
| Server.ReadRegistersReply | rodbus/src/server/request.rs:106-123 | when the handler answers every address the client decodes the reply into exactly those registers at those addresses; otherwise the reply is the failing exception, reported as such by the client |
| Server.SingleWriteReply | rodbus/src/server/request.rs:124-137 | an accepted single write is answered with the echo of the request, which the client accepts as the same write; a refused one with the handler's exception |
| Server.MultipleWriteReply | rodbus/src/server/request.rs:138-158 | an accepted multiple write is answered with its range, which the client accepts; a refused one with the handler's exception |
| Server.ReplyWithError | rodbus/src/server/task.rs:68-81 | an exception reply is sent exactly when the frame is not a broadcast, and is the function byte and the exception code |
| Server.Respond | rodbus/src/server/task.rs:143-234 | an empty frame and a broadcast are never answered; an answer is at least two bytes under the request's function byte, or a two-byte exception under that byte with its top bit set |
| Server.RespondChain | rodbus/src/server/task.rs:146-214 | for a unit-addressed frame: a byte that is not a server function is IllegalFunction, a request that does not parse IllegalDataValue, a denied one IllegalFunction, a unit without a handler no answer, anything else the handler's reply |
| Server.RespondCustomCode | rodbus/src/server/task.rs:151-164 | a unit-addressed frame with a user-defined function code is answered with IllegalFunction under that code with its top bit set |
| Server.ReadCoilsEndToEnd | rodbus/src/server/task.rs:143-234 | a read coils request as the client encodes it, sent to a unit whose handler answers every address, comes back as a reply the client decodes into the handler's values |
| Server.SessionTask.constructor | rodbus/src/server/task.rs:39-55 | a session starts with the given handlers, authorization and decode level |
| Server.SessionTask.ApplySetting | rodbus/src/server/task.rs:135-141 | a setting changes the decode level and nothing else |
| Server.SessionTask.HandleFrame | rodbus/src/server/task.rs:143-234 | the reply to a frame is exactly what Respond decides for its PDU, destination, handlers and authorization |
| Decode.DecodeLevel.Application | rodbus/src/decode.rs:89-93 | changes the application level and keeps the frame and physical levels |
| Decode.DecodeLevel.WithFrame | rodbus/src/decode.rs:95-99 | changes the frame level and keeps the application and physical levels |
| Decode.DecodeLevel.Physical | rodbus/src/decode.rs:101-105 | changes the physical level and keeps the other two |
| Decode.Nothing | rodbus/src/decode.rs:75-77 | every layer is at its lowest level and logs nothing |
| Decode.FromApp | rodbus/src/decode.rs:117-125 | a decode level built from an application level is that level with the frame and physical layers logging nothing |
| Decode.AppThresholds | rodbus/src/decode.rs:127-158 | the application layer logs the function from level 1, the data headers from level 2 and the values from level 3 |
| Decode.FrameThresholds | rodbus/src/decode.rs:166-186 | the frame layer logs the header from level 1 and the payload from level 2 |
| Decode.PhysThresholds | rodbus/src/decode.rs:194-214 | the physical layer logs the length from level 1 and the data from level 2 |
| Decode.AppMonotone | rodbus/src/decode.rs:127-158 | raising the application level never switches off what a lower level logs |
| Decode.FrameMonotone | rodbus/src/decode.rs:166-186 | raising the frame level never switches off what a lower level logs |
| Decode.PhysMonotone | rodbus/src/decode.rs:194-214 | raising the physical level never switches off what a lower level logs |
| Decode.BuildersCommute | rodbus/src/decode.rs:89-105 | the three builder methods act on separate layers, so their order does not matter and all three give exactly the chosen levels |
| ServerHandlers.GetRangeOf | rodbus/src/server/handler.rs:61-70 | a read succeeds exactly when the start is a point of the slice and the range ends inside it, and then yields the range's points in order; otherwise IllegalDataAddress |
| ServerHandlers.GetRangeOfValid | rodbus/src/server/handler.rs:61-70 | for a valid range the read succeeds exactly when the range ends inside the slice |
| ServerHandlers.GetRangeOfEmptyAtEnd | rodbus/src/server/handler.rs:66-68 | an empty range starting just past the last point is refused by the start check alone |
| ServerHandlers.GetRangeOfAdjacent | rodbus/src/server/handler.rs:36-50 | reading two adjacent ranges and joining the results is reading their union |
| ServerHandlers.ServerHandler.constructor | rodbus/src/server/handler.rs:18-30 | a handler holds exactly the four point vectors it was given |
| ServerHandlers.ServerHandler.SetCoil | rodbus/src/server/handler.rs:32-34 | changing a coil through the mutable slice changes that coil and nothing else |
| ServerHandlers.ServerHandler.ReadCoils | rodbus/src/server/handler.rs:36-38 | the coils of the range when it starts at a coil and ends inside them, else IllegalDataAddress |
| ServerHandlers.ServerHandler.ReadDiscreteInputs | rodbus/src/server/handler.rs:40-42 | the discrete inputs of the range when it starts at one and ends inside them, else IllegalDataAddress |
| ServerHandlers.ServerHandler.ReadHoldingRegisters | rodbus/src/server/handler.rs:44-46 | the holding registers of the range when it starts at one and ends inside them, else IllegalDataAddress |
| ServerHandlers.ServerHandler.ReadInputRegisters | rodbus/src/server/handler.rs:48-50 | the input registers of the range when it starts at one and ends inside them, else IllegalDataAddress |
| ServerHandlers.ServerHandler.WriteSingleCoil | rodbus/src/server/handler.rs:52-54 | a single coil write is always refused with IllegalFunction |
| ServerHandlers.ServerHandler.WriteSingleRegister | rodbus/src/server/handler.rs:56-59 | a single register write is always refused with IllegalFunction |
| ServerHandlers.SetThenRead | rodbus/src/server/handler.rs:32-38 | a coil set through the mutable slice reads back as the new value and its neighbours are unchanged |
| ServerHandlers.ServerHandlerMap.constructor | rodbus/src/server/handler.rs:81-85 | a new map answers for no unit |
| ServerHandlers.ServerHandlerMap.Single | rodbus/src/server/handler.rs:87-93 | a single map answers for exactly the one unit given |
| ServerHandlers.ServerHandlerMap.Get | rodbus/src/server/handler.rs:95-97 | the handler of a unit is found exactly when one was added for it |
| ServerHandlers.ServerHandlerMap.Add | rodbus/src/server/handler.rs:99-101 | after adding, the unit answers with the new handler, replacing any earlier one, and every other unit is unchanged |
| Validators.ValidateRange | rodbus/src/server/validator.rs:20-26 | passes exactly the valid ranges; an invalid one is IllegalDataAddress |
| Validators.ValidateResult | rodbus/src/server/validator.rs:28-43 | an answer with the wrong number of points becomes ServerDeviceFailure; an answer of the right length and an exception pass unchanged |
| Validators.ValidatedRead | rodbus/src/server/validator.rs:45-63 | an invalid range is IllegalDataAddress without asking the handler; otherwise the handler's answer, checked for length, so every successful read has exactly count points |
| Validators.ReadCoils | rodbus/src/server/validator.rs:45-48 | an invalid range is IllegalDataAddress; a successful read is the handler's answer with exactly count coils; the handler's exception passes through |
| Validators.ReadDiscreteInputs | rodbus/src/server/validator.rs:50-53 | the same for discrete inputs |
| Validators.ReadHoldingRegisters | rodbus/src/server/validator.rs:55-58 | the same for holding registers |
| Validators.ReadInputRegisters | rodbus/src/server/validator.rs:60-63 | the same for input registers |
| Validators.WriteSingleCoil | rodbus/src/server/validator.rs:65-67 | a single coil write reaches the handler with no check, whatever its index |
| Validators.WriteSingleRegister | rodbus/src/server/validator.rs:69-71 | a single register write reaches the handler with no check, whatever its index |
| Validators.ValidatedWrite | rodbus/src/server/validator.rs:73-89 | a multiple write reaches the handler exactly when its range is valid; otherwise IllegalDataAddress |
| Validators.WriteMultipleCoils | rodbus/src/server/validator.rs:73-80 | an invalid range is IllegalDataAddress without asking the handler; a valid one gets the handler's answer |
| Validators.WriteMultipleRegisters | rodbus/src/server/validator.rs:82-89 | the same for registers |
| Validators.InvalidRangeNeverReachesHandler | rodbus/src/server/validator.rs:45-89 | for an invalid range every read and multiple write is IllegalDataAddress whatever the handler would have answered |
| Validators.ValidatedSlice | rodbus/src/server/validator.rs:45-48 | a slicing handler behind the validator yields exactly the points of a valid range inside its slice |
| AddressFilters.Split | rodbus/src/server/address_filter.rs:34 | splitting on the dot gives at least one piece, no piece holds a dot, and joining the pieces gives back the text |
| AddressFilters.SplitJoin | rodbus/src/server/address_filter.rs:34 | splitting undoes joining pieces that hold no dot |
| AddressFilters.ParseU8 | rodbus/src/server/address_filter.rs:23 | an accepted octet is non-empty and more than a lone plus sign; a leading minus sign is always refused |
| AddressFilters.NonDigitRejected | rodbus/src/server/address_filter.rs:23-26 | an octet with a character other than a digit after its optional plus sign is refused |
| AddressFilters.ParseDecimal | rodbus/src/server/address_filter.rs:23-24 | every octet written in decimal is read back as itself |
| AddressFilters.GetByte | rodbus/src/server/address_filter.rs:20-28 | a star is any octet; anything else is accepted exactly when it reads as an octet, and is then that octet |
| AddressFilters.WildcardFromStr | rodbus/src/server/address_filter.rs:33-45 | a pattern is accepted exactly when it has four dot-separated fields that each read as a star or an octet, and is then those four fields in order |
| AddressFilters.WildcardRoundTrip | rodbus/src/server/address_filter.rs:33-45 | round trip: every pattern written as text reads back as itself |
| AddressFilters.WildcardMatches | rodbus/src/server/address_filter.rs:49-64 | an address matches exactly when it is IPv4 and each octet equals its field wherever the field is not a star; no IPv6 address matches |
| AddressFilters.WildcardWithoutStars | rodbus/src/server/address_filter.rs:49-64 | a pattern without stars matches exactly the one address it spells |
| AddressFilters.AllStars | rodbus/src/server/address_filter.rs:49-64 | four stars match exactly the IPv4 addresses |
| AddressFilters.ParsesSubnetWildcard | rodbus/src/server/address_filter.rs:103-115 | "172.17.20.*" reads as 172, 17, 20 and a star |
| AddressFilters.ParsesAllWildcards | rodbus/src/server/address_filter.rs:117-129 | "*.*.*.*" reads as four stars |
| AddressFilters.WildcardMatchingWorks | rodbus/src/server/address_filter.rs:150-158 | "192.168.0.*" matches 192.168.0.1 and not 192.168.1.1 |
| AddressFilters.RejectsFiveFields | rodbus/src/server/address_filter.rs:131-148 | "*.*.*.*.*" is refused |
| AddressFilters.RejectsEmptyField | rodbus/src/server/address_filter.rs:131-143 | "*.*..*.*" is refused |
| AddressFilters.LargeOctet | rodbus/src/server/address_filter.rs:23-26 | 256 does not read as an octet |
| AddressFilters.RejectsLargeOctet | rodbus/src/server/address_filter.rs:131-143 | "*.256.*.*" is refused |
| AddressFilters.RejectsLeadingDot | rodbus/src/server/address_filter.rs:131-143 | ".*.256.*.*" is refused |
| AddressFilters.RejectsLetters | rodbus/src/server/address_filter.rs:131-143 | "1.1.1.1ab" is refused |
| AddressFilters.Matches | rodbus/src/server/address_filter.rs:88-95 | any accepts everyone; exact accepts exactly its address; a set exactly its members; a pattern exactly the addresses it matches |
| AddressFilters.ExactIsSingleton | rodbus/src/server/address_filter.rs:88-95 | an exact filter and a set holding only that address accept the same clients |
| TcpServer.SessionTracker.constructor | rodbus/src/tcp/server.rs:19-25 | a tracker starts with no session and hands out 0 first |
| TcpServer.SessionTracker.GetNextId | rodbus/src/tcp/server.rs:27-31 | returns the counter and advances it, so the id handed out is not held by any open session |
| TcpServer.SessionTracker.OldestId | rodbus/src/tcp/server.rs:40 | the first key of the ordered map is an open session with the smallest id |
| TcpServer.SessionTracker.Add | rodbus/src/tcp/server.rs:37-50 | below the maximum the sender is stored under a fresh id; at or over it the session with the smallest id is closed first; the tracker never holds more than the maximum (at least one) |
| TcpServer.SessionTracker.EvictOldest | rodbus/src/tcp/server.rs:39-44 | the session removed is the one with the smallest id, exactly one session is removed, and the ids handed out so far stay above every live id |
| TcpServer.SessionTracker.Remove | rodbus/src/tcp/server.rs:52-54 | closes exactly that session; an id not open changes nothing |
| TcpServer.ThreeConnections | rodbus/src/tcp/server.rs:37-50 | with a maximum of two, the third connection closes the first and leaves the second and third open |
| Retry.DelayAfter | rodbus/src/retry.rs:44-48 | after the first failure a delay never exceeds the maximum |
| Retry.DelayAfterClosedForm | rodbus/src/retry.rs:44-48 | the k-th delay in a row is the minimum doubled k times, capped at the maximum |
| Retry.DelayAfterMonotone | rodbus/src/retry.rs:44-48 | delays never shrink while failures go on, and stay between the minimum and the maximum |
| Retry.DefaultDelays | rodbus/src/retry.rs:14-16 | with the default one second and one minute, the sixth failure in a row waits 32 seconds and the seventh the full minute |
| Retry.Doubling.Create | rodbus/src/retry.rs:29-37 | the first delay is the minimum |
| Retry.Doubling.Reset | rodbus/src/retry.rs:40-42 | after a success the next delay is the minimum again |
| Retry.Doubling.AfterFailedConnect | rodbus/src/retry.rs:44-48 | waits the current delay, which is the one the failure count calls for, and doubles it, capped at the maximum, for the next failure |
| Retry.Doubling.AfterDisconnect | rodbus/src/retry.rs:50-52 | after a disconnect the delay is always the minimum |
| Retry.FailRepeatedly | rodbus/src/retry.rs:29-48 | n failures in a row from creation hand out exactly the first n delays of the doubling sequence |
| FfiConversions.FromExceptionCode | ffi/rodbus-ffi/src/helpers/conversions.rs:19-50 | every exception code becomes a value standing for an exception answered by the device, and the unknown one exactly for an unknown code |
| FfiConversions.FromRequestError | ffi/rodbus-ffi/src/helpers/conversions.rs:3-17 | an error becomes an exception value exactly when it is an exception answered by the device, and then the value its code maps to |
| FfiConversions.NamedExceptionRoundTrip | ffi/rodbus-ffi/src/helpers/conversions.rs:19-46 | the nine named codes are reported under their own value, from which the code can be recovered |
| FfiConversions.NamedExceptionsDistinct | ffi/rodbus-ffi/src/helpers/conversions.rs:19-46 | two different named codes are never reported as the same value |
| FfiConversions.UnknownCodeDropped | ffi/rodbus-ffi/src/helpers/conversions.rs:47 | every unknown code is reported as the same value: its byte is lost |
| FfiConversions.BitValueToIndexed | ffi/rodbus-ffi/src/helpers/conversions.rs:52-56 | a foreign bit keeps its index and value |
| FfiConversions.RegisterValueToIndexed | ffi/rodbus-ffi/src/helpers/conversions.rs:58-62 | a foreign register keeps its index and value |
| FfiConversions.ValueConversionsInjective | ffi/rodbus-ffi/src/helpers/conversions.rs:52-62 | two foreign values that convert to the same indexed value were the same |
| FfiExt.ExceptionOf | ffi/rodbus-ffi/src/helpers/ext.rs:73-87 | the foreign exception becomes the engine's code of the same name; the unknown one exactly an unknown code carrying the raw byte |
| FfiExt.ForeignName | ffi/rodbus-ffi/src/helpers/ext.rs:73-87 | the foreign name of a code is the unknown one exactly for an unknown code |
| FfiExt.ConvertToResult | ffi/rodbus-ffi/src/helpers/ext.rs:68-91 | a write succeeds exactly when the foreign result says so; otherwise it fails with the code named by the foreign exception |
| FfiExt.ConvertToResultReachesEveryCode | ffi/rodbus-ffi/src/helpers/ext.rs:68-91 | every engine exception can be reported by a foreign handler and arrives unchanged, an unknown one through its raw byte |
| FfiExt.SuccessIgnoresException | ffi/rodbus-ffi/src/helpers/ext.rs:70-72 | a successful result ignores the exception fields entirely |
| FfiExt.ConvertToFnOnce | ffi/rodbus-ffi/src/helpers/ext.rs:15-49 | an outcome calls the completion entry point exactly on success, with the values, and the failure entry point otherwise, with the binding's error code |
| FfiExt.WriteCompletion | ffi/rodbus-ffi/src/helpers/ext.rs:51-65 | a write's outcome completes with nothing exactly on success and fails with the binding's error code otherwise |
| FfiExt.ExceptionReachesFailureCallback | ffi/rodbus-ffi/src/helpers/ext.rs:15-65 | an exception answered by the device reaches every callback's failure entry point as that exception's value |
| FfiDatabase.AddEntry | ffi/rodbus-ffi/src/database.rs:23-30 | stores the value and answers true exactly when the address has no point yet; otherwise nothing changes |
| FfiDatabase.UpdateEntry | ffi/rodbus-ffi/src/database.rs:32-39 | replaces the value and answers true exactly when the address has a point; it never changes which addresses have points |
| FfiDatabase.AddThenUpdate | ffi/rodbus-ffi/src/database.rs:23-39 | an add followed by an update of the same address always succeeds and the update's value wins |
| FfiDatabase.Apply | ffi/rodbus-ffi/src/database.rs:41-123 | each of the eight functions touches only the map of its own point type |
| FfiDatabase.ApplyAllKeepsPoints | ffi/rodbus-ffi/src/database.rs:23-123 | no sequence of adds and updates ever removes a point |
| FfiDatabase.UpdatesKeepAddresses | ffi/rodbus-ffi/src/database.rs:32-39 | a sequence of updates only never makes a new point readable |
| FfiDatabase.Database.constructor | ffi/rodbus-ffi/src/database.rs:13-20 | a new database has no points |
| FfiDatabase.Database.Perform | ffi/rodbus-ffi/src/database.rs:41-123 | one function call changes the database exactly as Apply says and answers as it does |
| FfiDatabase.Database.PerformAll | ffi/rodbus-ffi/src/database.rs:41-123 | a callback's calls in order change the database exactly as ApplyAll says |
| FfiDatabase.DatabaseAddCoil | ffi/rodbus-ffi/src/database.rs:41-46 | a null database answers false; otherwise the coil is added as AddEntry says |
| FfiDatabase.DatabaseAddDiscreteInput | ffi/rodbus-ffi/src/database.rs:48-57 | a null database answers false; otherwise the input is added as AddEntry says |
| FfiDatabase.DatabaseAddHoldingRegister | ffi/rodbus-ffi/src/database.rs:59-68 | a null database answers false; otherwise the register is added as AddEntry says |
| FfiDatabase.DatabaseAddInputRegister | ffi/rodbus-ffi/src/database.rs:70-79 | a null database answers false; otherwise the register is added as AddEntry says |
| FfiDatabase.DatabaseUpdateCoil | ffi/rodbus-ffi/src/database.rs:81-90 | a null database answers false; otherwise the coil is updated as UpdateEntry says |
| FfiDatabase.DatabaseUpdateDiscreteInput | ffi/rodbus-ffi/src/database.rs:92-101 | a null database answers false; otherwise the input is updated as UpdateEntry says |
| FfiDatabase.DatabaseUpdateHoldingRegister | ffi/rodbus-ffi/src/database.rs:103-112 | a null database answers false; otherwise the register is updated as UpdateEntry says |
| FfiDatabase.DatabaseUpdateInputRegister | ffi/rodbus-ffi/src/database.rs:114-123 | a null database answers false; otherwise the register is updated as UpdateEntry says |
| FfiDatabase.AddTwice | ffi/rodbus-ffi/src/database.rs:23-30 | adding a coil succeeds once; a second add of the same address is refused and keeps the first value |
| FfiDatabase.UpdateWithoutAdd | ffi/rodbus-ffi/src/database.rs:32-39 | updating an address never added is refused and creates nothing |
| FfiServer.Lookup | ffi/rodbus-ffi/src/server.rs:43-69 | a read answers the stored value exactly when the address was added, and IllegalDataAddress otherwise |
| FfiServer.SingleCoilOutcome | ffi/rodbus-ffi/src/server.rs:71-85 | a single coil write succeeds exactly when the callback answered success; any refusal is IllegalDataAddress whatever exception it named; no answer is IllegalFunction |
| FfiServer.WriteOutcome | ffi/rodbus-ffi/src/server.rs:87-121 | the other writes take the callback's result as the foreign result conversion reads it; no answer is IllegalFunction |
| FfiServer.OutcomesAgreeExceptOnException | ffi/rodbus-ffi/src/server.rs:71-121 | the single coil write and the other writes agree on success and on a missing answer, and differ only in the exception of a refusal |
| FfiServer.RequestHandlerWrapper.constructor | ffi/rodbus-ffi/src/server.rs:19-26 | a new handler has an empty database and the given callbacks |
| FfiServer.RequestHandlerWrapper.ReadCoil | ffi/rodbus-ffi/src/server.rs:43-48 | a coil reads as stored exactly when it was added, otherwise IllegalDataAddress |
| FfiServer.RequestHandlerWrapper.ReadDiscreteInput | ffi/rodbus-ffi/src/server.rs:50-55 | an input reads as stored exactly when it was added, otherwise IllegalDataAddress |
| FfiServer.RequestHandlerWrapper.ReadHoldingRegister | ffi/rodbus-ffi/src/server.rs:57-62 | a register reads as stored exactly when it was added, otherwise IllegalDataAddress |
| FfiServer.RequestHandlerWrapper.ReadInputRegister | ffi/rodbus-ffi/src/server.rs:64-69 | a register reads as stored exactly when it was added, otherwise IllegalDataAddress |
| FfiServer.RequestHandlerWrapper.WriteSingleCoil | ffi/rodbus-ffi/src/server.rs:71-85 | the callback gets the index and value; its edits are applied to the database in order and its answer read as the single coil outcome |
| FfiServer.RequestHandlerWrapper.WriteSingleRegister | ffi/rodbus-ffi/src/server.rs:87-95 | the callback gets the index and value; its edits are applied and its answer converted as a foreign result |
| FfiServer.RequestHandlerWrapper.WriteMultipleCoils | ffi/rodbus-ffi/src/server.rs:97-108 | the callback gets the start address and the values; its edits are applied and its answer converted |
| FfiServer.RequestHandlerWrapper.WriteMultipleRegisters | ffi/rodbus-ffi/src/server.rs:110-121 | the callback gets the start address and the values; its edits are applied and its answer converted |
| FfiServer.WriteKeepsPointsReadable | ffi/rodbus-ffi/src/server.rs:87-95 | whatever a write callback does, every register that could be read before it still can |
| FfiServer.DeviceMap.constructor | ffi/rodbus-ffi/src/server.rs:231-235 | a new device map has no unit |
| FfiServer.DeviceMap.DrainAndConvert | ffi/rodbus-ffi/src/server.rs:33-39 | every unit of the map becomes a unit of the server with its own handler, and the device map is left empty |
| FfiServer.DeviceMapAddEndpoint | ffi/rodbus-ffi/src/server.rs:243-265 | a null map or a unit already present is refused and nothing changes; otherwise a fresh handler, its empty database configured by the callback, is stored under the unit |
| FfiServer.Server.constructor | ffi/rodbus-ffi/src/server.rs:225-229 | a server keeps the handler map it was started with |
| FfiServer.ServerUpdateDatabase | ffi/rodbus-ffi/src/server.rs:476-493 | a null server is NullParameter, a unit without a handler InvalidUnitId; otherwise the transaction's edits are applied to that unit's database |
| FfiServer.OrDeny | ffi/rodbus-ffi/src/server.rs:137-140 | a decision allows exactly when the callback explicitly allowed; no result denies |
| FfiServer.WrapAuthorization | ffi/rodbus-ffi/src/server.rs:134-222 | each of the eight checks allows exactly when its foreign callback explicitly allowed for the same unit, addresses and role |
| FfiServer.SilentHandlerDeniesAll | ffi/rodbus-ffi/src/server.rs:134-222 | behind a foreign handler that never gives a result, every request is denied |
| FfiServer.ParseAddressFilter | ffi/rodbus-ffi/src/server.rs:516-536 | text that reads as an address is the set of that one address; otherwise it must read as an IPv4 pattern, and anything else is InvalidIpAddress |
| FfiServer.ToServerFilter | ffi/rodbus-ffi/src/server.rs:574-582 | the server's filter admits exactly the addresses the binding's filter describes |
| FfiServer.SingleAddressFilter | ffi/rodbus-ffi/src/server.rs:516-523 | a filter made from a single address admits that address and no other |
| FfiServer.AddressFilterHandle.constructor | ffi/rodbus-ffi/src/server.rs:538-541 | a handle holds the filter it was made with |
| FfiServer.AddressFilterCreate | ffi/rodbus-ffi/src/server.rs:538-541 | a handle is created exactly when the text reads as a filter, holding that filter; otherwise the parse error |
| FfiServer.AddressFilterAdd | ffi/rodbus-ffi/src/server.rs:543-566 | only a set of addresses grows, by the new address; a null handle, text that is not an address, or a filter of any address or a pattern is an error, and the filter is then unchanged |
| FfiServer.AddedAddressAdmitted | ffi/rodbus-ffi/src/server.rs:543-566 | an added address is admitted afterwards and every address admitted before still is |
| LegacyFfiServer.SingleWrite | rodbus-ffi/src/server.rs:148-169 | without a callback the write is IllegalFunction; an index past the points is IllegalDataAddress and the callback is not asked; otherwise the write succeeds, the point takes the value only if the callback accepts, and no other point changes |
| LegacyFfiServer.MultipleWrite | rodbus-ffi/src/server.rs:171-193 | without a callback the write is IllegalFunction; a range past the points is IllegalDataAddress; otherwise the write succeeds, the range takes the values only if the callback accepts, and no point outside it changes |
| LegacyFfiServer.StagedWrite | rodbus-ffi/src/server.rs:135-146 | a staging slice past the buffer, or more values than the count, is ServerDeviceFailure and the points are unchanged; otherwise the values are staged and written as MultipleWrite says |
| LegacyFfiServer.FfiHandler.constructor | rodbus-ffi/src/server.rs:82-91 | a handler starts with every coil and input false and every register zero, in vectors of the configured sizes |
| LegacyFfiServer.FfiHandler.ReadCoils | rodbus-ffi/src/server.rs:197-199 | a read succeeds exactly when the range starts and ends inside the coils, and then yields them in order; otherwise IllegalDataAddress |
| LegacyFfiServer.FfiHandler.ReadDiscreteInputs | rodbus-ffi/src/server.rs:201-203 | a read succeeds exactly when the range lies inside the inputs, and then yields them in order; otherwise IllegalDataAddress |
| LegacyFfiServer.FfiHandler.ReadHoldingRegisters | rodbus-ffi/src/server.rs:205-210 | a read succeeds exactly when the range lies inside the holding registers, and then yields them in order; otherwise IllegalDataAddress |
| LegacyFfiServer.FfiHandler.ReadInputRegisters | rodbus-ffi/src/server.rs:212-214 | a read succeeds exactly when the range lies inside the input registers, and then yields them in order; otherwise IllegalDataAddress |
| LegacyFfiServer.FfiHandler.WriteSingleCoil | rodbus-ffi/src/server.rs:216-223 | changes the coils exactly as SingleWrite says |
| LegacyFfiServer.FfiHandler.WriteSingleRegister | rodbus-ffi/src/server.rs:225-232 | changes the holding registers exactly as SingleWrite says |
| LegacyFfiServer.FfiHandler.WriteMultipleCoils | rodbus-ffi/src/server.rs:234-247 | as written: stages at the request's own start address in the 1968-coil buffer and changes the coils exactly as StagedWrite says |
| LegacyFfiServer.FfiHandler.WriteMultipleRegisters | rodbus-ffi/src/server.rs:249-262 | as written: stages at the request's own start address in the 123-register buffer and changes the registers exactly as StagedWrite says |
| LegacyFfiServer.FfiHandler.WriteMultipleRegistersStagedAtZero | rodbus-ffi/src/server.rs:249-262 | corrected: stages at the start of the buffer, so every request of a legal count within the points reaches the callback |
| LegacyFfiServer.FfiHandler.UpdateCoil | rodbus-ffi/src/server.rs:336-346 | sets a coil that exists and answers true; any other index answers false and nothing changes |
| LegacyFfiServer.CopyTo | rodbus-ffi/src/server.rs:135-146 | the items go in order into the slice; with more items than it holds the ones that fit are written and the copy is ServerDeviceFailure |
| LegacyFfiServer.WriteSingle | rodbus-ffi/src/server.rs:148-169 | changes the vector exactly as SingleWrite says |
| LegacyFfiServer.WriteMultiple | rodbus-ffi/src/server.rs:171-193 | changes the vector exactly as MultipleWrite says |
| LegacyFfiServer.StageAndWrite | rodbus-ffi/src/server.rs:234-262 | changes the points and the staging buffer exactly as StagedWrite says |
| LegacyFfiServer.StagingByAddressRejects | rodbus-ffi/src/server.rs:234-262 | as written: a request whose addresses end past the buffer's length fails as ServerDeviceFailure however many points the unit has |
| LegacyFfiServer.HighRegistersUnwritable | rodbus-ffi/src/server.rs:249-262 | as written: a unit with 200 holding registers cannot have registers 150 and 151 written together |
| LegacyFfiServer.StagingAtZeroAccepts | rodbus-ffi/src/server.rs:249-262 | corrected: any request of a legal count within the points succeeds, and the points take the values when the callback accepts |
| NewFfiServer.WriteAnswer | rodbus-ffi-new/src/server.rs:68-134 | a write succeeds exactly when the callback answered true; false is IllegalDataAddress and no answer IllegalFunction |
| NewFfiServer.SameAsFirstBindingSingleCoil | rodbus-ffi-new/src/server.rs:68-82 | a boolean answer is read exactly as the other binding reads the answer of its single-coil callback, whatever its exception fields hold |
| NewFfiServer.EndpointHandler.ReadCoils | rodbus-ffi-new/src/server.rs:49-51 | a read succeeds exactly when the range lies inside the coil table, and then yields those coils in order |
| NewFfiServer.EndpointHandler.ReadDiscreteInputs | rodbus-ffi-new/src/server.rs:53-55 | a read succeeds exactly when the range lies inside the input table, and then yields those inputs in order |
| NewFfiServer.EndpointHandler.ReadHoldingRegisters | rodbus-ffi-new/src/server.rs:57-62 | a read succeeds exactly when the range lies inside the holding register table, and then yields those registers in order |
| NewFfiServer.EndpointHandler.ReadInputRegisters | rodbus-ffi-new/src/server.rs:64-66 | a read succeeds exactly when the range lies inside the input register table, and then yields those registers in order |
| NewFfiServer.EndpointHandler.WriteSingleCoil | rodbus-ffi-new/src/server.rs:68-82 | succeeds exactly when the callback, given the value and then the index, answers true |
| NewFfiServer.EndpointHandler.WriteSingleRegister | rodbus-ffi-new/src/server.rs:84-98 | succeeds exactly when the callback, given the value and then the index, answers true |
| NewFfiServer.EndpointHandler.WriteMultipleCoils | rodbus-ffi-new/src/server.rs:100-116 | succeeds exactly when the callback, given the start and the values, answers true |
| NewFfiServer.EndpointHandler.WriteMultipleRegisters | rodbus-ffi-new/src/server.rs:118-134 | succeeds exactly when the callback, given the start and the values, answers true |
| NewFfiServer.NewEndpoint | rodbus-ffi-new/src/server.rs:36-45 | tables of the configured sizes with every coil and input false and every register zero, and the given callbacks |
| NewFfiServer.FreshEndpointReadsZero | rodbus-ffi-new/src/server.rs:36-66 | since the server never stores a write, a fresh endpoint reads zero for every register of its table |
| NewFfiServer.DeviceMap.constructor | rodbus-ffi-new/src/server.rs:142-146 | a new device map has no unit |
| NewFfiServer.DeviceMap.DrainAndConvert | rodbus-ffi-new/src/server.rs:15-25 | every unit of the map becomes a unit of the server with a fresh endpoint of its sizes and callbacks, and the device map is left empty |
| NewFfiServer.MapAddEndpoint | rodbus-ffi-new/src/server.rs:154-172 | a null map or a unit already present is refused and nothing changes; otherwise the sizes and callbacks are stored under the unit |

## Left out

- Asynchronous tasks, tokio channels, sockets, TLS sessions, serial ports and timers are left out; the model takes the bytes a read returns and the instants of the clock as parameters.
- Logging is left out: the frame and PDU display types (`RtuDisplay`, `MbapDisplay`, `FrameFormatter` output) and the log lines of the server and client. The decode levels that switch them on are modelled.
- The server and client constructors of the bindings are left out (`server_create_tcp`, `server_create_rtu`, `server_create_tls`, `create_server`, `create_handler`, `build_session`), as are `server_set_decode_level`, `acquire_updater`, `update_handler` and `release_updater`. They only spawn tasks or take locks around operations that are modelled.
- The mutexes around handlers and databases are left out; each operation is modelled as running alone.
- The user-data pointer passed to the callbacks of the first C binding is not modelled.
- A foreign callback is a pure function of what it receives. Its effect on the database is the list of add and update calls it makes, applied in order.
- `IpAddr::from_str` of the standard library is the parameter `parseIp` of `FfiServer.ParseAddressFilter`, `FfiServer.AddressFilterCreate` and `FfiServer.AddressFilterAdd`.
- The external `scursor` crate is not part of this model's sources. `ReadCursors.ReadCursor` follows its behaviour as `rodbus/src/util/cursor.rs` uses it.
- Retry.Doubling: durations are whole nanoseconds as unbounded integers, so the panic of `2 * current` overflowing a `Duration` is not modelled.
- TcpServer.SessionTracker: ids are unbounded naturals, so the wrap of the `u64` counter after 2^64 sessions is not modelled. The ordered map is a Dafny map whose smallest key `OldestId` finds.
- Phys.InterCharacterDelay: a baud rate of 0 panics in the source with a division by zero. The model returns `None` for it.
- Phys.PhysLayer.NewSerial: a baud rate of 0 is excluded by its precondition, because the source panics on it.
- Server.Respond: a broadcast request is executed on every handler in the source (`into_broadcast_request`), while the model records only that no reply is sent.
- Server.SessionTask.HandleFrame: the same broadcast execution is left out.
- FfiExt.BitReadCompletion and FfiExt.RegisterReadCompletion carry no contract of their own; their behaviour is that of `FfiExt.ConvertToFnOnce`.
- The physical layer's read path is left out: the bytes a read returns are a parameter of the frame readers.
- Types.AddressIterator.Next: models the release build, where `current += 1` wraps to 0. A debug build panics on that increment once it has yielded 0xFFFF, even for a valid range ending there. The bit and register writers of `Serialize` walk `Addresses(range)`, which `RangeIter` shows to be what the iterator yields over a valid range.
- Service.UnpackRegisters: models the release build, where the final `index += 1` wraps to 0 for a range ending at 0xFFFF. A debug build panics there after pushing the last register.
- Server.ParseRequest, ClientMessage.Function and Rtu.LengthModeOf: the sources mix two versions. `FunctionCode::get` in `common/function.rs` knows the nineteen user-defined codes 65-72 and 100-110. `Request::parse` in `server/request.rs` has arms for the eight standard codes only. The model keeps the custom codes on the client side (`ClientMessage.Function`) and in the RTU length rules, where they have no length rule (`Rtu.LengthModeOf`). On the server side it follows the request parser's version: `Server.ServerFunction` leaves the custom codes out, so such a frame is answered with IllegalFunction. Server-side execution of custom function codes is not modelled, and neither is the custom-request arm of `check_authorization` in `server/task.rs`, which belongs to the newer version.
- Types.NewDeviceInfo: the panic of a code conversion on an unknown byte is the result `None`, as it is for `Types.MeiCodeFromByte`, `Types.ReadDeviceIdCodeFromByte` and `Types.ConformityLevelFromByte`.
- ReadWriteMultiples.ReadWriteMultipleIterator.Next: models the release build, where `start + pos` and `pos += 1` wrap at 2^16. A debug build panics instead. The only request that reaches the wrap is one the truncating length check lets through, such as the 65537-value request of `WrappedRequestWrapsAddress`.

## Findings

| source | as written | input that shows it | evidently intended | confidence | as-written member | corrected member |
|---|---|---|---|---|---|---|
| rodbus/src/types.rs:198-212 | each object's cost `(len as u8) + 2` is computed in wrapping `u8` arithmetic | an object of length 254 costs 0 against a budget of 10, so it is counted as fitting | the cost of an object is its full length plus 2 | not executed | Types.ResponseMessageCountWraps | Types.FitCountSpec |
| rodbus/src/common/buffer.rs:101-107 | the data is shifted to the front only when `end == len()`, comparing the end with the unread length rather than the capacity | begin 1, end 260, capacity 260: no shift, no room to read into, and the read fails with an unexpected end of file | shift whenever the end has reached the capacity and data is unread | not executed | Buffers.ReadSomeStallsBeforeCapacity | Buffers.FreeAfterAdjustCheckedRoom |
| rodbus-ffi/src/server.rs:234-262 | multiple writes are staged at the request's own addresses inside buffers of 1968 coils and 123 registers | 200 holding registers, a write of 2 registers at 150: the staging slice 150..152 does not exist, so ServerDeviceFailure | stage at the start of the buffer, which holds any legal write count | not executed | LegacyFfiServer.HighRegistersUnwritable | LegacyFfiServer.FfiHandler.WriteMultipleRegistersStagedAtZero |
| rodbus/src/client/requests/read_write_multiple.rs:120 | the reply to read/write multiple registers is decoded against the write range | read 5 registers at 100 and write 1 at 0: the reply of 5 registers is refused as 8 trailing bytes | decode the reply against the read range, whose registers it carries | not executed | ClientRequests.ReadWriteReplyByWriteRangeRefused | ClientRequests.MultipleReadWriteRequest.HandleResponseByReadRange |
| rodbus/src/client/requests/read_write_multiple.rs:37 | the number of values is compared with the write count after `values.len() as u16` truncates it | 65537 values with a write count of 1 are accepted | compare the full number of values with the write count | not executed | ReadWriteMultiples.NewAcceptsWrappedLength | ReadWriteMultiples.NewCheckedIterable |
