/**
 * CRC-16/MODBUS, the checksum the serial framing takes from the `crc` crate:
 * a reflected CRC with polynomial 0x8005 (0xA001 bit-reversed), initial value
 * 0xFFFF and no final XOR, each byte entering least significant bit first.
 */
module Crc {
  import opened Num

  const INIT: bv16 := 0xFFFF
  const POLY_REFLECTED: bv16 := 0xA001

  /**
   * One shift of the register, folding the polynomial in when a 1 bit drops
   * out; written without a branch (the mask is all ones exactly when the low
   * bit is set), which `ShiftBitFolds` relates to the usual description.
   */
  function ShiftBit(c: bv16): bv16 {
    (c >> 1) ^ (POLY_REFLECTED & (0 - (c & 1)))
  }

  /** The shift in the usual words: XOR in the polynomial exactly when the dropped bit is 1. */
  lemma ShiftBitFolds(c: bv16)
    ensures c & 1 == 1 ==> ShiftBit(c) == (c >> 1) ^ POLY_REFLECTED
    ensures c & 1 == 0 ==> ShiftBit(c) == c >> 1
  {
  }

  /** Eight shifts. */
  function ShiftByte(c: bv16): bv16 {
    ShiftBit(ShiftBit(ShiftBit(ShiftBit(ShiftBit(ShiftBit(ShiftBit(ShiftBit(c))))))))
  }

  /** One byte into the register. */
  function UpdateByte(c: bv16, b: u8): bv16 {
    ShiftByte(c ^ (b as bv16))
  }

  /** `Digest::update`: the bytes in order. */
  function Update(c: bv16, data: seq<u8>): bv16
    decreases |data|
  {
    if data == [] then c else Update(UpdateByte(c, data[0]), data[1..])
  }

  /** `Digest::finalize`: the register as it stands, since CRC-16/MODBUS has no final XOR. */
  function Finalize(c: bv16): u16 {
    c as int
  }

  /** `Crc::checksum`. */
  function Checksum(data: seq<u8>): u16 {
    Finalize(Update(INIT, data))
  }

  /** Two `update` calls digest the concatenation: the parser's digest and the formatter's checksum agree. */
  lemma {:induction false} UpdateAppend(c: bv16, a: seq<u8>, b: seq<u8>)
    ensures Update(c, a + b) == Update(Update(c, a), b)
    decreases |a|
  {
    if a != [] {
      assert (a + b)[0] == a[0] && (a + b)[1..] == a[1..] + b;
      UpdateAppend(UpdateByte(c, a[0]), a[1..], b);
    } else {
      assert a + b == b;
    }
  }

  /** Digesting bytes as they arrive: one more byte enters on top of the digest of those before it. */
  lemma UpdateSnoc(c: bv16, data: seq<u8>, b: u8)
    ensures Update(c, data + [b]) == UpdateByte(Update(c, data), b)
  {
    UpdateAppend(c, data, [b]);
    assert [b][1..] == [];
  }

  /** One byte of a concrete run: the register value `d` after `s[i]` carries the fold forward. */
  lemma UpdateStep(c: bv16, s: seq<u8>, i: nat, d: bv16)
    requires i < |s| && UpdateByte(c, s[i]) == d
    ensures Update(c, s[i..]) == Update(d, s[i + 1..])
  {
    assert s[i..][1..] == s[i + 1..];
  }

  /** The check value, bytes 0-2. */
  lemma CheckValue1(s: seq<u8>)
    requires s == [0x31, 0x32, 0x33]
    ensures Update(0xFFFF, s) == 0x7A75
  {
    UpdateStep(0xFFFF, s, 0, 0x947E);
    UpdateStep(0x947E, s, 1, 0xF595);
    UpdateStep(0xF595, s, 2, 0x7A75);
    assert s[0..] == s && s[3..] == [];
  }

  /** The check value, bytes 3-5. */
  lemma CheckValue2(s: seq<u8>)
    requires s == [0x34, 0x35, 0x36]
    ensures Update(0x7A75, s) == 0x32E4
  {
    UpdateStep(0x7A75, s, 0, 0x30BA);
    UpdateStep(0x30BA, s, 1, 0xA471);
    UpdateStep(0xA471, s, 2, 0x32E4);
    assert s[0..] == s && s[3..] == [];
  }

  /** The check value, bytes 6-8. */
  lemma CheckValue3(s: seq<u8>)
    requires s == [0x37, 0x38, 0x39]
    ensures Update(0x32E4, s) == 0x4B37
  {
    UpdateStep(0x32E4, s, 0, 0x9D73);
    UpdateStep(0x9D73, s, 1, 0x37DD);
    UpdateStep(0x37DD, s, 2, 0x4B37);
    assert s[0..] == s && s[3..] == [];
  }

  /** The catalogue check value of CRC-16/MODBUS: the ASCII digits "123456789" give 0x4B37. */
  lemma CheckValue(s: seq<u8>)
    requires s == [0x31, 0x32, 0x33, 0x34, 0x35, 0x36, 0x37, 0x38, 0x39]
    ensures Checksum(s) == 0x4B37
  {
    var a, b, c := s[..3], s[3..6], s[6..];
    CheckValue1(a);
    CheckValue2(b);
    CheckValue3(c);
    UpdateAppend(INIT, a, b);
    UpdateAppend(INIT, a + b, c);
    assert a + b + c == s;
  }
}
