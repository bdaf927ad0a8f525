/**
 * Fixed-width unsigned integers of the Rust source, as bounded subsets of `int`,
 * and the byte-order and bit helpers the codec is built from.
 */
module Num {

  type u8 = x: int | 0 <= x < 0x100
  type u16 = x: int | 0 <= x < 0x1_0000
  type u32 = x: int | 0 <= x < 0x1_0000_0000

  const U16_MAX: u16 := 0xFFFF

  /** A count cut to its low 16 bits, as `u16` addition wraps. */
  function Wrap16(n: nat): (r: u16)
    ensures n < 0x1_0000 ==> r == n
  {
    (n % 0x1_0000) as u16
  }

  /** Adding the wrapped count is adding the count, modulo 2^16. */
  lemma WrapSum(start: nat, n: nat)
    ensures Wrap16(start + Wrap16(n)) == Wrap16(start + n)
  {
    var q := n / 0x1_0000;
    assert n == q * 0x1_0000 + n % 0x1_0000;
    ModMultiple(start + n % 0x1_0000, q);
  }

  lemma {:induction false} ModMultiple(a: nat, q: nat)
    ensures (a + q * 0x1_0000) % 0x1_0000 == a % 0x1_0000
    decreases q
  {
    if q > 0 {
      ModMultiple(a, q - 1);
      assert a + q * 0x1_0000 == (a + (q - 1) * 0x1_0000) + 0x1_0000;
    }
  }

  /** The weight of the high byte of a register. */
  const BYTE_RADIX: int := 0x100

  /** The two bytes of `v`, most significant first (Rust `to_be_bytes`). */
  function BeBytes(v: u16): (r: seq<u8>)
    ensures |r| == 2 && (r[0] as int) * 0x100 + r[1] == v
  {
    [v / 0x100, v % 0x100]
  }

  /** The two bytes of `v`, least significant first (Rust `to_le_bytes`). */
  function LeBytes(v: u16): (r: seq<u8>)
    ensures |r| == 2 && (r[1] as int) * 0x100 + r[0] == v
  {
    [v % 0x100, v / 0x100]
  }

  /** `(high as u16) << 8 | low as u16` */
  function Be16(high: u8, low: u8): (r: u16)
    ensures BeBytes(r) == [high, low]
  {
    high * BYTE_RADIX + low
  }

  /** `u16::from_le_bytes([low, high])` */
  function Le16(low: u8, high: u8): (r: u16)
    ensures LeBytes(r) == [low, high]
  {
    high * BYTE_RADIX + low
  }

  /** Big-endian encoding of a sequence of registers, two bytes each. */
  function BeWords(values: seq<u16>): (r: seq<u8>)
    ensures |r| == 2 * |values|
  {
    if values == [] then [] else BeBytes(values[0]) + BeWords(values[1..])
  }

  lemma {:induction false} BeWordsAt(values: seq<u16>, k: nat)
    requires k < |values|
    ensures Be16(BeWords(values)[2 * k], BeWords(values)[2 * k + 1]) == values[k]
  {
    if k > 0 {
      BeWordsAt(values[1..], k - 1);
      assert BeWords(values)[2..] == BeWords(values[1..]);
    }
  }

  /** Inverse of `BeWords`: pairs of bytes read as big-endian registers. */
  function WordsOf(bytes: seq<u8>): (r: seq<u16>)
    requires |bytes| % 2 == 0
    ensures |r| == |bytes| / 2
    ensures forall k :: 0 <= k < |r| ==> r[k] == Be16(bytes[2 * k], bytes[2 * k + 1])
  {
    if bytes == [] then [] else [Be16(bytes[0], bytes[1])] + WordsOf(bytes[2..])
  }

  lemma WordsOfBeWords(values: seq<u16>)
    ensures WordsOf(BeWords(values)) == values
  {
    var w := WordsOf(BeWords(values));
    forall k | 0 <= k < |values| ensures w[k] == values[k] {
      BeWordsAt(values, k);
    }
  }

  lemma {:induction false} BeWordsOfWordsOf(bytes: seq<u8>)
    requires |bytes| % 2 == 0
    ensures BeWords(WordsOf(bytes)) == bytes
    decreases |bytes|
  {
    if bytes != [] {
      BeWordsOfWordsOf(bytes[2..]);
      assert WordsOf(bytes)[1..] == WordsOf(bytes[2..]);
    }
  }

  function Pow2(n: nat): (r: nat)
    ensures r >= 1
  {
    if n == 0 then 1 else 2 * Pow2(n - 1)
  }

  lemma Pow2Bound(n: nat)
    requires n <= 8
    ensures Pow2(n) <= 0x100
    decreases 8 - n
  {
    if n < 8 { Pow2Bound(n + 1); }
  }

  /** Bit `i` of `b`, i.e. `b & (1 << i) != 0`: the lowest bit of `b` shifted right `i` times. */
  function Bit(b: nat, i: nat): bool
  {
    if i == 0 then b % 2 == 1 else Bit(b / 2, i - 1)
  }

  /** Packs up to eight flags into a byte, the first flag in the least significant bit. */
  function PackByte(bits: seq<bool>): (r: nat)
    requires |bits| <= 8
    ensures r < Pow2(|bits|) && r < 0x100
  {
    Pow2Bound(|bits|);
    if bits == [] then 0 else (if bits[0] then 1 else 0) + 2 * PackByte(bits[1..])
  }

  lemma {:induction false} PackByteBit(bits: seq<bool>, i: nat)
    requires i < |bits| <= 8
    ensures Bit(PackByte(bits), i) == bits[i]
  {
    var p := PackByte(bits);
    if i > 0 {
      PackByteBit(bits[1..], i - 1);
      assert p / 2 == PackByte(bits[1..]);
    }
  }

  /** Appending a flag sets the next higher bit: `acc |= 1 << n` on a byte whose bit `n` is clear. */
  lemma {:induction false} PackByteSnoc(bits: seq<bool>, b: bool)
    requires |bits| < 8
    ensures PackByte(bits + [b]) == PackByte(bits) + (if b then Pow2(|bits|) else 0)
  {
    if bits != [] {
      assert (bits + [b])[1..] == bits[1..] + [b];
      PackByteSnoc(bits[1..], b);
    }
  }

  /** Bits at or above `n` of a value below `2^n` are clear. */
  lemma {:induction false} BitAbove(v: nat, n: nat, i: nat)
    requires v < Pow2(n) && n <= i
    ensures !Bit(v, i)
  {
    if i > 0 {
      if n == 0 {
        BitAbove(v / 2, 0, i - 1);
      } else {
        BitAbove(v / 2, n - 1, i - 1);
      }
    }
  }

  lemma {:induction false} BeWordsSnoc(values: seq<u16>, v: u16)
    ensures BeWords(values + [v]) == BeWords(values) + BeBytes(v)
  {
    if values != [] {
      assert (values + [v])[1..] == values[1..] + [v];
      BeWordsSnoc(values[1..], v);
    }
  }
}

