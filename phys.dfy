/**
 * The physical layer: the RTU inter-frame delay derived from the baud rate, the
 * hex dump of raw bytes used by the physical-layer log, and the wait a serial
 * write keeps between two transmissions.
 */
module Phys {
  import opened Num
  import opened Wrappers

  const NANOS_PER_SEC: nat := 1_000_000_000

  /** A `std::time::Duration`: whole seconds and a sub-second part in nanoseconds. */
  type Nanos = n: nat | n < 1_000_000_000

  datatype Duration = Duration(secs: nat, nanos: Nanos)

  /** The length of a duration in nanoseconds. */
  function Total(d: Duration): nat {
    d.secs * NANOS_PER_SEC + d.nanos
  }

  /** `Duration::new`: nanoseconds beyond a second carry into the seconds. */
  function NewDuration(secs: nat, nanos: nat): (d: Duration)
    ensures Total(d) == secs * NANOS_PER_SEC + nanos
  {
    Duration(secs + nanos / NANOS_PER_SEC, nanos % NANOS_PER_SEC)
  }

  /** `Duration * u32`: the nanosecond part is multiplied and its whole seconds carried. */
  function MulU32(d: Duration, rhs: u32): (r: Duration) {
    var totalNanos := d.nanos * rhs;
    Duration(d.secs * rhs + totalNanos / NANOS_PER_SEC, totalNanos % NANOS_PER_SEC)
  }

  /**
   * `Duration / u32` for a non-zero divisor: the seconds are divided, their
   * remainder is spread over nanoseconds, and the nanosecond part is divided on
   * its own (so in general the result can be one nanosecond short of the exact
   * quotient; `DivWholeSeconds` and `DivByTen` show it is exact where it is used).
   */
  function DivU32(d: Duration, rhs: u32): (r: Duration)
    requires rhs > 0
  {
    var secs := d.secs / rhs;
    var carry := d.secs % rhs;
    var extraNanos := carry * NANOS_PER_SEC / rhs;
    NewDuration(secs, d.nanos / rhs + extraNanos)
  }

  /** Euclidean division is determined by any quotient and remainder that fit. */
  lemma DivUnique(x: nat, b: nat, q: nat, m: nat)
    requires b > 0 && x == q * b + m && m < b
    ensures x / b == q
  {
    var q' := x / b;
    assert x == q' * b + x % b;
    MulMonotone(q' + 1, q, b);
    MulMonotone(q + 1, q', b);
    Distribute(q', 1, b);
    Distribute(q, 1, b);
  }

  lemma MulU32Exact(d: Duration, rhs: u32)
    ensures Total(MulU32(d, rhs)) == rhs * Total(d)
  {
    var totalNanos := d.nanos * rhs;
    assert (totalNanos / NANOS_PER_SEC) * NANOS_PER_SEC + totalNanos % NANOS_PER_SEC == totalNanos;
    assert Total(MulU32(d, rhs)) == d.secs * rhs * NANOS_PER_SEC + totalNanos;
  }

  /** Dividing a whole number of seconds gives the exact floor of the nanosecond count. */
  lemma DivWholeSeconds(secs: nat, rhs: u32)
    requires rhs > 0
    ensures Total(DivU32(Duration(secs, 0), rhs)) == secs * NANOS_PER_SEC / rhs
  {
    WholeSecondsTotal(secs, rhs);
    FloorSplit(secs, rhs);
  }

  /** What `DivU32` computes for a whole number of seconds. */
  lemma WholeSecondsTotal(secs: nat, rhs: u32)
    requires rhs > 0
    ensures Total(DivU32(Duration(secs, 0), rhs)) == (secs / rhs) * NANOS_PER_SEC + (secs % rhs) * NANOS_PER_SEC / rhs
  {
    assert 0 / rhs == 0;
  }

  /** The floor of `secs * 10^9 / rhs`, split at the whole quotient of the seconds. */
  lemma FloorSplit(secs: nat, rhs: nat)
    requires rhs > 0
    ensures secs * NANOS_PER_SEC / rhs == (secs / rhs) * NANOS_PER_SEC + (secs % rhs) * NANOS_PER_SEC / rhs
  {
    var q, carry := secs / rhs, secs % rhs;
    var c := carry * NANOS_PER_SEC;
    var t, m := c / rhs, c % rhs;
    ScaleQuotient(secs, rhs, q, carry, t, m);
    DivUnique(secs * NANOS_PER_SEC, rhs, q * NANOS_PER_SEC + t, m);
  }

  /** Scaling `secs = q * rhs + carry` by a second's nanoseconds, with `carry * 10^9 = t * rhs + m`. */
  lemma ScaleQuotient(secs: nat, rhs: nat, q: nat, carry: nat, t: nat, m: nat)
    requires secs == q * rhs + carry && carry * NANOS_PER_SEC == t * rhs + m
    ensures secs * NANOS_PER_SEC == (q * NANOS_PER_SEC + t) * rhs + m
  {
    Distribute(q * rhs, carry, NANOS_PER_SEC);
    assert q * rhs * NANOS_PER_SEC == q * NANOS_PER_SEC * rhs;
    Distribute(q * NANOS_PER_SEC, t, rhs);
  }

  lemma Distribute(a: nat, b: nat, c: nat)
    ensures (a + b) * c == a * c + b * c
  {
  }

  lemma MulMonotone(a: nat, b: nat, c: nat)
    ensures a <= b ==> a * c <= b * c
  {
  }

  /** Dividing by ten is exact as well, since ten divides a second's nanoseconds. */
  lemma DivByTen(d: Duration)
    ensures Total(DivU32(d, 10)) == Total(d) / 10
  {
    var q := d.secs / 10;
    var carry := d.secs % 10;
    assert carry * NANOS_PER_SEC / 10 == carry * 100_000_000;
    assert Total(d) == (q * NANOS_PER_SEC + carry * 100_000_000 + d.nanos / 10) * 10 + d.nanos % 10;
    DivUnique(Total(d), 10, q * NANOS_PER_SEC + carry * 100_000_000 + d.nanos / 10, d.nanos % 10);
  }

  /** Modbus RTU characters are eleven bits long: start, eight data, parity or stop, stop. */
  const NUM_BITS_IN_CHAR: nat := 11
  /** Above this baud rate the delay is fixed. */
  const MAX_BAUD_RATE: u32 := 19200
  /** The fixed delay, 1750 microseconds. */
  const MIN_DELAY: Duration := Duration(0, 1_750_000)

  /**
   * `calculate_inter_character_delay`: 3.5 character times for rates up to
   * 19200 baud, the fixed 1750 microseconds above that or when the port cannot
   * report its rate (`None`). A rate of 0 divides by zero and panics, which the
   * model returns as `None`.
   */
  function InterCharacterDelay(baudRate: Option<u32>): (r: Option<Duration>)
    ensures r.None? <==> baudRate == Some(0)
  {
    match baudRate
    case Some(baud) =>
      if baud <= MAX_BAUD_RATE then
        if baud == 0 then None
        else
          var characterTime := DivU32(Duration(NUM_BITS_IN_CHAR, 0), baud);
          Some(DivU32(MulU32(characterTime, 35), 10))
      else Some(MIN_DELAY)
    case None => Some(MIN_DELAY)
  }

  /** The delay in nanoseconds is 35 character times divided by ten, each division rounding down. */
  lemma InterCharacterDelayNanos(baud: u32)
    ensures 0 < baud <= MAX_BAUD_RATE ==>
      Total(InterCharacterDelay(Some(baud)).value) == 35 * (NUM_BITS_IN_CHAR * NANOS_PER_SEC / baud) / 10
    ensures baud > MAX_BAUD_RATE ==> Total(InterCharacterDelay(Some(baud)).value) == 1_750_000
    ensures Total(InterCharacterDelay(None).value) == 1_750_000
  {
    if 0 < baud <= MAX_BAUD_RATE {
      var characterTime := DivU32(Duration(NUM_BITS_IN_CHAR, 0), baud);
      DivWholeSeconds(NUM_BITS_IN_CHAR, baud);
      MulU32Exact(characterTime, 35);
      DivByTen(MulU32(characterTime, 35));
    }
  }

  /** At 19200 baud or slower a character lasts at least 572916 ns. */
  lemma CharacterTimeAtLeast(baud: u32)
    requires 0 < baud <= MAX_BAUD_RATE
    ensures NUM_BITS_IN_CHAR * NANOS_PER_SEC / baud >= 572_916
  {
    var x := NUM_BITS_IN_CHAR * NANOS_PER_SEC;
    var q := x / baud;
    assert x == q * baud + x % baud;
    MulMonotone(q + 1, 572_916, baud);
    Distribute(q, 1, baud);
    MulMonotone(baud, 19200, 572_916);
  }

  /** A slower line never waits less than a faster one: the delay is at least 1750 microseconds. */
  lemma InterCharacterDelayAtLeastMin(baudRate: Option<u32>)
    requires baudRate != Some(0)
    ensures Total(InterCharacterDelay(baudRate).value) >= Total(MIN_DELAY)
  {
    if baudRate.Some? {
      var baud := baudRate.value;
      InterCharacterDelayNanos(baud);
      if baud <= MAX_BAUD_RATE {
        CharacterTimeAtLeast(baud);
      }
    }
  }

  /** Rounding down twice never overshoots: `35 * (x / baud) / 10` tenths of `baud` stay within `35 * x`. */
  lemma ScaledQuotientBound(x: nat, baud: nat, d: nat)
    requires baud > 0 && d == 35 * (x / baud) / 10
    ensures 10 * d * baud <= 35 * x
  {
    var q := x / baud;
    assert x == q * baud + x % baud;
    assert 10 * d <= 35 * q;
    MulMonotone(10 * d, 35 * q, baud);
    assert 35 * q * baud == 35 * (q * baud);
  }

  /** The delay never exceeds three and a half character times. */
  lemma InterCharacterDelayAtMostThreeAndAHalf(baud: u32)
    requires 0 < baud <= MAX_BAUD_RATE
    ensures 10 * Total(InterCharacterDelay(Some(baud)).value) * baud <= 35 * NUM_BITS_IN_CHAR * NANOS_PER_SEC
  {
    InterCharacterDelayNanos(baud);
    ScaledQuotientBound(NUM_BITS_IN_CHAR * NANOS_PER_SEC, baud, Total(InterCharacterDelay(Some(baud)).value));
  }

  /** The two ends of the range: 9600 baud waits 4010415 ns, 19200 baud 2005206 ns, 115200 baud 1750 us. */
  lemma InterCharacterDelayExamples()
    ensures Total(InterCharacterDelay(Some(9600)).value) == 4_010_415
    ensures Total(InterCharacterDelay(Some(19200)).value) == 2_005_206
    ensures Total(InterCharacterDelay(Some(115200)).value) == 1_750_000
  {
    InterCharacterDelayNanos(9600);
    InterCharacterDelayNanos(19200);
    InterCharacterDelayNanos(115200);
  }

  // ---------------------------------------------------------------------------
  // The hex dump of the physical-layer log.

  const BYTES_PER_DECODE_LINE: nat := 18

  /** One upper-case hex digit. */
  function HexDigit(n: nat): (c: char)
    requires n < 16
  {
    if n < 10 then ('0' as int + n) as char else ('A' as int + n - 10) as char
  }

  /** `{:02X?}`: two upper-case hex digits. */
  function Hex2(b: u8): (s: string)
    ensures |s| == 2
  {
    [HexDigit(b / 16), HexDigit(b % 16)]
  }

  /** The value of one upper-case hex digit. */
  function DigitValue(c: char): nat {
    if '0' <= c <= '9' then c as nat - '0' as nat
    else if 'A' <= c <= 'F' then c as nat - 'A' as nat + 10
    else 0
  }

  /** Reading the two digits back gives the byte: the dump loses nothing. */
  lemma Hex2RoundTrip(b: u8)
    ensures DigitValue(Hex2(b)[0]) * 16 + DigitValue(Hex2(b)[1]) == b
  {
    assert DigitValue(HexDigit(b / 16)) == b / 16;
    assert DigitValue(HexDigit(b % 16)) == b % 16;
  }

  /** What comes before byte `i`: a line break at the start of each chunk of 18, else a space. */
  function Separator(i: nat): char {
    if i % BYTES_PER_DECODE_LINE == 0 then '\n' else ' '
  }

  /** The dump of `bytes`, byte by byte: each byte is its separator followed by its two digits. */
  function Dump(bytes: seq<u8>): (s: string)
    ensures |s| == 3 * |bytes|
  {
    if bytes == [] then [] else Dump(bytes[..|bytes| - 1]) + [Separator(|bytes| - 1)] + Hex2(bytes[|bytes| - 1])
  }

  /** Byte `i` sits at offset `3i`: one line per 18 bytes, digits separated by single spaces. */
  lemma {:induction false} DumpAt(bytes: seq<u8>, i: nat)
    requires i < |bytes|
    ensures Dump(bytes)[3 * i] == Separator(i)
    ensures Dump(bytes)[3 * i + 1 .. 3 * i + 3] == Hex2(bytes[i])
  {
    var n := |bytes| - 1;
    var init := bytes[..n];
    if i < n {
      DumpAt(init, i);
      assert bytes[..n][i] == bytes[i];
      assert Dump(bytes)[..3 * n] == Dump(init);
    }
  }

  /** One more byte extends the dump of the prefix. */
  lemma DumpSnoc(bytes: seq<u8>, i: nat)
    requires i < |bytes|
    ensures Dump(bytes[..i + 1]) == Dump(bytes[..i]) + [Separator(i)] + Hex2(bytes[i])
  {
    assert bytes[..i + 1][..i] == bytes[..i];
  }

  /**
   * `format_bytes`: for each chunk of 18 bytes, a line break, then the bytes as
   * two hex digits each with a space between consecutive bytes of the chunk.
   */
  method FormatBytes(bytes: seq<u8>) returns (out: string)
    ensures out == Dump(bytes)
  {
    out := [];
    var start := 0;
    ghost var lines := 0;
    while start < |bytes|
      invariant start <= |bytes| && (start < |bytes| ==> start == BYTES_PER_DECODE_LINE * lines)
      invariant out == Dump(bytes[..start])
    {
      var end := if start + BYTES_PER_DECODE_LINE <= |bytes| then start + BYTES_PER_DECODE_LINE else |bytes|;
      out := out + "\n";
      var first := true;
      var i := start;
      while i < end
        invariant start <= i <= end
        invariant first <==> i == start
        invariant out == Dump(bytes[..i]) + (if first then "\n" else "")
      {
        if !first {
          out := out + " ";
        }
        first := false;
        assert Separator(i) == if i == start then '\n' else ' ' by {
          ChunkPosition(lines, i - start);
        }
        DumpSnoc(bytes, i);
        out := out + Hex2(bytes[i]);
        i := i + 1;
      }
      start := end;
      lines := lines + 1;
    }
    assert bytes[..start] == bytes;
  }

  /** Position `k` of chunk `line` starts a line exactly when `k` is zero. */
  lemma ChunkPosition(line: nat, k: nat)
    requires k < BYTES_PER_DECODE_LINE
    ensures (BYTES_PER_DECODE_LINE * line + k) % BYTES_PER_DECODE_LINE == k
  {
    DivUnique(BYTES_PER_DECODE_LINE * line + k, BYTES_PER_DECODE_LINE, line, k);
  }

  /** Two bytes: a line break opens the first line, then the bytes in upper-case hex separated by a space. */
  lemma DumpExample()
    ensures Dump([0x0A, 0xFF]) == "\n0A FF"
  {
    assert [0x0A, 0xFF][..1] == [0x0A];
  }

  // ---------------------------------------------------------------------------
  // The serial write's inter-frame wait.

  /** The kind of stream underneath: TCP writes at once, a serial port keeps its inter-frame delay. */
  datatype Layer = Tcp | Serial(interCharDelay: Duration)

  /**
   * `PhysLayer` with its write side. Instants are nanoseconds on the monotonic
   * clock; `transmitted` is what has been handed to the stream, one entry per write.
   */
  class PhysLayer {
    var layer: Layer
    var lastActivity: Option<nat>
    var transmitted: seq<seq<u8>>

    constructor NewTcp()
      ensures layer == Tcp && lastActivity == None && transmitted == []
    {
      layer := Tcp;
      lastActivity := None;
      transmitted := [];
    }

    /** `new_serial`: the delay comes from the port's baud rate; nothing has been sent yet. */
    constructor NewSerial(baudRate: Option<u32>)
      requires baudRate != Some(0)
      ensures layer == Serial(InterCharacterDelay(baudRate).value)
      ensures lastActivity == None && transmitted == []
    {
      layer := Serial(InterCharacterDelay(baudRate).value);
      lastActivity := None;
      transmitted := [];
    }

    /**
     * `write` called at instant `now`: a serial port first sleeps until the last
     * activity plus the delay (no sleep when that instant has passed or nothing
     * was sent yet), records the instant it resumed as the last activity, then
     * writes. `sentAt` is the instant the bytes went out.
     */
    method Write(data: seq<u8>, now: nat) returns (sentAt: nat)
      modifies this
      ensures transmitted == old(transmitted) + [data] && layer == old(layer)
      ensures sentAt >= now
      ensures layer.Tcp? ==> sentAt == now && lastActivity == old(lastActivity)
      ensures layer.Serial? ==> lastActivity == Some(sentAt)
      ensures layer.Serial? && old(lastActivity).Some? ==>
        sentAt == if now >= old(lastActivity).value + Total(layer.interCharDelay) then now
                  else old(lastActivity).value + Total(layer.interCharDelay)
      ensures layer.Serial? && old(lastActivity).None? ==> sentAt == now
    {
      sentAt := now;
      if layer.Serial? {
        if lastActivity.Some? {
          var deadline := lastActivity.value + Total(layer.interCharDelay);
          if deadline > now {
            sentAt := deadline;
          }
        }
        lastActivity := Some(sentAt);
      }
      transmitted := transmitted + [data];
    }
  }

  /** Two serial writes in a row are at least one inter-frame delay apart, whenever the second is issued. */
  method WritesKeepDelay(phys: PhysLayer, a: seq<u8>, b: seq<u8>, t1: nat, t2: nat) returns (s1: nat, s2: nat)
    requires phys.layer.Serial?
    modifies phys
    ensures phys.layer.Serial? && s2 >= s1 + Total(phys.layer.interCharDelay)
    ensures phys.transmitted == old(phys.transmitted) + [a, b]
  {
    s1 := phys.Write(a, t1);
    s2 := phys.Write(b, t2);
  }
}
