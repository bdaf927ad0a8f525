/**
 * The bounded write cursor over a caller-owned byte buffer: every write either
 * fits entirely or fails without touching the buffer.
 */
module WriteCursors {
  import opened Num
  import opened Wrappers
  import opened Errors

  /**
   * `after` is `before` with `bytes` written at position `at` and nothing else
   * changed.
   */
  ghost predicate Wrote(before: seq<u8>, at: nat, after: seq<u8>, bytes: seq<u8>) {
    at + |bytes| <= |before| && after == before[..at] + bytes + before[at + |bytes|..]
  }

  /** Two consecutive writes are one write of the concatenation. */
  lemma WroteThen(a: seq<u8>, p: nat, b: seq<u8>, x: seq<u8>, c: seq<u8>, y: seq<u8>)
    requires Wrote(a, p, b, x) && Wrote(b, p + |x|, c, y)
    ensures Wrote(a, p, c, x + y)
  {
    assert b[..p + |x|] == a[..p] + x;
    assert b[p + |x| + |y|..] == a[p + |x| + |y|..];
  }

  /** A write over part of an earlier write is one write of the patched bytes. */
  lemma WroteOver(a: seq<u8>, p: nat, b: seq<u8>, x: seq<u8>, i: nat, c: seq<u8>, y: seq<u8>)
    requires Wrote(a, p, b, x) && Wrote(b, p + i, c, y) && i + |y| <= |x|
    ensures Wrote(a, p, c, x[..i] + y + x[i + |y|..])
  {
    assert b[..p + i] == a[..p] + x[..i];
    assert b[p + i + |y|..] == x[i + |y|..] + a[p + |x|..];
  }

  /** A write changes exactly the written positions. */
  lemma WroteOnly(before: seq<u8>, at: nat, after: seq<u8>, bytes: seq<u8>)
    requires Wrote(before, at, after, bytes)
    ensures |after| == |before|
    ensures forall i :: 0 <= i < |before| && (i < at || i >= at + |bytes|) ==> after[i] == before[i]
    ensures forall k :: 0 <= k < |bytes| ==> after[at + k] == bytes[k]
  {
  }

  /** Writing nothing changes nothing. */
  lemma WroteNothing(before: seq<u8>, at: nat)
    requires at <= |before|
    ensures Wrote(before, at, before, [])
  {
  }

  class WriteCursor {
    const dest: array<u8>
    var pos: nat

    ghost predicate Valid()
      reads this
    {
      pos <= dest.Length
    }

    constructor (dest: array<u8>)
      ensures Valid() && this.dest == dest && pos == 0
    {
      this.dest := dest;
      pos := 0;
    }

    function Position(): nat
      reads this
    {
      pos
    }

    function Remaining(): (n: nat)
      reads this
      requires Valid()
      ensures pos + n == dest.Length
    {
      dest.Length - pos
    }

    /** Moves forward `count` bytes when that stays inside the buffer. */
    method SeekFromCurrent(count: nat) returns (r: Result<(), InternalError>)
      requires Valid()
      modifies this
      ensures Valid()
      ensures r.Ok? <==> count <= old(Remaining())
      ensures r.Ok? ==> pos == old(pos) + count
      ensures r.Err? ==> r.error == BadSeekOperation && pos == old(pos)
    {
      if Remaining() < count {
        return Err(BadSeekOperation);
      }
      pos := pos + count;
      r := Ok(());
    }

    /** Moves to absolute position `count` when that is inside the buffer (or its end). */
    method SeekFromStart(count: nat) returns (r: Result<(), InternalError>)
      requires Valid()
      modifies this
      ensures Valid()
      ensures r.Ok? <==> count <= dest.Length
      ensures r.Ok? ==> pos == count
      ensures r.Err? ==> r.error == BadSeekOperation && pos == old(pos)
    {
      if dest.Length < count {
        return Err(BadSeekOperation);
      }
      pos := count;
      r := Ok(());
    }

    method WriteU8(value: u8) returns (r: Result<(), InternalError>)
      requires Valid()
      modifies this, dest
      ensures Valid()
      ensures r.Ok? <==> old(pos) < dest.Length
      ensures r.Ok? ==> Wrote(old(dest[..]), old(pos), dest[..], [value]) && pos == old(pos) + 1
      ensures r.Err? ==> r.error == InsufficientWriteSpace(1, 0)
                         && dest[..] == old(dest[..]) && pos == old(pos)
    {
      if pos >= dest.Length {
        return Err(InsufficientWriteSpace(1, 0));
      }
      dest[pos] := value;
      pos := pos + 1;
      r := Ok(());
    }

    /** High byte first; nothing is written unless both bytes fit. */
    method WriteU16Be(value: u16) returns (r: Result<(), InternalError>)
      requires Valid()
      modifies this, dest
      ensures Valid()
      ensures r.Ok? <==> old(Remaining()) >= 2
      ensures r.Ok? ==> Wrote(old(dest[..]), old(pos), dest[..], BeBytes(value)) && pos == old(pos) + 2
      ensures r.Err? ==> r.error == InsufficientWriteSpace(2, old(Remaining()))
                         && dest[..] == old(dest[..]) && pos == old(pos)
    {
      if Remaining() < 2 {
        return Err(InsufficientWriteSpace(2, Remaining()));
      }
      var upper := value / 0x100;
      var lower := value % 0x100;
      var _ := WriteU8(upper);
      var _ := WriteU8(lower);
      r := Ok(());
    }

    /** Low byte first; nothing is written unless both bytes fit. */
    method WriteU16Le(value: u16) returns (r: Result<(), InternalError>)
      requires Valid()
      modifies this, dest
      ensures Valid()
      ensures r.Ok? <==> old(Remaining()) >= 2
      ensures r.Ok? ==> Wrote(old(dest[..]), old(pos), dest[..], LeBytes(value)) && pos == old(pos) + 2
      ensures r.Err? ==> r.error == InsufficientWriteSpace(2, old(Remaining()))
                         && dest[..] == old(dest[..]) && pos == old(pos)
    {
      if Remaining() < 2 {
        return Err(InsufficientWriteSpace(2, Remaining()));
      }
      var upper := value / 0x100;
      var lower := value % 0x100;
      var _ := WriteU8(lower);
      var _ := WriteU8(upper);
      r := Ok(());
    }
  }
}
