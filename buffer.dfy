/**
 * The receive buffer shared by the frame parsers: a fixed array with a window
 * `begin..end` of bytes received but not yet consumed. Reads consume from the
 * front of the window; `read_some` appends what the transport delivers,
 * first moving the window to the front of the array when that makes room.
 */
module Buffers {
  import opened Num
  import opened Wrappers
  import opened Errors

  /**
   * How many bytes the transport may write after `read_some` has adjusted its
   * indices, as the adjustment is written: the window is moved to the front
   * only when `end == end - begin`, that is when it already starts at 0.
   */
  function FreeAfterAdjust(begin: nat, end: nat, capacity: nat): (n: nat)
    requires begin <= end <= capacity
    ensures begin == end ==> n == capacity
    ensures begin > 0 && begin < end ==> n == capacity - end
  {
    if begin == end then capacity
    else if end == end - begin then capacity - (end - begin)
    else capacity - end
  }

  /**
   * With unread bytes that do not start at the front and reach the end of the
   * array, `read_some` leaves no room to read into although the window is not
   * full: the transport read gets an empty slice, returns 0, and the buffer
   * reports an unexpected end of stream.
   */
  lemma ReadSomeStallsBeforeCapacity()
    ensures FreeAfterAdjust(1, 260, 260) == 0
    ensures FreeAfterAdjustChecked(1, 260, 260) == 1
  {
  }

  /**
   * The adjustment as the comment above it describes it: move the window to the
   * front when `end` has reached the capacity. `FreeAfterAdjustCheckedRoom`
   * shows that this always leaves room to read into.
   */
  function FreeAfterAdjustChecked(begin: nat, end: nat, capacity: nat): (n: nat)
    requires begin <= end <= capacity
    ensures n + (if begin == end then 0 else end - begin) >= capacity - (if end == capacity then end - begin else end)
  {
    if begin == end then capacity
    else if end == capacity then capacity - (end - begin)
    else capacity - end
  }

  /** With the capacity check, a window that is not full always leaves room to read. */
  lemma FreeAfterAdjustCheckedRoom(begin: nat, end: nat, capacity: nat)
    requires begin <= end <= capacity && end - begin < capacity
    ensures FreeAfterAdjustChecked(begin, end, capacity) > 0
    ensures FreeAfterAdjustChecked(begin, end, capacity) >= capacity - end
  {
  }

  /** The two adjustments differ only when the window reaches the end but not the front. */
  lemma FreeAfterAdjustAgrees(begin: nat, end: nat, capacity: nat)
    requires begin <= end <= capacity
    ensures FreeAfterAdjust(begin, end, capacity) != FreeAfterAdjustChecked(begin, end, capacity)
            <==> 0 < begin < end == capacity
  {
  }

  class ReadBuffer {
    const buffer: array<u8>
    var begin: nat
    var end: nat

    ghost predicate Valid()
      reads this
    {
      begin <= end <= buffer.Length
    }

    /** The bytes received and not yet consumed. */
    function Unread(): seq<u8>
      reads this, buffer
      requires Valid()
    {
      buffer[begin..end]
    }

    /** `new`: an empty window over a zeroed array of the given capacity. */
    constructor (capacity: nat)
      ensures Valid() && fresh(buffer) && buffer.Length == capacity
      ensures begin == 0 && end == 0 && Unread() == []
    {
      buffer := new u8[capacity](_ => 0);
      begin := 0;
      end := 0;
    }

    function Len(): (n: nat)
      reads this, buffer
      requires Valid()
      ensures n == |Unread()|
    {
      end - begin
    }

    function IsEmpty(): (b: bool)
      reads this, buffer
      requires Valid()
      ensures b <==> Unread() == []
    {
      begin == end
    }

    /** `read(count)`: the next `count` bytes, all consumed, or an error and no change. */
    method Read(count: nat) returns (r: Result<seq<u8>, InternalError>)
      requires Valid()
      modifies this
      ensures Valid() && buffer[..] == old(buffer[..])
      ensures r.Ok? <==> count <= old(|Unread()|)
      ensures r.Ok? ==> r.value == old(Unread())[..count] && Unread() == old(Unread())[count..]
                        && begin == old(begin) + count && end == old(end)
      ensures r.Err? ==> r.error == InsufficientBytesForRead(count, old(Len()))
                         && begin == old(begin) && end == old(end)
    {
      if Len() < count {
        return Err(InsufficientBytesForRead(count, Len()));
      }
      r := Ok(buffer[begin..begin + count]);
      begin := begin + count;
    }

    /** `read_u8`: the next byte, or `InsufficientBytesForRead(1, 0)` on an empty window. */
    method ReadU8() returns (r: Result<u8, InternalError>)
      requires Valid()
      modifies this
      ensures Valid() && buffer[..] == old(buffer[..])
      ensures r.Ok? <==> old(Unread()) != []
      ensures r.Ok? ==> r.value == old(Unread())[0] && Unread() == old(Unread())[1..]
                        && begin == old(begin) + 1 && end == old(end)
      ensures r.Err? ==> r.error == InsufficientBytesForRead(1, 0) && begin == old(begin) && end == old(end)
    {
      if IsEmpty() {
        return Err(InsufficientBytesForRead(1, 0));
      }
      r := Ok(buffer[begin]);
      begin := begin + 1;
    }

    /**
     * `peek_at(idx)`: the byte `idx` places into the window, nothing consumed.
     * The guard only rejects `idx > len`, so `idx == len` reads the array slot
     * just past the window (a byte that is not part of the input) whenever the
     * window does not reach the end of the array.
     */
    function PeekAt(idx: nat): (r: Result<u8, InternalError>)
      reads this, buffer
      requires Valid()
      ensures idx < Len() ==> r == Ok(Unread()[idx])
      ensures idx > Len() ==> r == Err(InsufficientBytesForRead(idx + 1, Len()))
      ensures idx == Len() ==> (r.Ok? <==> end < buffer.Length)
      ensures idx == Len() && r.Ok? ==> r.value == buffer[end]
      ensures idx == Len() && r.Err? ==> r.error == InsufficientBytesForRead(idx + 1, Len())
    {
      if Len() < idx then Err(InsufficientBytesForRead(idx + 1, Len()))
      else if begin + idx < buffer.Length then Ok(buffer[begin + idx])
      else Err(InsufficientBytesForRead(idx + 1, Len()))
    }

    /**
     * `read_u16_be`: two bytes, high first. The two bytes are read one at a
     * time, so with exactly one byte in the window that byte is consumed before
     * the error is reported.
     */
    method ReadU16Be() returns (r: Result<u16, InternalError>)
      requires Valid()
      modifies this
      ensures Valid() && buffer[..] == old(buffer[..])
      ensures r.Ok? <==> old(|Unread()|) >= 2
      ensures r.Ok? ==> BeBytes(r.value) == old(Unread())[..2] && Unread() == old(Unread())[2..]
      ensures r.Err? ==> r.error == InsufficientBytesForRead(1, 0) && Unread() == []
      ensures old(Unread()) == [] ==> begin == old(begin) && end == old(end)
    {
      var b1 :- ReadU8();
      var b2 :- ReadU8();
      return Ok(Be16(b1, b2));
    }

    /** `read_u16_le`: two bytes, low first, with the same partial consumption as `ReadU16Be`. */
    method ReadU16Le() returns (r: Result<u16, InternalError>)
      requires Valid()
      modifies this
      ensures Valid() && buffer[..] == old(buffer[..])
      ensures r.Ok? <==> old(|Unread()|) >= 2
      ensures r.Ok? ==> LeBytes(r.value) == old(Unread())[..2] && Unread() == old(Unread())[2..]
      ensures r.Err? ==> r.error == InsufficientBytesForRead(1, 0) && Unread() == []
      ensures old(Unread()) == [] ==> begin == old(begin) && end == old(end)
    {
      var b1 :- ReadU8();
      var b2 :- ReadU8();
      return Ok(Le16(b1, b2));
    }

    /** `copy_within(begin..end, 0)`: the window moved to the front of the array. */
    method ShiftToFront()
      requires Valid()
      modifies this, buffer
      ensures Valid() && begin == 0 && end == old(end) - old(begin)
      ensures Unread() == old(Unread())
    {
      CopyWithin(buffer, begin, end);
      end := end - begin;
      begin := 0;
    }

    /** The bytes `from..to` of `a` copied to its front, one at a time from the first. */
    static method CopyWithin(a: array<u8>, from: nat, to: nat)
      requires from <= to <= a.Length
      modifies a
      ensures a[..to - from] == old(a[from..to])
    {
      ghost var moved := a[from..to];
      var i := 0;
      while i < to - from
        invariant i <= to - from
        invariant forall k :: 0 <= k < i ==> a[k] == moved[k]
        invariant forall k :: i <= k < to - from ==> a[from + k] == moved[k]
      {
        a[i] := a[from + i];
        i := i + 1;
      }
    }

    /**
     * The index bookkeeping of `read_some` as written, with the transport read
     * given as `incoming`, the bytes the transport has ready: it copies as many
     * of them as fit behind the window. No byte read is an unexpected end of
     * stream.
     */
    method ReadSome(incoming: seq<u8>) returns (r: Result<nat, IoError>)
      requires Valid()
      modifies this, buffer
      ensures Valid()
      ensures begin == if old(begin) == old(end) || old(end) == old(end) - old(begin) then 0 else old(begin)
      ensures var room := FreeAfterAdjust(old(begin), old(end), buffer.Length);
              var n := if |incoming| < room then |incoming| else room;
              (r.Ok? <==> n > 0)
              && (r.Ok? ==> r.value == n)
              && (r.Err? ==> r.error == UnexpectedEof)
              && Unread() == old(Unread()) + incoming[..n]
    {
      if IsEmpty() {
        begin := 0;
        end := 0;
      }
      if end == Len() {
        ShiftToFront();
      }
      r := Fill(incoming);
    }

    /** `read_some` with the window moved whenever `end` has reached the capacity. */
    method ReadSomeChecked(incoming: seq<u8>) returns (r: Result<nat, IoError>)
      requires Valid()
      modifies this, buffer
      ensures Valid()
      ensures begin == if old(begin) == old(end) || old(end) == buffer.Length then 0 else old(begin)
      ensures var room := FreeAfterAdjustChecked(old(begin), old(end), buffer.Length);
              var n := if |incoming| < room then |incoming| else room;
              (r.Ok? <==> n > 0)
              && (r.Ok? ==> r.value == n)
              && (r.Err? ==> r.error == UnexpectedEof)
              && Unread() == old(Unread()) + incoming[..n]
    {
      if IsEmpty() {
        begin := 0;
        end := 0;
      }
      if end == buffer.Length {
        ShiftToFront();
      }
      r := Fill(incoming);
    }

    /** The transport read into `buffer[end..]` and the advance of `end`. */
    method Fill(incoming: seq<u8>) returns (r: Result<nat, IoError>)
      requires Valid()
      modifies this, buffer
      ensures Valid() && begin == old(begin)
      ensures var n := if |incoming| < old(buffer.Length - end) then |incoming| else old(buffer.Length - end);
              (r.Ok? <==> n > 0)
              && (r.Ok? ==> r.value == n && end == old(end) + n)
              && (r.Err? ==> r.error == UnexpectedEof && end == old(end))
              && Unread() == old(Unread()) + incoming[..n]
    {
      var count := if |incoming| < buffer.Length - end then |incoming| else buffer.Length - end;
      ghost var before := buffer[..];
      CopyAt(buffer, end, incoming[..count]);
      Appended(before, buffer[..], begin, end, incoming[..count]);
      if count == 0 {
        assert incoming[..count] == [];
        return Err(UnexpectedEof);
      }
      end := end + count;
      return Ok(count);
    }

    /** `src` written into `a` from index `at`, the bytes before it untouched. */
    static method CopyAt(a: array<u8>, at: nat, src: seq<u8>)
      requires at + |src| <= a.Length
      modifies a
      ensures a[..at] == old(a[..at]) && a[at..at + |src|] == src
    {
      var i := 0;
      while i < |src|
        invariant i <= |src|
        invariant forall k :: 0 <= k < at ==> a[k] == old(a[k])
        invariant forall k :: 0 <= k < i ==> a[at + k] == src[k]
      {
        a[at + i] := src[i];
        i := i + 1;
      }
    }

    /** A window `begin..end` with `src` written right after it is the old window followed by `src`. */
    static lemma Appended(before: seq<u8>, after: seq<u8>, begin: nat, end: nat, src: seq<u8>)
      requires begin <= end && end + |src| <= |before| == |after|
      requires after[..end] == before[..end] && after[end..end + |src|] == src
      ensures after[begin..end + |src|] == before[begin..end] + src
    {
      assert after[begin..end + |src|] == after[..end][begin..] + after[end..end + |src|];
      assert before[begin..end] == before[..end][begin..];
    }
  }

  /**
   * The unit test of the buffer: three bytes read, two consumed, two more read;
   * the window then holds the last three in order.
   */
  method ShiftExample() returns (last: Result<seq<u8>, InternalError>)
    ensures last == Ok([0x03, 0x04, 0x05])
  {
    var b := new ReadBuffer(260);
    var n1 := b.ReadSomeChecked([0x01, 0x02, 0x03]);
    assert b.Unread() == [0x01, 0x02, 0x03] && b.begin == 0 && b.end == 3;
    var first := b.Read(2);
    assert first.Ok?;
    assert first.value == [0x01, 0x02, 0x03][..2];
    assert b.Unread() == [0x03] && b.begin == 2 && b.end == 3;
    assert FreeAfterAdjustChecked(2, 3, 260) == 257;
    var n2 := b.ReadSomeChecked([0x04, 0x05]);
    assert b.Unread() == [0x03, 0x04, 0x05];
    last := b.Read(3);
    var expected: seq<u8> := [0x03, 0x04, 0x05];
    assert expected[..3] == expected;
    assert last.value == expected;
  }
}
