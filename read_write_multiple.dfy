/**
 * Read/write multiple registers (function code 23) on the client side: the
 * request value, its constructor's count check, the iterator over the values
 * to write, and the decoding of the reply.
 */
module ReadWriteMultiples {
  import opened Num
  import opened Wrappers
  import opened Errors
  import opened Types
  import opened ReadCursors

  /** A read range, a write range and the values to write from the write range's start. */
  datatype ReadWriteMultiple<T> = ReadWriteMultiple(readRange: AddressRange, writeRange: AddressRange, values: seq<T>)

  /** `values.len() as u16`: the length cut to its low 16 bits. */
  function LengthAsU16(n: nat): (r: u16)
    ensures n < 0x1_0000 ==> r == n
  {
    n % 0x1_0000
  }

  /**
   * `ReadWriteMultiple::new` as written: the write count is compared with the
   * number of values after that number is cut to 16 bits.
   */
  function New<T>(readRange: AddressRange, writeRange: AddressRange, values: seq<T>): (r: Result<ReadWriteMultiple<T>, RequestError>)
    ensures r.Ok? <==> writeRange.count == LengthAsU16(|values|)
    ensures r.Ok? ==> r.value.readRange == readRange && r.value.writeRange == writeRange && r.value.values == values
    ensures r.Err? ==> r.error == BadRequest(CountTooBigForType(writeRange.count, LengthAsU16(|values|)))
  {
    var valuesCount := LengthAsU16(|values|);
    if writeRange.count != valuesCount then Err(BadRequest(CountTooBigForType(writeRange.count, valuesCount)))
    else Ok(ReadWriteMultiple(readRange, writeRange, values))
  }

  /**
   * The cut makes `new` accept 65537 values for a write range of one register;
   * iterating over them would then run past the end of the address space.
   */
  lemma NewAcceptsWrappedLength()
    ensures New(AddressRange(0, 1), AddressRange(0xFFFF, 1), seq(0x1_0001, k => 0 as u16)).Ok?
  {
  }

  /** `new` with the count compared against the full number of values. */
  function NewChecked<T>(readRange: AddressRange, writeRange: AddressRange, values: seq<T>): (r: Result<ReadWriteMultiple<T>, RequestError>)
    ensures r.Ok? <==> writeRange.count == |values|
    ensures r.Ok? ==> r.value.readRange == readRange && r.value.writeRange == writeRange && r.value.values == values
    ensures r.Err? ==> r.error == BadRequest(CountTooBigForType(writeRange.count, LengthAsU16(|values|)))
  {
    if writeRange.count != |values| then Err(BadRequest(CountTooBigForType(writeRange.count, LengthAsU16(|values|))))
    else Ok(ReadWriteMultiple(readRange, writeRange, values))
  }

  /** Below 65536 values the two checks agree. */
  lemma NewCheckedAgrees<T>(readRange: AddressRange, writeRange: AddressRange, values: seq<T>)
    requires |values| < 0x1_0000
    ensures New(readRange, writeRange, values) == NewChecked(readRange, writeRange, values)
  {
  }

  /**
   * The pairs the iterator yields from `first` on: the k-th value with the
   * address `first + k` cut to 16 bits, as `start + pos` and `pos += 1` wrap in
   * a release build.
   */
  function WrappedEnumerate<T>(first: nat, values: seq<T>): (r: seq<Indexed<T>>)
    ensures |r| == |values|
    ensures forall k :: 0 <= k < |r| ==> r[k] == Indexed(Wrap16(first + k), values[k])
  {
    seq(|values|, k requires 0 <= k < |values| => Indexed(Wrap16(first + k), values[k]))
  }

  /** While the addresses stay inside the address space nothing wraps. */
  lemma WrappedEnumerateInRange<T>(start: u16, values: seq<T>)
    requires start + |values| <= 0x1_0000
    ensures WrappedEnumerate(start, values) == Enumerate(start, values)
  {
    var w, e := WrappedEnumerate(start, values), Enumerate(start, values);
    forall k | 0 <= k < |values|
      ensures w[k] == e[k]
    {
    }
  }

  /** Dropping the first pair leaves the pairs of the remaining values from the next address. */
  lemma WrappedEnumerateTail<T>(first: nat, rest: seq<T>, head: T)
    ensures WrappedEnumerate(first, [head] + rest)[1..] == WrappedEnumerate(first + 1, rest)
  {
    var a, b := WrappedEnumerate(first, [head] + rest)[1..], WrappedEnumerate(first + 1, rest);
    forall k | 0 <= k < |rest|
      ensures a[k] == b[k]
    {
      assert ([head] + rest)[k + 1] == rest[k];
    }
  }

  /** `ReadWriteMultipleIterator`: pairs each value to write with its address. */
  class ReadWriteMultipleIterator<T> {
    const range: AddressRange
    var pos: u16
    /** The slice iterator: the values not yet yielded. */
    var iter: seq<T>
    ghost const values: seq<T>
    /** How many values were yielded; `pos` is this count cut to 16 bits. */
    ghost var yielded: nat

    ghost predicate Valid()
      reads this
    {
      yielded <= |values| && iter == values[yielded..] && pos == Wrap16(yielded)
    }

    /** What is still to come. */
    ghost function Remaining(): seq<Indexed<T>>
      reads this
    {
      WrappedEnumerate(range.start + yielded, iter)
    }

    constructor (range: AddressRange, values: seq<T>)
      ensures Valid() && this.range == range && this.values == values && pos == 0
      ensures Remaining() == WrappedEnumerate(range.start, values)
    {
      this.range := range;
      this.values := values;
      pos := 0;
      yielded := 0;
      iter := values;
    }

    /**
     * `size_hint`: `count - pos` in wrapping `u16` arithmetic; exact when there
     * are as many values as the range counts.
     */
    function SizeHint(): (n: nat)
      reads this
      requires Valid()
      ensures yielded <= range.count ==> n == range.count - yielded
      ensures |values| == range.count ==> n == |Remaining()|
    {
      (range.count - pos) % 0x1_0000
    }

    method Next() returns (item: Option<Indexed<T>>)
      requires Valid()
      modifies this
      ensures Valid()
      ensures old(Remaining()) == [] <==> item == None
      ensures item.Some? ==> item.value == old(Remaining())[0] && Remaining() == old(Remaining())[1..]
      ensures item.None? ==> pos == old(pos) && iter == old(iter) && yielded == old(yielded)
    {
      if iter == [] {
        return None;
      }
      ghost var first := range.start + yielded;
      RemainingStep(first, iter);
      NextPos(range.start, pos, yielded);
      var next := iter[0];
      var result := Indexed(Wrap16(range.start + pos), next);
      iter := iter[1..];
      pos := Wrap16(pos + 1);
      yielded := yielded + 1;
      return Some(result);
    }

    /** `collect()`: every pair still to come, in order. */
    method Collect() returns (items: seq<Indexed<T>>)
      requires Valid()
      modifies this
      ensures Valid() && items == old(Remaining()) && Remaining() == []
    {
      items := [];
      while true
        invariant Valid() && items + Remaining() == old(Remaining())
        decreases |iter|
      {
        ghost var before := Remaining();
        var next := Next();
        if next.None? {
          assert items + [] == items;
          return;
        }
        Regroup(items, before, Remaining());
        items := items + [next.value];
      }
    }
  }

  /** One step of the iterator: the first pair, then the rest from the next address. */
  lemma RemainingStep<T>(first: nat, iter: seq<T>)
    requires iter != []
    ensures WrappedEnumerate(first, iter)[0] == Indexed(Wrap16(first), iter[0])
    ensures WrappedEnumerate(first, iter)[1..] == WrappedEnumerate(first + 1, iter[1..])
  {
    assert iter == [iter[0]] + iter[1..];
    WrappedEnumerateTail(first, iter[1..], iter[0]);
  }

  /** The wrapped position gives the same address and successor as the full count. */
  lemma NextPos(start: nat, pos: u16, yielded: nat)
    requires pos == Wrap16(yielded)
    ensures Wrap16(start + pos) == Wrap16(start + yielded)
    ensures Wrap16(pos + 1) == Wrap16(yielded + 1)
  {
    WrapSum(start, yielded);
    WrapSum(1, yielded);
  }

  /** `ReadWriteMultiple::iter`: the pairs of any request, addresses wrapping past 0xFFFF. */
  method Iter<T>(request: ReadWriteMultiple<T>) returns (it: ReadWriteMultipleIterator<T>)
    ensures fresh(it) && it.Valid() && it.Remaining() == WrappedEnumerate(request.writeRange.start, request.values)
  {
    it := new ReadWriteMultipleIterator(request.writeRange, request.values);
  }

  /**
   * A request that `NewChecked` accepts over a valid write range is iterated
   * without any wrap: the k-th value goes to address `start + k`.
   */
  lemma NewCheckedIterable<T>(readRange: AddressRange, writeRange: AddressRange, values: seq<T>)
    requires writeRange.IsValid() && NewChecked(readRange, writeRange, values).Ok?
    ensures WrappedEnumerate(writeRange.start, NewChecked(readRange, writeRange, values).value.values)
            == Enumerate(writeRange.start, values)
  {
    WrappedEnumerateInRange(writeRange.start, values);
  }

  /**
   * The request `new` accepts with 65537 values for the single address 0xFFFF:
   * its second value is written to address 0, after `start + pos` wrapped.
   */
  lemma WrappedRequestWrapsAddress()
    ensures var values := seq(0x1_0001, k => 0 as u16);
            && New(AddressRange(0, 1), AddressRange(0xFFFF, 1), values).Ok?
            && WrappedEnumerate(0xFFFF, values)[1].index == 0
  {
  }

  /**
   * `parse_registers_response` as a function of the reply's bytes: the byte-count
   * byte is skipped unread, then exactly `2 * count` bytes must follow, decoded
   * against the range it is given.
   */
  function DecodeRegistersResponse(range: AddressRange, s: seq<u8>): (r: Result<seq<Indexed<u16>>, RequestError>)
    requires range.IsValid()
    ensures r.Ok? <==> |s| == 1 + 2 * range.count
    ensures r.Ok? ==> r.value == Enumerate(range.start, WordsOf(s[1..]))
    ensures |s| == 0 ==> r == Err(Insufficient)
    ensures 1 <= |s| < 1 + 2 * range.count ==> r == Err(Insufficient)
    ensures |s| > 1 + 2 * range.count ==> r == Err(BadResponse(TrailingBytes(|s| - 1 - 2 * range.count)))
  {
    var byteCount :- TakeU8(s);
    var bytes :- ParseAllRegisters(range, byteCount.rest);
    assert bytes.value == s[1..];
    ghost var words := WordsOf(s[1..]);
    assert forall k :: 0 <= k < range.count ==> RegisterValues(bytes.value, range)[k] == Indexed(range.start + k, words[k]);
    Ok(RegisterValues(bytes.value, range))
  }

  /** The byte count of the reply is never compared with anything. */
  lemma DecodeRegistersResponseIgnoresCount(range: AddressRange, s: seq<u8>, b: u8)
    requires range.IsValid() && |s| >= 1
    ensures DecodeRegistersResponse(range, [b] + s[1..]) == DecodeRegistersResponse(range, s)
  {
    assert ([b] + s[1..])[1..] == s[1..];
  }

  /**
   * `MultipleReadWriteRequest::parse_registers_response`: skips the byte count and
   * hands the rest to `RegisterIterator::parse_all` with the write range.
   */
  method ParseRegistersResponse(writeRange: AddressRange, cursor: ReadCursor) returns (r: Result<RegisterIterator, RequestError>)
    requires writeRange.IsValid() && cursor.Valid()
    modifies cursor
    ensures cursor.Valid()
    ensures r.Ok? <==> DecodeRegistersResponse(writeRange, old(cursor.Rest())).Ok?
    ensures r.Ok? ==> fresh(r.value) && r.value.Valid()
                      && r.value.Remaining() == DecodeRegistersResponse(writeRange, old(cursor.Rest())).value
    ensures r.Err? ==> r.error == DecodeRegistersResponse(writeRange, old(cursor.Rest())).error
  {
    var byteCount :- cursor.ReadU8();
    r := ParseRegisterIterator(writeRange, cursor);
  }
}
