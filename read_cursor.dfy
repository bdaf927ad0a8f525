/**
 * The read cursor the PDU decoders consume (the external `scursor::ReadCursor`).
 * Running out of bytes is reported as `BadResponse(InsufficientBytes)` and unread
 * bytes at the end as `BadResponse(TrailingBytes(n))`.
 *
 * Each decoder exists twice: a pure function from the unread bytes to the value
 * and the bytes left over (`Parsed`), which states what the decoder means, and a
 * method that consumes a `ReadCursor` and is proved to agree with the function.
 */
module ReadCursors {
  import opened Num
  import opened Wrappers
  import opened Errors

  datatype Parsed<+T> = Parsed(value: T, rest: seq<u8>)

  const Insufficient: RequestError := BadResponse(InsufficientBytes)

  function TakeU8(s: seq<u8>): (r: Result<Parsed<u8>, RequestError>)
    ensures r.Ok? <==> |s| >= 1
    ensures r.Ok? ==> r.value == Parsed(s[0], s[1..])
    ensures r.Err? ==> r.error == Insufficient
  {
    if |s| < 1 then Err(Insufficient) else Ok(Parsed(s[0], s[1..]))
  }

  function TakeU16Be(s: seq<u8>): (r: Result<Parsed<u16>, RequestError>)
    ensures r.Ok? <==> |s| >= 2
    ensures r.Ok? ==> BeBytes(r.value.value) == s[..2] && r.value.rest == s[2..]
    ensures r.Ok? ==> r.value.value == Be16(s[0], s[1])
    ensures r.Err? ==> r.error == Insufficient
  {
    if |s| < 2 then Err(Insufficient) else Ok(Parsed(Be16(s[0], s[1]), s[2..]))
  }

  function TakeBytes(s: seq<u8>, n: nat): (r: Result<Parsed<seq<u8>>, RequestError>)
    ensures r.Ok? <==> |s| >= n
    ensures r.Ok? ==> r.value.value + r.value.rest == s && |r.value.value| == n
    ensures r.Err? ==> r.error == Insufficient
  {
    if |s| < n then Err(Insufficient) else Ok(Parsed(s[..n], s[n..]))
  }

  /** `expect_empty`: succeeds only when nothing is left. */
  function RequireEmpty(s: seq<u8>): (r: Result<Parsed<()>, RequestError>)
    ensures r.Ok? <==> s == []
    ensures r.Ok? ==> r.value.rest == []
    ensures r.Err? ==> r.error == BadResponse(TrailingBytes(|s|))
  {
    if |s| == 0 then Ok(Parsed((), s)) else Err(BadResponse(TrailingBytes(|s|)))
  }

  /**
   * A decoder method agrees with its specification: the same error, or the same
   * value with the cursor left where the specification says.
   */
  ghost predicate Agrees<T>(r: Result<T, RequestError>, rest: seq<u8>, spec: Result<Parsed<T>, RequestError>) {
    match spec
    case Ok(p) => r == Ok(p.value) && rest == p.rest
    case Err(e) => r == Err(e)
  }

  class ReadCursor {
    const data: seq<u8>
    var pos: nat

    ghost predicate Valid()
      reads this
    {
      pos <= |data|
    }

    /** The bytes not yet consumed. */
    function Rest(): seq<u8>
      reads this
      requires Valid()
    {
      data[pos..]
    }

    function Remaining(): (n: nat)
      reads this
      requires Valid()
      ensures n == |Rest()|
    {
      |data| - pos
    }

    constructor (bytes: seq<u8>)
      ensures Valid() && Rest() == bytes
    {
      data := bytes;
      pos := 0;
    }

    method ReadU8() returns (r: Result<u8, RequestError>)
      requires Valid()
      modifies this
      ensures Valid() && Agrees(r, Rest(), TakeU8(old(Rest())))
    {
      if pos + 1 > |data| {
        return Err(Insufficient);
      }
      r := Ok(data[pos]);
      pos := pos + 1;
    }

    method ReadU16Be() returns (r: Result<u16, RequestError>)
      requires Valid()
      modifies this
      ensures Valid() && Agrees(r, Rest(), TakeU16Be(old(Rest())))
    {
      if pos + 2 > |data| {
        return Err(Insufficient);
      }
      r := Ok(Be16(data[pos], data[pos + 1]));
      pos := pos + 2;
    }

    method ReadBytes(n: nat) returns (r: Result<seq<u8>, RequestError>)
      requires Valid()
      modifies this
      ensures Valid() && Agrees(r, Rest(), TakeBytes(old(Rest()), n))
    {
      if pos + n > |data| {
        return Err(Insufficient);
      }
      assert data[pos..][..n] == data[pos..pos + n] && data[pos..][n..] == data[pos + n..];
      r := Ok(data[pos..pos + n]);
      pos := pos + n;
    }

    method ExpectEmpty() returns (r: Result<(), RequestError>)
      requires Valid()
      ensures Agrees(r, Rest(), RequireEmpty(Rest()))
    {
      if pos < |data| {
        return Err(BadResponse(TrailingBytes(|data| - pos)));
      }
      r := Ok(());
    }
  }
}
