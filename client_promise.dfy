/**
 * The one-shot completion handles of client requests. `Promise` keeps its
 * callback in an `Option` and takes it out on the first completion; the
 * read-request promises are consumed by value instead. Either way a request's
 * result reaches its consumer at most once.
 */
module ClientPromise {
  import opened Wrappers
  import opened Errors

  /**
   * `client::message::Promise<T>`. `armed` says whether the callback is still
   * held; `delivered` lists the results the callback was invoked with.
   */
  class Promise<T> {
    var armed: bool
    var delivered: seq<Result<T, RequestError>>

    ghost predicate Valid()
      reads this
    {
      |delivered| <= 1 && (armed <==> delivered == [])
    }

    constructor ()
      ensures Valid() && armed && delivered == []
    {
      armed := true;
      delivered := [];
    }

    /** `complete`: invokes the callback if it is still there, and drops it. */
    method Complete(result: Result<T, RequestError>)
      requires Valid()
      modifies this
      ensures Valid() && !armed
      ensures delivered == if old(armed) then [result] else old(delivered)
    {
      if armed {
        armed := false;
        delivered := [result];
      }
    }

    method Failure(err: RequestError)
      requires Valid()
      modifies this
      ensures Valid() && !armed
      ensures delivered == if old(armed) then [Err(err)] else old(delivered)
    {
      Complete(Err(err));
    }

    method Success(value: T)
      requires Valid()
      modifies this
      ensures Valid() && !armed
      ensures delivered == if old(armed) then [Ok(value)] else old(delivered)
    {
      Complete(Ok(value));
    }

    /** `Drop`: a promise nobody completed reports `Shutdown`; a completed one stays silent. */
    method Drop()
      requires Valid()
      modifies this
      ensures Valid() && !armed
      ensures delivered == if old(armed) then [Err(Shutdown)] else old(delivered)
    {
      Failure(Shutdown);
    }
  }

  /** Completing and then dropping a promise invokes the callback once, with the completion's result. */
  method CompleteThenDrop<T>(p: Promise<T>, result: Result<T, RequestError>)
    requires p.Valid() && p.armed
    modifies p
    ensures p.delivered == [result]
  {
    p.Complete(result);
    p.Drop();
  }

  /** The source's test: a request dropped before any reply delivers exactly one `Shutdown`. */
  method DropFresh<T>() returns (p: Promise<T>)
    ensures p.delivered == [Err(Shutdown)]
  {
    p := new Promise<T>();
    p.Drop();
  }

  /** Where a read request's result goes: a channel receives the collected values, a callback the iterator. */
  datatype PromiseKind = Channel | Callback

  /**
   * The `Promise` enums of `read_bits.rs` and `read_registers.rs`. `complete`
   * takes `self` by value, so `consumed` records that the promise has been moved;
   * an iterator handed to a callback is represented by the items it yields.
   */
  class ReadPromise<V> {
    const kind: PromiseKind
    var consumed: bool
    var delivered: seq<Result<V, RequestError>>

    ghost predicate Valid()
      reads this
    {
      |delivered| <= 1 && (consumed <==> delivered != [])
    }

    constructor (kind: PromiseKind)
      ensures Valid() && this.kind == kind && !consumed && delivered == []
    {
      this.kind := kind;
      consumed := false;
      delivered := [];
    }

    /** `complete(self, x)`: the one use of the moved promise. */
    method Complete(x: Result<V, RequestError>)
      requires Valid() && !consumed
      modifies this
      ensures Valid() && consumed && delivered == [x]
    {
      consumed := true;
      delivered := [x];
    }

    method Failure(err: RequestError)
      requires Valid() && !consumed
      modifies this
      ensures Valid() && consumed && delivered == [Err(err)]
    {
      Complete(Err(err));
    }
  }
}
