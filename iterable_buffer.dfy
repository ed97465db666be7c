/** The AsyncIterableBuffer class: the two queues and the closed flag are fields
    that push, end, next and return update in place. Each method is specified by
    the matching function of BufferModel applied to the state before the call, and
    keeps the class invariant BufferModel.Valid. */
module IterableBuffer {
  import opened BufferModel

  class AsyncIterableBuffer<T> {
    /** The buffered values, oldest first. */
    var data: seq<T>
    /** The pending requests (stored resolvers), oldest first. */
    var waiters: seq<nat>
    var closed: bool
    /** Every resolver call so far, in call order. */
    var settled: seq<Settlement<T>>
    /** The ticket the next pending request gets. */
    var nextTicket: nat

    /** The state as a value. */
    ghost function Model(): Buffer<T>
      reads this
    {
      Buffer(data, waiters, closed, settled, nextTicket)
    }

    ghost predicate Valid()
      reads this
    {
      BufferModel.Valid(Model())
    }

    constructor ()
      ensures Valid() && Model() == Empty()
    {
      data := [];
      waiters := [];
      closed := false;
      settled := [];
      nextTicket := 0;
    }

    /** The `closed` getter. */
    method Closed() returns (c: bool)
      requires Valid()
      ensures c == Model().closed
      ensures c ==> Model().waiters == []
    {
      c := closed;
    }

    /** The `length` getter: the number of buffered values. */
    method Length() returns (n: nat)
      requires Valid()
      ensures n == |Model().data|
      ensures n > 0 ==> Model().waiters == []
    {
      n := |data|;
    }

    /** `push(value)`: a rejected push (the source throws) leaves every field as it was. */
    method Push(v: T) returns (outcome: PushOutcome)
      requires Valid()
      modifies this
      ensures Valid()
      ensures (Model(), outcome) == BufferModel.Push(old(Model()), v)
      ensures outcome == AlreadyClosed <==> old(closed)
      ensures old(closed) ==> unchanged(this)
    {
      if closed {
        return AlreadyClosed;
      }
      if |waiters| > 0 {
        var resolve := waiters[0];
        waiters := waiters[1..];
        settled := settled + [Settlement(resolve, Yielded(v))];
      } else {
        data := data + [v];
      }
      outcome := Accepted;
    }

    /** `end()`: sets closed and calls the stored resolvers with Done, oldest
        first, one per iteration, until none is left. */
    method End()
      requires Valid()
      modifies this
      ensures Valid()
      ensures Model() == BufferModel.End(old(Model()))
      ensures closed && data == old(data)
    {
      closed := true;
      while |waiters| > 0
        invariant closed && data == old(data) && nextTicket == old(nextTicket)
        invariant settled + Flushed(waiters) == old(settled) + Flushed(old(waiters))
        decreases |waiters|
      {
        var resolve := waiters[0];
        FlushedCons<T>(waiters);
        waiters := waiters[1..];
        settled := settled + [Settlement(resolve, Done)];
      }
      assert Flushed<T>([]) == [];
      assert Model() == BufferModel.End(old(Model()));
    }

    /** `next()`: the oldest buffered value, Done on a closed and empty buffer, or
        else a new pending request whose ticket is returned. */
    method Next() returns (r: NextResult<T>)
      requires Valid()
      modifies this
      ensures Valid()
      ensures (Model(), r) == BufferModel.Next(old(Model()))
      ensures closed == old(closed)
    {
      if |data| > 0 {
        var value := data[0];
        data := data[1..];
        return Ready(Yielded(value));
      }
      if closed {
        return Ready(Done);
      }
      r := Pending(nextTicket);
      waiters := waiters + [nextTicket];
      nextTicket := nextTicket + 1;
      assert (Model(), r) == BufferModel.Next(old(Model()));
    }

    /** `return()`: `end()`, then Done. */
    method Return() returns (r: IterResult<T>)
      requires Valid()
      modifies this
      ensures Valid()
      ensures (Model(), r) == BufferModel.Return(old(Model()))
    {
      End();
      r := Done;
    }
  }

  /** Removing the first waiter takes its settlement off the front of Flushed. */
  lemma FlushedCons<T>(ws: seq<nat>)
    requires ws != []
    ensures Flushed<T>(ws) == [Settlement(ws[0], Done)] + Flushed<T>(ws[1..])
  {
  }
}
