/** The state of an AsyncIterableBuffer as a value, and its four operations
    (push, next, end, return) as functions from the state before to the state
    after. Every resolver the buffer stores is represented by a ticket number; calling
    a resolver is recorded by appending a Settlement to the log `settled`, so the
    log says which request was resolved, with what, and in which order. */
module BufferModel {

  /** What a consumer eventually receives: `{ done: false, value }` or
      `{ done: true, value: undefined }`. */
  datatype IterResult<T> = Yielded(value: T) | Done

  /** What `next` hands back when it is called: a result that is already
      settled, or the ticket of a request that a later `push` or `end` settles. */
  datatype NextResult<T> = Ready(result: IterResult<T>) | Pending(ticket: nat)

  /** `push` either takes the value or throws "already closed". */
  datatype PushOutcome = Accepted | AlreadyClosed

  /** One call of a stored resolver: the request's ticket and the result it was given. */
  datatype Settlement<T> = Settlement(ticket: nat, result: IterResult<T>)

  /** data: the buffered values, oldest first; waiters: the pending requests,
      oldest first; closed: set by end; settled: every resolver call so far, in
      call order; nextTicket: the ticket the next pending request gets. */
  datatype Buffer<T> = Buffer(
    data: seq<T>,
    waiters: seq<nat>,
    closed: bool,
    settled: seq<Settlement<T>>,
    nextTicket: nat)

  /** The tickets of a settlement log, in log order. */
  function Tickets<T>(log: seq<Settlement<T>>): seq<nat>
  {
    seq(|log|, i requires 0 <= i < |log| => log[i].ticket)
  }

  /** The tickets 0, 1, ..., n - 1. */
  function Iota(n: nat): seq<nat>
  {
    seq(n, i requires 0 <= i < n => i as nat)
  }

  /** The settlements `end` makes: every waiter in `ws`, in order, resolved with Done. */
  function Flushed<T>(ws: seq<nat>): seq<Settlement<T>>
  {
    seq(|ws|, i requires 0 <= i < |ws| => Settlement(ws[i], Done))
  }

  /** The class invariant.
      - At most one of the two queues holds anything.
      - A closed buffer has no pending requests.
      - Requests are numbered in the order they were made, and the settled ones
        followed by the pending ones are exactly the tickets handed out so far,
        in order: so each ticket is settled at most once, a pending one is not yet
        settled, and requests are settled in the order they were made. */
  predicate Valid<T>(b: Buffer<T>)
  {
    && (b.data == [] || b.waiters == [])
    && (b.closed ==> b.waiters == [])
    && Tickets(b.settled) + b.waiters == Iota(b.nextTicket)
  }

  /** A new buffer: empty and open. */
  function Empty<T>(): (b: Buffer<T>)
    ensures Valid(b)
    ensures b.data == [] && b.waiters == [] && !b.closed && b.settled == []
  {
    Buffer([], [], false, [], 0)
  }

  /** `push(value)`. On a closed buffer it is rejected and nothing changes.
      Otherwise the oldest pending request, if there is one, is removed and
      settled with the value; if there is none the value is buffered at the tail. */
  function Push<T>(b: Buffer<T>, v: T): (r: (Buffer<T>, PushOutcome))
    ensures r.1 == AlreadyClosed <==> b.closed
    ensures b.closed ==> r.0 == b
    ensures r.0.closed == b.closed && r.0.nextTicket == b.nextTicket
    ensures !b.closed && b.waiters != [] ==>
              && r.0.data == b.data
              && r.0.waiters == b.waiters[1..]
              && r.0.settled == b.settled + [Settlement(b.waiters[0], Yielded(v))]
    ensures !b.closed && b.waiters == [] ==>
              && r.0.data == b.data + [v]
              && |r.0.data| == |b.data| + 1
              && r.0.waiters == []
              && r.0.settled == b.settled
    ensures Valid(b) ==> Valid(r.0)
  {
    if b.closed then
      (b, AlreadyClosed)
    else if b.waiters != [] then
      var w := b.waiters[0];
      var r := b.(waiters := b.waiters[1..], settled := b.settled + [Settlement(w, Yielded(v))]);
      TicketsSnoc(b.settled, Settlement(w, Yielded(v)));
      assert [w] + b.waiters[1..] == b.waiters;
      (r, Accepted)
    else
      (b.(data := b.data + [v]), Accepted)
  }

  /** `next()`. The oldest buffered value if there is one; otherwise Done at once
      if the buffer is closed; otherwise a new pending request, queued last, with a
      ticket no request has had before. */
  function Next<T>(b: Buffer<T>): (r: (Buffer<T>, NextResult<T>))
    ensures r.0.closed == b.closed && r.0.settled == b.settled
    ensures b.data != [] ==>
              && r.1 == Ready(Yielded(b.data[0]))
              && r.0.data == b.data[1..]
              && |r.0.data| == |b.data| - 1
              && r.0.waiters == b.waiters
    ensures b.data == [] && b.closed ==> r == (b, Ready(Done))
    ensures b.data == [] && !b.closed ==>
              && r.1 == Pending(b.nextTicket)
              && r.0.data == []
              && r.0.waiters == b.waiters + [b.nextTicket]
    ensures Valid(b) && r.1.Pending? ==> r.1.ticket !in Tickets(b.settled) + b.waiters
    ensures Valid(b) ==> Valid(r.0)
  {
    if b.data != [] then
      (b.(data := b.data[1..]), Ready(Yielded(b.data[0])))
    else if b.closed then
      (b, Ready(Done))
    else
      var t := b.nextTicket;
      IotaSnoc(t);
      assert Valid(b) ==> t !in Iota(t);
      (b.(waiters := b.waiters + [t], nextTicket := t + 1), Pending(t))
  }

  /** `end()`. Closes the buffer and settles every pending request with Done,
      oldest first. Buffered values stay. On a buffer that is already closed it
      changes nothing. */
  function End<T>(b: Buffer<T>): (r: Buffer<T>)
    ensures r.closed && r.waiters == []
    ensures r.data == b.data && r.nextTicket == b.nextTicket
    ensures r.settled == b.settled + Flushed(b.waiters)
    ensures Valid(b) && b.closed ==> r == b
    ensures Valid(b) ==> Valid(r)
  {
    TicketsAppend(b.settled, Flushed(b.waiters));
    TicketsFlushed<T>(b.waiters);
    assert Flushed<T>([]) == [];
    assert b.settled + [] == b.settled;
    b.(closed := true, waiters := [], settled := b.settled + Flushed(b.waiters))
  }

  /** `return()`: `end()`, then report Done, whatever is still buffered. */
  function Return<T>(b: Buffer<T>): (r: (Buffer<T>, IterResult<T>))
    ensures r.1 == Done
    ensures r.0.closed && r.0.waiters == [] && r.0.data == b.data
    ensures r.0.settled == b.settled + Flushed(b.waiters)
    ensures Valid(b) ==> Valid(r.0)
  {
    (End(b), Done)
  }

  // Facts about Tickets, Iota and Flushed used by the proofs above.

  lemma TicketsSnoc<T>(log: seq<Settlement<T>>, s: Settlement<T>)
    ensures Tickets(log + [s]) == Tickets(log) + [s.ticket]
  {
  }

  lemma TicketsAppend<T>(a: seq<Settlement<T>>, b: seq<Settlement<T>>)
    ensures Tickets(a + b) == Tickets(a) + Tickets(b)
  {
  }

  lemma TicketsFlushed<T>(ws: seq<nat>)
    ensures Tickets(Flushed<T>(ws)) == ws
  {
  }

  lemma IotaSnoc(n: nat)
    ensures Iota(n + 1) == Iota(n) + [n]
    ensures n !in Iota(n)
  {
  }
}
