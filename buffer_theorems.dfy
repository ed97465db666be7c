/** Properties of whole runs of the buffer: values reach consumers in the order
    they were pushed, requests are settled once each and in the order they were
    made, and a buffer filled, ended and drained yields its values and then Done. */
module BufferTheorems {
  import opened BufferModel

  /** One call on the buffer. */
  datatype Op<T> = PushOp(value: T) | NextOp | EndOp | ReturnOp

  /** What the caller of that one call gets back. */
  datatype Reply<T> =
    | Pushed(outcome: PushOutcome)
    | Nexted(next: NextResult<T>)
    | Ended
    | Returned(result: IterResult<T>)

  /** The values carried by the Yielded settlements of a log, in log order. */
  function YieldedValues<T>(log: seq<Settlement<T>>): seq<T>
  {
    if log == [] then []
    else (if log[0].result.Yielded? then [log[0].result.value] else []) + YieldedValues(log[1..])
  }

  /** The value a push took in, if it took one. */
  function Accepts<T>(op: Op<T>, reply: Reply<T>): seq<T>
  {
    if op.PushOp? && reply.Pushed? && reply.outcome == Accepted then [op.value] else []
  }

  /** The values a call handed to consumers: to the pending requests it settled,
      and to its own caller when next answered with a value at once. */
  function Handed<T>(before: Buffer<T>, after: Buffer<T>, reply: Reply<T>): seq<T>
    requires before.settled <= after.settled
  {
    YieldedValues(after.settled[|before.settled|..])
      + (if reply.Nexted? && reply.next.Ready? && reply.next.result.Yielded?
         then [reply.next.result.value] else [])
  }

  /** One call. No value is lost or duplicated by it: the buffered values before,
      followed by the value it accepted, are the values it handed out followed by
      the buffered values after. */
  function Apply<T>(b: Buffer<T>, op: Op<T>): (r: (Buffer<T>, Reply<T>))
    ensures b.settled <= r.0.settled
    ensures b.closed ==> r.0.closed
    ensures Valid(b) ==> Valid(r.0)
    ensures Valid(b) ==> b.data + Accepts(op, r.1) == Handed(b, r.0, r.1) + r.0.data
  {
    match op
    case PushOp(v) =>
      var (b', o) := Push(b, v);
      if !b.closed && b.waiters != [] then
        var handOff := [Settlement(b.waiters[0], Yielded(v))];
        assert b'.settled[|b.settled|..] == handOff;
        assert handOff[1..] == [];
        assert YieldedValues(handOff) == [v];
        (b', Pushed(o))
      else
        assert b'.settled[|b.settled|..] == [];
        assert YieldedValues<T>([]) == [];
        assert Accepts(op, Pushed(o)) == if b.closed then [] else [v];
        (b', Pushed(o))
    case NextOp =>
      var (b', n) := Next(b);
      assert b'.settled[|b.settled|..] == [];
      if b.data != [] then
        assert b.data == [b.data[0]] + b'.data;
        (b', Nexted(n))
      else
        (b', Nexted(n))
    case EndOp =>
      var b' := End(b);
      assert b'.settled[|b.settled|..] == Flushed(b.waiters);
      YieldedFlushed<T>(b.waiters);
      (b', Ended)
    case ReturnOp =>
      var (b', d) := Return(b);
      assert b'.settled[|b.settled|..] == Flushed(b.waiters);
      YieldedFlushed<T>(b.waiters);
      (b', Returned(d))
  }

  /** A run of calls: the final state, each call's reply, every value accepted by
      a push and every value handed to a consumer, in order. */
  datatype Trace<T> = Trace(final: Buffer<T>, replies: seq<Reply<T>>, accepted: seq<T>, delivered: seq<T>)

  /** The calls `ops`, one after another, from `b`. The invariant holds throughout,
      closing is never undone, no resolver call is taken back, and the values
      handed out, followed by those still buffered, are the buffered values at the
      start followed by the values accepted, in the same order. */
  function Run<T>(b: Buffer<T>, ops: seq<Op<T>>): (t: Trace<T>)
    ensures |t.replies| == |ops|
    ensures b.settled <= t.final.settled
    ensures b.closed ==> t.final.closed
    ensures Valid(b) ==> Valid(t.final)
    ensures Valid(b) ==> b.data + t.accepted == t.delivered + t.final.data
    decreases |ops|
  {
    if ops == [] then Trace(b, [], [], [])
    else
      var step := Apply(b, ops[0]);
      var rest := Run(step.0, ops[1..]);
      var a := Accepts(ops[0], step.1);
      var h := Handed(b, step.0, step.1);
      if Valid(b) then
        Regroup(b.data, a, rest.accepted, h, step.0.data, rest.delivered, rest.final.data);
        Trace(rest.final, [step.1] + rest.replies, a + rest.accepted, h + rest.delivered)
      else
        Trace(rest.final, [step.1] + rest.replies, a + rest.accepted, h + rest.delivered)
  }

  /** From a new buffer, consumers receive a prefix of the accepted values, in
      push order, and the rest is what is still buffered. */
  lemma DeliveredInPushOrder<T>(ops: seq<Op<T>>)
    ensures Run(Empty<T>(), ops).delivered + Run(Empty<T>(), ops).final.data == Run(Empty<T>(), ops).accepted
  {
  }

  /** In every reachable state each request has been settled at most once, no
      pending request has been settled, requests were settled in the order they
      were made, and on a closed buffer every request ever made has been settled. */
  lemma SettledOnceInOrder<T>(b: Buffer<T>)
    requires Valid(b)
    ensures forall i, j :: 0 <= i < j < |b.settled| ==> b.settled[i].ticket < b.settled[j].ticket
    ensures forall i, j :: 0 <= i < |b.settled| && 0 <= j < |b.waiters| ==> b.settled[i].ticket < b.waiters[j]
    ensures forall i, j :: 0 <= i < j < |b.waiters| ==> b.waiters[i] < b.waiters[j]
    ensures b.closed ==> forall t: nat :: t < b.nextTicket ==> t in Tickets(b.settled)
  {
    var all := Tickets(b.settled) + b.waiters;
    assert forall k :: 0 <= k < |all| ==> all[k] == k;
    assert forall i :: 0 <= i < |b.settled| ==> all[i] == b.settled[i].ticket;
    assert forall j :: 0 <= j < |b.waiters| ==> all[|b.settled| + j] == b.waiters[j];
    if b.closed {
      assert all == Tickets(b.settled);
      forall t: nat | t < b.nextTicket
        ensures t in Tickets(b.settled)
      {
        assert all[t] == t;
      }
    }
  }

  /** A push of each value of `vs` in turn. The first values go to the pending
      requests, oldest request first, one value each; the values left over are
      buffered in order. On a closed buffer every push is rejected. */
  function PushAll<T>(b: Buffer<T>, vs: seq<T>): (r: Buffer<T>)
    ensures b.closed ==> r == b
    ensures Valid(b) ==> Valid(r)
    ensures !b.closed ==>
              var k := if |vs| < |b.waiters| then |vs| else |b.waiters|;
              && !r.closed
              && r.nextTicket == b.nextTicket
              && r.settled == b.settled + HandOffs(b.waiters[..k], vs[..k])
              && r.waiters == b.waiters[k..]
              && r.data == b.data + vs[k..]
    decreases |vs|
  {
    if vs == [] then b
    else
      var b1 := Push(b, vs[0]).0;
      var r := PushAll(b1, vs[1..]);
      if !b.closed && b.waiters != [] then
        HandOffsCons(b.waiters[..if |vs| < |b.waiters| then |vs| else |b.waiters|],
                     vs[..if |vs| < |b.waiters| then |vs| else |b.waiters|]);
        assert b.waiters[1..][..if |vs| - 1 < |b.waiters| - 1 then |vs| - 1 else |b.waiters| - 1]
            == b.waiters[..if |vs| < |b.waiters| then |vs| else |b.waiters|][1..];
        assert vs[1..][..if |vs| - 1 < |b.waiters| - 1 then |vs| - 1 else |b.waiters| - 1]
            == vs[..if |vs| < |b.waiters| then |vs| else |b.waiters|][1..];
        r
      else
        assert vs == [vs[0]] + vs[1..];
        r
  }

  /** The settlements of the requests `ws` with the values `vs`, pairwise, in order. */
  function HandOffs<T>(ws: seq<nat>, vs: seq<T>): seq<Settlement<T>>
    requires |ws| == |vs|
  {
    seq(|ws|, i requires 0 <= i < |ws| => Settlement(ws[i], Yielded(vs[i])))
  }

  /** `n` calls of next in turn, and what each answered. On a closed buffer they
      answer the buffered values, oldest first, and then Done every time; they
      change nothing else. */
  function Drain<T>(b: Buffer<T>, n: nat): (r: (Buffer<T>, seq<NextResult<T>>))
    ensures |r.1| == n
    ensures b.closed ==>
              && r.0.closed
              && r.0.waiters == b.waiters
              && r.0.settled == b.settled
              && r.0.data == b.data[if n < |b.data| then n else |b.data|..]
              && forall i :: 0 <= i < n ==>
                   r.1[i] == if i < |b.data| then Ready(Yielded(b.data[i])) else Ready(Done)
    decreases n
  {
    if n == 0 then (b, [])
    else
      var step := Next(b);
      var rest := Drain(step.0, n - 1);
      var r := (rest.0, [step.1] + rest.1);
      assert forall i :: 1 <= i < n ==> r.1[i] == rest.1[i - 1];
      assert b.closed && b.data != [] ==>
        && step.0.data == b.data[1..]
        && (forall i :: 1 <= i < |b.data| ==> step.0.data[i - 1] == b.data[i])
        && step.0.data[if n - 1 < |step.0.data| then n - 1 else |step.0.data|..]
           == b.data[if n < |b.data| then n else |b.data|..];
      assert b.closed && b.data == [] ==> step.0 == b;
      r
  }

  /** The answers `Ready(Yielded(v))` for the values of `vs`, in order. */
  function Yields<T>(vs: seq<T>): seq<NextResult<T>>
  {
    seq(|vs|, i requires 0 <= i < |vs| => Ready(Yielded(vs[i])))
  }

  /** `k` answers `Ready(Done)`. */
  function Dones<T>(k: nat): seq<NextResult<T>>
  {
    seq(k, i => Ready(Done))
  }

  /** On a closed buffer, |data| + k calls of next answer every buffered value,
      oldest first, and then Done k times. */
  lemma DrainClosed<T>(b: Buffer<T>, vs: seq<T>, k: nat)
    requires b.closed && b.data == vs
    ensures Drain(b, |vs| + k).1 == Yields(vs) + Dones(k)
  {
  }

  /** Pushing `vs` into a new buffer, ending it (or returning from it) and then
      calling next |vs| + k times answers the values of `vs` in push order, then
      Done k times; return itself answers Done. */
  lemma PushEndDrain<T>(vs: seq<T>, k: nat)
    ensures Drain(End(PushAll(Empty<T>(), vs)), |vs| + k).1 == Yields(vs) + Dones(k)
    ensures Return(PushAll(Empty<T>(), vs)).1 == Done
    ensures Drain(Return(PushAll(Empty<T>(), vs)).0, |vs| + k).1 == Yields(vs) + Dones(k)
  {
    var filled := PushAll(Empty<T>(), vs);
    assert filled.data == vs by {
      assert vs[0..] == vs;
    }
    var ended := End(filled);
    assert ended.closed && ended.data == vs;
    DrainClosed(ended, vs, k);
    assert Return(filled) == (ended, Done);
  }

  /** End settles no request with a value. */
  lemma YieldedFlushed<T>(ws: seq<nat>)
    ensures YieldedValues(Flushed<T>(ws)) == []
    decreases |ws|
  {
    if ws != [] {
      assert Flushed<T>(ws)[1..] == Flushed<T>(ws[1..]);
      YieldedFlushed<T>(ws[1..]);
    }
  }

  /** Two conservation steps, one after the other, make one. */
  lemma Regroup<T>(d: seq<T>, a: seq<T>, ar: seq<T>, h: seq<T>, d1: seq<T>, hr: seq<T>, f: seq<T>)
    requires d + a == h + d1
    requires d1 + ar == hr + f
    ensures d + (a + ar) == (h + hr) + f
  {
    calc {
      d + (a + ar);
      (d + a) + ar;
      (h + d1) + ar;
      h + (d1 + ar);
      h + (hr + f);
    }
  }

  lemma HandOffsCons<T>(ws: seq<nat>, vs: seq<T>)
    requires |ws| == |vs| && ws != []
    ensures HandOffs(ws, vs) == [Settlement(ws[0], Yielded(vs[0]))] + HandOffs(ws[1..], vs[1..])
  {
  }
}
