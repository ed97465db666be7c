/** Clients of the class that replay the unit tests' situations; every assertion
    follows from the methods' contracts alone. */
module BufferScenarios {
  import opened BufferModel
  import opened IterableBuffer

  /** A pending next is settled by the following push; the value is never counted
      as buffered. Pushing after end is rejected and changes nothing. */
  method HandOffThenClose(x: int, y: int)
  {
    var buffer := new AsyncIterableBuffer<int>();
    var first := buffer.Next();
    assert first == Pending(0);
    var pushed := buffer.Push(x);
    assert pushed == Accepted;
    var n := buffer.Length();
    assert n == 0;
    assert buffer.settled == [Settlement(0, Yielded(x))];
    buffer.End();
    var late := buffer.Push(y);
    assert late == AlreadyClosed;
    var c := buffer.Closed();
    assert c;
  }

  /** Two pending nexts, one push, then end: the first request gets the value,
      the second gets Done. */
  method TwoPendingThenEnd(x: int)
  {
    var buffer := new AsyncIterableBuffer<int>();
    var first := buffer.Next();
    var second := buffer.Next();
    assert first == Pending(0) && second == Pending(1);
    var _ := buffer.Push(x);
    buffer.End();
    assert Flushed<int>([1]) == [Settlement(1, Done)];
    assert buffer.settled == [Settlement(0, Yielded(x)), Settlement(1, Done)];
  }

  /** Values pushed before end are still delivered, in order, then Done; the
      length counts them down and end leaves it alone. */
  method DrainAfterEnd(x: int, y: int, z: int)
  {
    var buffer := new AsyncIterableBuffer<int>();
    var _ := buffer.Push(x);
    var _ := buffer.Push(y);
    var _ := buffer.Push(z);
    var n := buffer.Length();
    assert n == 3;
    var r1 := buffer.Next();
    buffer.End();
    n := buffer.Length();
    assert n == 2;
    var r2 := buffer.Next();
    var r3 := buffer.Next();
    var r4 := buffer.Next();
    assert r1 == Ready(Yielded(x)) && r2 == Ready(Yielded(y)) && r3 == Ready(Yielded(z));
    assert r4 == Ready(Done);
  }

  /** return settles a pending next with Done, answers Done itself, and closes. */
  method ReturnFlushesPending(x: int)
  {
    var buffer := new AsyncIterableBuffer<int>();
    var pending := buffer.Next();
    var ret := buffer.Return();
    assert ret == Done;
    assert Flushed<int>([0]) == [Settlement(0, Done)];
    assert buffer.settled == [Settlement(0, Done)];
    var late := buffer.Push(x);
    assert late == AlreadyClosed;
    var after := buffer.Next();
    assert after == Ready(Done);
  }
}
