# AsyncIterableBuffer in Dafny

This project models `AsyncIterableBuffer<T>`, a hand-off queue. A synchronous
producer pushes values into it, and consumers pull values with `next()`. The
buffer holds two FIFO queues: the values pushed but not yet taken (`#dataBuffer`),
and the resolvers of `next()` calls that found no value and are still waiting
(`#pendingRequestResolverQueue`). It also holds a `#closed` flag that `end()` and
`return()` set. A `push` goes straight to the oldest waiting request if there is
one, and is buffered otherwise. `end()` resolves every waiting request with
`{ done: true }`. Values already buffered stay available after closing. A `push`
after closing throws.

Each stored resolver is modelled as a ticket number. Calling a resolver appends a
`Settlement(ticket, result)` to an ordered log, `settled`. The log therefore records
which request was resolved, with what, and in which order.

- `buffer_model.dfy` (module `BufferModel`) holds the state as a value (`Buffer`),
  the class invariant `Valid`, and `push`, `next`, `end` and `return` as functions
  from the old state to the new one.
- `iterable_buffer.dfy` (module `IterableBuffer`) holds the class
  `AsyncIterableBuffer`. Its fields are updated in place, and `End` drains the
  waiting requests with a `while` loop. Each method is proved to produce the new
  state that the matching `BufferModel` function gives, and to keep `Valid`.
- `buffer_theorems.dfy` (module `BufferTheorems`) covers whole runs of calls. It
  shows that values reach consumers in push order, that requests are settled once
  each and in the order they were made, and that a filled, ended buffer drains to
  its values followed by Done.
- `scenarios.dfy` (module `BufferScenarios`) holds client methods that replay the
  unit tests' situations against the class contracts.

The invariant `Valid` states three things:
- at most one of the two queues is non-empty;
- a closed buffer has no waiting request;
- the settled tickets followed by the waiting tickets are exactly `0, 1, …, nextTicket - 1`.

## Model

| member | source | states |
|---|---|---|
| `BufferModel.Empty` | src/AsyncIterableBuffer.ts:3-5 | a new buffer is open, has no buffered value, no waiting request and no settlement, and satisfies the invariant |
| `BufferModel.Push` | src/AsyncIterableBuffer.ts:18-29 | rejected exactly when the buffer is closed, and then the state is unchanged; with requests waiting, the oldest one is removed and settled with `Yielded(v)` and the data queue is untouched; with none waiting, `v` is appended to the data queue and its length grows by one; `closed` is unchanged; the invariant is kept |
| `BufferModel.Next` | src/AsyncIterableBuffer.ts:46-58 | a non-empty buffer answers its head as `Yielded` and the length drops by one; an empty closed buffer answers `Done` and changes nothing; an empty open buffer queues a new request last, with a ticket that no settled or waiting request has; `closed` and the settlement log are unchanged; the invariant is kept |
| `BufferModel.End` | src/AsyncIterableBuffer.ts:34-40 | the result is closed with no waiting request; every request that was waiting is settled with `Done`, oldest first; the data queue is unchanged; on a buffer already closed nothing changes (idempotent); the invariant is kept |
| `BufferModel.Return` | src/AsyncIterableBuffer.ts:64-67 | answers `Done`; the buffer is closed, every waiting request is settled with `Done`, and buffered values remain; the invariant is kept |
| `IterableBuffer.AsyncIterableBuffer.constructor` | src/AsyncIterableBuffer.ts:3-5 | the new object's state is the empty, open buffer |
| `IterableBuffer.AsyncIterableBuffer.Closed` | src/AsyncIterableBuffer.ts:7-9 | returns the `closed` flag; when it is true no request is waiting |
| `IterableBuffer.AsyncIterableBuffer.Length` | src/AsyncIterableBuffer.ts:11-13 | returns the number of buffered values; when it is positive no request is waiting |
| `IterableBuffer.AsyncIterableBuffer.Push` | src/AsyncIterableBuffer.ts:18-29 | the new state and outcome are those of `BufferModel.Push`; a rejected push leaves every field unchanged; the invariant is kept |
| `IterableBuffer.AsyncIterableBuffer.End` | src/AsyncIterableBuffer.ts:34-40 | the loop that settles the waiting requests one by one ends in the state `BufferModel.End` gives; the buffer is closed, its data is unchanged, and the invariant is kept |
| `IterableBuffer.AsyncIterableBuffer.Next` | src/AsyncIterableBuffer.ts:46-58 | the new state and answer are those of `BufferModel.Next`; `closed` is unchanged; the invariant is kept |
| `IterableBuffer.AsyncIterableBuffer.Return` | src/AsyncIterableBuffer.ts:64-67 | the new state and answer are those of `BufferModel.Return`: closed, waiting requests settled with `Done`, answer `Done` |
| `BufferTheorems.Apply` | src/AsyncIterableBuffer.ts:18-67 | one call of any operation loses and duplicates no value: buffered values before, followed by the value it accepted, equal the values it handed out, followed by buffered values after; closing is never undone; no settlement is taken back; the invariant is kept |
| `BufferTheorems.Run` | src/AsyncIterableBuffer.ts:18-67 | over any sequence of calls the invariant holds throughout and `closed` stays set once set; the values handed to consumers, by hand-off or by `next`, followed by those still buffered, are the buffered values at the start followed by every accepted value, in push order |
| `BufferTheorems.DeliveredInPushOrder` | src/AsyncIterableBuffer.ts:22-28 | from a new buffer, consumers receive the accepted values in exactly the order they were pushed, and the rest are still buffered |
| `BufferTheorems.SettledOnceInOrder` | src/AsyncIterableBuffer.ts:22-57 | in every state that satisfies the invariant, settled tickets are strictly increasing, so no request is settled twice; every settled ticket comes before every waiting one; waiting tickets are in request order; on a closed buffer every request ever made has been settled |
| `BufferTheorems.PushAll` | src/AsyncIterableBuffer.ts:18-29 | pushing a sequence of values pairs the first ones with the waiting requests, oldest request with first value, and buffers the rest in order; on a closed buffer every push is rejected and nothing changes; the invariant is kept |
| `BufferTheorems.Drain` | src/AsyncIterableBuffer.ts:46-53 | on a closed buffer, `n` calls of `next` answer the buffered values in order and then `Done` every time; they leave the buffer closed, settle nothing, and leave the values not yet taken |
| `BufferTheorems.DrainClosed` | src/AsyncIterableBuffer.ts:46-53 | on a closed buffer holding `vs`, calling `next()` (length of `vs`) + `k` times answers `Yielded` for each value of `vs` in order, then `Done` `k` times |
| `BufferTheorems.PushEndDrain` | src/AsyncIterableBuffer.ts:46-67 | pushing `vs` into a new buffer, then `end()` or `return()`, then `next()` called (length of `vs`) + `k` times answers `Yielded` for each value of `vs` in order, then `Done` `k` times; `return()` itself answers `Done` |

## Left out

- Promises, `async` functions and microtask scheduling are not modelled. A stored resolver is a ticket number, and calling it is an entry in the `settled` log. When the awaiting code actually resumes is up to the scheduler, not the buffer.
- `[Symbol.asyncIterator]()` (src/AsyncIterableBuffer.ts:69-71) is not modelled. It returns the object itself and holds no logic. `for await` iteration over the buffer is not modelled either. `BufferTheorems.Drain` stands for repeated `next()` calls.
- The thrown `Error` is modelled as the outcome `AlreadyClosed` of `Push`. The message text is not modelled.
- The `value: undefined` field of a done result is not modelled. `Done` carries no value.
- The class methods require `Valid()`. The TypeScript fields are private, and every instance starts from the constructor, so every reachable state satisfies it.
- The test file's timer-based test (tests/unit/AsyncIterableBuffer.test.ts:136-157) is not modelled, because it depends on `setTimeout` and the event loop.
- A buffer closed with `return()` keeps its buffered values, and later `next()` calls still deliver them. This is the source's behaviour, and the model keeps it. Values are lost only if the caller stops calling `next()`.
