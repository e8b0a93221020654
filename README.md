# Bounded idle-connection pool (radix `extra/pool`)

A Dafny model of the `pool` package of the radix redis client: a `Pool`
holds the network and address to dial and a channel of idle
`*redis.Client` values whose capacity is fixed when the pool is made.
`Get` takes an idle client or dials a new one, `Put` buffers a client or
closes it when the buffer is full, `CarefullyPut` puts a client back only
when the error it came with is absent or a command error, and `Empty`
drains and closes every idle client. `NewPool` fills the buffer eagerly
and fails on the first dial error; `NewOrEmptyPool` falls back to an
empty buffer of the same capacity.

The channel is read as a bounded FIFO buffer with a non-blocking send and
a non-blocking receive, used by one caller at a time.

- `redis.dfy` (module `Redis`): the collaborator's types. A client is an
  opaque id. `Error` is either `CmdError`, the `*redis.CmdError` type, or
  `ConnError`, any other error. `DialResult` is the outcome of one
  `redis.Dial`.
- `wrappers.dfy` (module `Wrappers`): `Option`, standing for Go's nil.
- `pool_spec.dfy` (module `PoolSpec`): the pool as a value (`PoolState`).
  There is one function per operation, from the state before a call to the
  state after it, and a function `Run` for a sequence of calls. The lemmas
  are about these functions: the capacity bound over any sequence of calls,
  the idempotence of `Empty`, what follows from `Get` re-offering a dialed
  client, and two concrete call sequences.
- `pool.dfy` (module `Pool`): class `Pool`. Its `idle` field is the
  channel's contents and is updated in place. A ghost `closed` set records
  every `Close()` the pool makes. `NewPool` and `NewOrEmptyPool` are written
  with the source's loops. Every method is proved to produce exactly the
  state that the matching `PoolSpec` function computes. The class invariant
  `Valid()` is `|idle| <= capacity`.

Dialing is not done by the model. Each call that may dial takes the dial's
outcome as an argument: `Get` takes one `DialResult`, and `NewPool` takes
`dial: nat -> DialResult`, the outcome of its i-th dial. Closing a client
means adding it to `closed`.

The model keeps one behaviour of the code exactly as written. When `Get`
finds the buffer empty, it passes the client it just dialed to
`CarefullyPut` with a nil error. With capacity above 0, that client is
handed to the caller **and** also left in the buffer. With capacity 0, it
is closed and then handed to the caller. `GetOnEmptySharesClient` proves
that two Gets in a row then return the same client.
`GetThenPutBuffersClosedClient` proves that on a pool of size 1, Get
followed by the caller's Put leaves a closed client in the buffer. The
comment on `Put` (extra/pool/pool.go:69-72) says a closed client should not
be put back in the pool.

Two further facts about the code are kept as written:
- `NewPool` returns on the first failed dial without closing the clients
  it dialed before it (extra/pool/pool.go:24-27). `PoolSpec.NewPool` returns
  them as `abandoned`.
- Every successful dial on an empty buffer with capacity above 0 is put back
  in the buffer (extra/pool/pool.go:63-65). No other caller needs to race
  with `Get` for this to happen.

## Model

| member | source | states |
|---|---|---|
| `PoolSpec.Put` | extra/pool/pool.go:73-79 | with room, `c` goes to the back of the buffer and nothing is closed; when full, the buffer is unchanged and only `c` is closed; `c` ends up buffered or closed; the bound and the ownership invariant are kept |
| `PoolSpec.CarefullyPut` | extra/pool/pool.go:105-114 | one ensures per case of the `*error` argument: a nil pointer, a nil error or a command error behave exactly as `Put`; any other error leaves the state unchanged, so `c` is neither buffered nor closed |
| `PoolSpec.DialErrorNotRepooled` | extra/pool/pool.go:106-111 | `CarefullyPut(conn, &err)` with the error of a failed dial, as `Get` makes it at line 64, changes nothing for any client value: nothing is buffered and nothing is closed |
| `PoolSpec.Get` | extra/pool/pool.go:58-67 | a non-empty buffer yields its front client with no error, loses exactly that element, and no dial happens; an empty buffer dials once; a failed dial returns its error with the state unchanged; a successful dial returns the client and puts it into the buffer (capacity > 0) or closes it (capacity 0); the bound is kept |
| `PoolSpec.Empty` | extra/pool/pool.go:119-129 | the buffer ends empty; the clients closed are exactly the old ones plus every client that was buffered at the call |
| `PoolSpec.EmptyIdempotent` | extra/pool/pool.go:116-129 | emptying twice gives the same state as emptying once |
| `PoolSpec.DialUpTo` | extra/pool/pool.go:22-28 | the first loop of NewPool keeps the dialed clients in dial order and stops at the first failed dial, reporting that dial's error |
| `PoolSpec.DialUpToStaysFailed` | extra/pool/pool.go:24-27 | after a failed dial, later slots add nothing: the loop has returned |
| `PoolSpec.NewPool` | extra/pool/pool.go:21-38 | construction succeeds if and only if all `size` dials succeed; it then yields capacity `size` and exactly the `size` dialed clients in dial order, with none closed; otherwise it returns the first failing dial's error and leaves the earlier clients unclosed |
| `PoolSpec.NewOrEmptyPool` | extra/pool/pool.go:44-54 | never fails: the pool NewPool built, or on dial failure an empty buffer with the same network, address and capacity `size` |
| `PoolSpec.Run` | extra/pool/pool.go:12-16 | no sequence of calls changes network, address or capacity, or reopens a closed client |
| `PoolSpec.RunBounded` | extra/pool/pool.go:58-129 | from a state within its bound, no sequence of Get, Put, CarefullyPut and Empty calls takes the buffer past its capacity |
| `PoolSpec.ConstructedPoolStaysBounded` | extra/pool/pool.go:44-54 | after construction and any sequence of calls, the buffer holds at most `size` clients |
| `PoolSpec.GetOnEmptySharesClient` | extra/pool/pool.go:62-65 | on an empty buffer with capacity > 0, a Get that dials `c` and the next Get both return `c` |
| `PoolSpec.GetThenPutBuffersClosedClient` | extra/pool/pool.go:62-79 | on an empty pool of size 1, Get then Put of the client it gave leaves that client both closed and buffered, breaking ownership, and the next Get returns it |
| `PoolSpec.SizeTwoScenario` | extra/pool/pool.go:56-79 | size 2: two Gets take both buffered clients without dialing, two Puts restore the buffer, and of three further Gets two are served from the buffer and the third dials |
| `PoolSpec.FullPoolClosesExtraClient` | extra/pool/pool.go:73-79 | size 1 and full: putting an unrelated client closes it and keeps the buffer as it was |
| `Pool.Pool.constructor` | extra/pool/pool.go:47-51 | a pool with the given network, address and capacity, an empty buffer and nothing closed |
| `Pool.Pool.TrySend` | extra/pool/pool.go:74-78 | sends if and only if the buffer has room, appending at the back |
| `Pool.Pool.TryReceive` | extra/pool/pool.go:59-62 | receives if and only if the buffer is non-empty, removing the front |
| `Pool.Pool.Put` | extra/pool/pool.go:73-79 | the new buffer and closed set are those of `PoolSpec.Put` |
| `Pool.Pool.CarefullyPut` | extra/pool/pool.go:105-114 | the new state is that of `PoolSpec.CarefullyPut` |
| `Pool.Pool.Get` | extra/pool/pool.go:58-67 | returns the front client when there is one, else dials; the returned values and the new state are those of `PoolSpec.Get` |
| `Pool.Pool.Empty` | extra/pool/pool.go:119-129 | the drain loop leaves the buffer empty and closes exactly the clients that were buffered: the state of `PoolSpec.Empty` |
| `Pool.NewPool` | extra/pool/pool.go:21-38 | both loops together give a fresh pool in the state `PoolSpec.NewPool` builds, or nil and its error |
| `Pool.NewOrEmptyPool` | extra/pool/pool.go:44-54 | always a fresh pool, in the state of `PoolSpec.NewOrEmptyPool` |

## Left out

- Concurrency: channel atomicity and goroutine safety are not modelled.
  One caller at a time is assumed, so a non-blocking send or receive
  cannot be interleaved with another call.
- `redis.Dial` is not part of this model. Its outcome is an argument. Its
  errors are taken to be connection-level, never a `*redis.CmdError`
  (`Redis.DialError`).
- `Pool.Pool.Get`: when the dial fails, the method does not call
  `CarefullyPut`. The source calls it with a nil client there
  (extra/pool/pool.go:64). Dafny's `Client` type has no nil value to pass.
  `PoolSpec.DialErrorNotRepooled` proves that this call changes nothing for
  any client value.
- `PoolSpec.Get`: skips the same call on a failed dial, for the same reason.
- The closed set records whether a client was closed, not how many times.
  After Get and then Put at capacity 2 or more, the buffer is `[c, c]`, and
  `Empty` calls `c.Close()` twice (extra/pool/pool.go:124). After
  `GetThenPutBuffersClosedClient`, `Empty` closes a client that is already
  closed. The model shows neither repeated close.
- `redis.Client.Close` is only recorded in the ghost `closed` set. Errors
  from closing are ignored, as in the source.
- The `*redis.CmdError` type assertion becomes the `CmdError` constructor
  of `Error`.
- Nil clients: callers putting a nil `*redis.Client` are not modelled.
- Negative sizes: `make` panics on them, so `size` is a `nat`.
- The command calls in the doc-comment example of `CarefullyPut` belong to
  the client protocol, not to the pool.
