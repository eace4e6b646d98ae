# Connection pool and HTTP-to-WebSocket bridge

This project models the core of a small Go service (`main.go`). The service bridges HTTP requests
to a pool of WebSocket connections held open by worker processes. The model covers three parts.

- **The connection pool `ConnPool`**: an ordered list of connection handles with `Add` (append),
  `Remove` (delete the first equal entry, or nothing) and `Get` (nil on an empty pool, otherwise
  return the head and move it to the tail: round-robin). It is the class `Pool.ConnPool` over a
  `seq` field. Its methods are proved against the value-level functions of `PoolSpec`
  (`RemoveFirst`, `Front`, `Rotate`). The lemmas there cover first-occurrence deletion,
  conservation of handles, distinctness and round-robin cycling over any number of `Get` calls.
- **The `/send_application/` handler** (`Bridge`): it calls `Get`, reads the request body, builds
  the envelope (method, path, headers, body), serialises it, writes one frame to the connection
  and reads one reply frame. Each I/O call is an abstract outcome (`IoResults`). `Forward` states
  which outcome and which ordered trace of steps result, and `Render` maps the outcome to the
  HTTP status and body. `SendApplication` is the handler as a method over the pool.
- **The worker endpoint's pool effect** (`Worker`): `Add` on upgrade and a deferred `Remove` on
  exit. The lifecycle lemma lets other tasks add, remove and get connections in between.

Connection handles are a type parameter `H` with equality, because Go compares connection
pointers. Go's nil connection is `None`.

When a frame write or reply read fails, the handler answers 500 and does not remove the connection.
It stays in rotation until its own read loop in the worker endpoint ends and the deferred
`Remove` runs. `SendApplication` proves that the handler only rotates the pool, whatever the
outcome.

## Model

| member | source | states |
|---|---|---|
| Pool.ConnPool.constructor | main.go:58 | the zero-value pool holds no connections |
| Pool.ConnPool.Add | main.go:27-31 | the handle is appended: length grows by one, earlier entries unchanged, one more copy of the handle (no duplicate check) |
| Pool.ConnPool.Remove | main.go:34-43 | the search loop deletes exactly the first entry equal to the handle, keeping the others in order; an absent handle leaves the pool unchanged |
| Pool.ConnPool.Get | main.go:46-56 | empty pool: returns None and stays empty; otherwise returns the old head and the pool becomes tail + head, same multiset, the returned handle still in the pool |
| PoolSpec.FirstIndex | main.go:37-38 | the index the search loop stops at: it holds the handle and no earlier entry does |
| PoolSpec.RemoveFirstSplices | main.go:37-41 | splicing out the first matching index is the first-occurrence delete |
| PoolSpec.RemoveFirstAbsent | main.go:37-43 | removing a handle that is not present changes nothing |
| PoolSpec.RemoveFirstDeletesFirst | main.go:37-41 | when the handle is present, the result is the pool with its first occurrence cut out |
| PoolSpec.RemoveFirstMultiset | main.go:34-43 | Remove takes out one copy of the handle if present and nothing else; length drops by one exactly when the handle was present |
| PoolSpec.AddThenRemoveRestores | main.go:71-72 | Add of a fresh handle followed by its Remove restores the pool exactly |
| PoolSpec.AddFreshKeepsDistinct | main.go:27-31 | adding a handle that is not present keeps all handles distinct |
| PoolSpec.RemoveFirstKeepsDistinct | main.go:37-41 | Remove keeps all handles distinct |
| PoolSpec.RotateKeepsHandles | main.go:53-55 | Get preserves length and multiset, and the handle it returns stays in the pool |
| PoolSpec.RotateKeepsDistinct | main.go:53-54 | Get keeps all handles distinct |
| PoolSpec.ConsecutiveGetsDiffer | main.go:52-55 | with two or more distinct handles, two consecutive Gets return different handles |
| PoolSpec.RotateNSplit | main.go:53-54 | after k <= N Gets the pool is the old pool split at position k |
| PoolSpec.RotateNAdd | main.go:53-54 | a+b Gets rotate the pool as a Gets followed by b Gets |
| PoolSpec.RotateNPeriodic | main.go:52-55 | N Gets on N entries restore the pool; rotation has period N |
| PoolSpec.AcquireManyAt | main.go:46-56 | the j-th of n consecutive Gets returns the head of the pool after j rotations, and the pool ends rotated n times |
| PoolSpec.FullCycle | main.go:52-55 | N consecutive Gets on N entries return the entries in their original order and leave the pool exactly as it started |
| PoolSpec.FullCycleVisitsEachOnce | main.go:52-55 | on distinct handles a full cycle returns each handle exactly once |
| PoolSpec.RoundRobinRepeats | main.go:52-55 | the Get issued N calls after another returns the same handle |
| PoolSpec.AcquireManyEmpty | main.go:49-51 | any number of Gets on an empty pool return None and leave it empty |
| Bridge.Render | main.go:104-145 | status 200 exactly on success, with the reply bytes as application/json; 503 exactly when no worker was available; 500 with the step's message for every other failure |
| Bridge.RenderDistinguishes | main.go:105-141 | different outcomes give different responses |
| Bridge.Forward | main.go:102-146 | None gives NoWorkerAvailable and no I/O; success exactly when every step succeeds, returning the reply verbatim; each failure is named by the first failing step; every step reached is performed at its place in the order body read, marshal of an envelope carrying the request's method, path, headers and body, one write of the marshalled frame and one read, both on the acquired connection; no step occurs twice; body-read and marshal failures never touch the connection |
| Bridge.SendApplication | main.go:102-146 | the handler's response and step trace are those of Forward on the pool's head; the pool is only rotated, so the connection stays in the pool on every failure |
| Worker.ApplyCount | main.go:27-56 | the live count rises by one on Add, falls by one on a Remove of a present handle, and is unchanged by a Remove of an absent handle and by Get |
| Worker.ApplyKeepsExtra | main.go:27-56 | one pool operation that does not mention x keeps a pool holding one extra copy of x exactly one copy ahead |
| Worker.ReplayKeepsExtra | main.go:27-56 | any sequence of pool operations that leaves x alone preserves one extra copy of x |
| Worker.WorkerLifecycle | main.go:71-72 | a worker's Add and deferred Remove, with any other pool traffic in between, leave the same connections registered as if it had never connected |
| Worker.HandleWebSocket | main.go:60-72 | a failed upgrade leaves the pool untouched; an upgraded fresh connection is added and removed again, restoring the pool exactly |

## Left out

- The `sync.Mutex` (main.go:22, 28-29, 35-36, 47-48): each pool operation is atomic and single-threaded here. Two concurrent handler calls can receive the same connection, and this is not modelled. The worker lifecycle lemma covers other tasks' pool calls only as a sequence of whole operations.
- Go slice aliasing: `append` may reuse the backing array when it removes from or rotates `conns` (main.go:39, 54). The model reassigns a `seq`, so sharing of the backing array is not captured.
- WebSocket upgrade, `ReadMessage`, `WriteMessage` and `conn.Close` (main.go:14-18, 64, 69, 76, 84, 130, 138): foreign-library I/O. Their results are the `IoResults` fields and the `upgraded` parameter.
- The echo read loop of the worker endpoint (main.go:74-89): the model keeps only its pool effect, which is Add on entry and Remove on every exit.
- The race between the handler and that echo loop: both read from and write to the same connection (main.go:76, 84, 130, 138) with no coordination, so the loop can consume the worker's reply and echo it back, and two writes can interleave. `IoResults.reply` stands for whatever the handler's own read returns; which reader receives a frame, and interleaved writes, are not modelled.
- JSON encoding of the envelope (main.go:95-100, 123): `json.Marshal` is a library call, modelled as an abstract outcome (`IoResults.marshalled`). The envelope body is kept as bytes, which is what `string(bodyBytes)` preserves.
- Logging, gin routing and the listening port (main.go:66, 78, 81, 86, 93, 111, 125, 132, 140, 148-151): no pool or response effect.
- Plain-text content type: `c.String` responses are modelled as `Text(message)` without gin's content-type header.
- fastapi_client/main.py: an asyncio WebSocket client with a placeholder endpoint, network I/O only.
