# Round-robin load balancer: Dafny model

This project models the dispatcher at the centre of a small Go reverse-proxy
load balancer (`main.go`). The balancer holds a fixed, ordered pool of
upstream servers and an integer cursor, `RoundRobinCount`. Each request goes
to the server that `getNextAvailableServer` picks. That function starts at
`RoundRobinCount % len(servers)` and moves forward one cursor value at a
time until it finds a server whose `IsAlive()` is true. Each dead server it
skips advances the cursor by one, and taking the chosen server advances it
once more.

The modules are:

- `Servers` (`servers.dfy`): a server is its address and a liveness flag. A
  `simpleServer` is the case where the flag is always true.
- `Balancer` (`balancer.dfy`): the balancer state, `NewLoadBalancer`, and the
  pure specification of one selection. `FirstAliveOffset` is the distance
  from the cursor to the first live server. `Select` is the whole choice and
  the state it leaves. `GetNextAvailableServer` is the probing loop,
  proved equal to `Select`.
- `LoopRuns` (`loopruns.dfy`): the probing loop run with a fuel budget. It
  shows that the loop exits exactly at the first-alive offset, and never
  exits when no server is alive.
- `BoundedSelect` (`bounded.dfy`): a redesign, not the program's behaviour.
  This selection reports `Unavailable` after probing each pool member once.
  It is proved to agree with `Select` whenever some server is alive.
- `Rotation` (`rotation.dfy`): consecutive selections. Over an all-alive
  pool, a fresh balancer hands out the servers in pool order and then wraps
  around. Over any pool, every live server is handed out within `n`
  consecutive selections.
- `Scenarios` (`scenarios.dfy`): two concrete pools. One shows a dead first
  server being skipped. The other shows attribution by address
  (a, b, c, then a again).
- `ModArith` (`arith.dfy`): facts about Euclidean `%` used for the cursor
  arithmetic.

The state is an immutable datatype. Selection returns the successor state
instead of mutating the balancer. The selection method also returns the pool
index it read, so that "every index read lies in `[0, n)`" is part of its
contract.

Two requirements follow the code:

- An empty pool is not rejected at construction, because `NewLoadBalancer`
  has no guard. Selection instead requires a non-empty pool.
- Selection on a pool with no live server does not fail, because the
  program's loop never ends there. Selection requires a live server, and
  the non-termination is stated as a lemma. The bounded "unavailable"
  behaviour exists only in `BoundedSelect`, and only as a redesign.

## Model

| member | source | states |
|---|---|---|
| Servers.SimpleServer | main.go:21-27 | a simple server's `Address()` is exactly the address it was built with, and its `IsAlive()` is true |
| Servers.SimplePool | main.go:33-41 | servers built from a list of addresses keep those addresses in list order and are all alive |
| Balancer.NewLoadBalancer | main.go:55-61 | a fresh balancer holds the given pool unchanged, the given port, and a cursor of 0 |
| Balancer.AliveWithinOneLap | main.go:64-68 | if some server is alive, a live server lies within one lap of cursor values from any starting cursor |
| Balancer.ScanFrom | main.go:65-68 | stepping the cursor one value at a time from `c` reaches a live server within the given bound, and every value passed on the way designates a dead server |
| Balancer.FirstAliveOffset | main.go:64-68 | the offset `k` from the cursor at which the scan stops is below the pool size, designates a live server, and every smaller offset designates a dead one |
| Balancer.FirstAliveOffsetUnique | main.go:64-68 | the first-alive offset is the only offset with a live server at it and only dead servers before it |
| Balancer.Select | main.go:63-71 | the chosen server is alive and is `servers[index]` with `index < n`; the cursor becomes `c + k + 1`, is at most `n` ahead, and stopped on a value whose slot is the chosen index; every skipped cursor value designates a dead server; pool and port are unchanged |
| Balancer.SelectLandsOnSuccessor | main.go:64-69 | after a selection the cursor designates the slot after the one just returned, wrapping from the last slot to the first |
| Balancer.GetNextAvailableServer | main.go:63-71 | the probing loop terminates on any pool with a live server; it returns a live server read at an index in `[0, n)`, leaves the pool and port untouched, and agrees exactly with `Select` |
| LoopRuns.RunLoop | main.go:64-68 | a run of the probing loop within a budget either exits on a live server with only dead servers before it, or is still probing and has seen only dead servers |
| LoopRuns.AllDeadNeverExits | main.go:65-68 | with no live server in the pool, no budget of loop iterations makes the loop exit |
| LoopRuns.ExitsAtFirstAlive | main.go:64-68 | with a live server in the pool, the loop exits exactly when the budget reaches the first-alive offset, and then at that offset; since that offset is below `n`, the body runs at most `n - 1` times |
| BoundedSelect.SelectBounded | main.go:63-71 | redesign: a successful bounded selection hands out a live server and keeps the pool |
| BoundedSelect.BoundedAgreesWithSelect | main.go:63-71 | redesign: the bounded selection is unavailable exactly when no server is alive, and otherwise equals the program's selection |
| BoundedSelect.SingleServer | main.go:63-71 | redesign: a one-server pool yields that server while it is alive and is unavailable while it is dead |
| Rotation.Rotate | main.go:63-71 | every server handed out by consecutive selections is alive, is read from the pool at an index below its size, and the pool is never changed |
| Rotation.After | main.go:66-69 | after `m` selections the pool and port are the same and the cursor has advanced by at least `m` |
| Rotation.AfterIsLastPick | main.go:66-69 | the state after `m > 0` selections is the state the last of the `m` selections leaves |
| Rotation.AtFirstLap | main.go:64 | cursor values below the pool size read the pool directly, and the cursor value `n` reads the first server |
| Rotation.SelectAllAlive | main.go:63-71 | when every server is alive, a selection returns the server under the cursor and adds exactly 1 to the cursor |
| Rotation.RotateAllAlive | main.go:63-71 | when every server is alive, `m` consecutive selections stop on `m` consecutive cursor values, starting at the cursor |
| Rotation.AfterAllAlive | main.go:63-71 | when every server is alive, `m` consecutive selections advance the cursor by exactly `m` |
| Rotation.FreshPick | main.go:55-71 | selection `i` of a fresh balancer over an all-alive pool returns the server under cursor value `i` |
| Rotation.FreshRoundRobin | main.go:55-71 | from a fresh balancer over an all-alive pool, selection `i` of `n` returns `pool[i]` read from index `i`, so each pool slot is used once, in pool order |
| Rotation.FreshWraparound | main.go:55-71 | from a fresh balancer over an all-alive pool, selection `n + 1` returns the first server again |
| Rotation.NoLiveServerSkipped | main.go:64-69 | consecutive selections never jump over a live server: every live cursor value within the first `m` steps is where one of `m` selections stops |
| Rotation.RotateStopsAt | main.go:64-69 | each selection of a run stops on a cursor value at or after the starting cursor, returns the server under that value, and reports its slot as the pool index |
| Rotation.RotateStep | main.go:63-71 | a run of selections is the first selection followed by the run that starts from the state it leaves |
| Rotation.EveryLiveServerWithinOneLap | main.go:64-69 | any `n` consecutive selections on a pool of `n` hand out every live server at least once |
| Rotation.RotatePrefix | main.go:63-71 | a longer run of consecutive selections begins with the shorter run |
| Scenarios.SkipsDeadServer | main.go:63-71 | over `[A dead, B alive, C alive]`, a fresh balancer's first selection returns B and moves the cursor to 2 |
| Scenarios.AttributesInPoolOrder | main.go:74-75 | over simple servers `http://a`, `http://b` and `http://c`, four selections from a fresh balancer report the addresses a, b, c, a |

## Left out

- Forwarding (`Serve`, `serveProxy`, the reverse proxy, `http.HandleFunc`,
  `ListenAndServe`) is left out. It is network I/O through library code that
  is not part of this model. The discarded second `Address()` call after
  forwarding has no effect.
- URL parsing and the panic in `newSimpleServer`/`panicIfError` are left
  out. `SimpleServer` treats its address as already valid.
- Concurrency is left out. The program mutates `RoundRobinCount` from
  concurrent request handlers without a lock. The model has one sequential
  caller.
- Balancer.GetNextAvailableServer: the cursor is an unbounded `nat`. The
  overflow of Go's `int` is not modelled. After overflow, the program's `%`
  could yield a negative index and panic.
- Balancer.GetNextAvailableServer: requires a non-empty pool with a live
  server. With an empty pool the program panics on `%`. With no live server
  it loops forever. Non-termination is stated separately, in
  `LoopRuns.AllDeadNeverExits`.
- The balancer is a value, not a mutable object. Selection returns the new
  state and the pool index, not just the server.
- `main` is left out: its hard-coded server list, its port, and its status
  printing.
