/** The round-robin dispatcher: its state, its construction, the pure
    specification of which server it picks, and the probing loop that
    implements the pick. */
module Balancer {
  import opened Servers
  import ModArith

  /** Dispatcher state: the listening port, the fixed ordered pool and the
      round-robin cursor. The cursor is unbounded here; the Go `int` that
      holds it in the program can overflow, which is not modelled. */
  datatype LoadBalancer = LoadBalancer(port: string, servers: seq<Server>, roundRobinCount: nat)

  /** A fresh balancer keeps the pool exactly as given and starts its cursor
      at zero. Nothing rejects an empty pool here; selection requires one. */
  function NewLoadBalancer(port: string, servers: seq<Server>): (lb: LoadBalancer)
    ensures lb.servers == servers
    ensures lb.roundRobinCount == 0
    ensures lb.port == port
  {
    LoadBalancer(port, servers, 0)
  }

  /** The server a cursor value designates: the pool is read at the cursor
      modulo the pool size. */
  function At(pool: seq<Server>, cursor: nat): Server
    requires |pool| > 0
  {
    pool[cursor % |pool|]
  }

  predicate AnyAlive(pool: seq<Server>)
  {
    exists i :: 0 <= i < |pool| && pool[i].IsAlive()
  }

  /** What selection needs of a pool: it is non-empty (otherwise the modulo
      divides by zero) and some member is alive (otherwise the probing loop
      never exits). */
  predicate Dispatchable(pool: seq<Server>)
  {
    |pool| > 0 && AnyAlive(pool)
  }

  /** If some member is alive, then one full lap of cursor values from any
      starting point reaches it. */
  lemma AliveWithinOneLap(pool: seq<Server>, c: nat)
    requires Dispatchable(pool)
    ensures exists j: nat :: c <= j < c + |pool| && At(pool, j).IsAlive()
  {
    var t :| 0 <= t < |pool| && pool[t].IsAlive();
    var j := ModArith.CursorForSlot(c, |pool|, t);
    assert At(pool, j).IsAlive();
  }

  /** The distance from cursor value `c` to the first cursor value whose
      server is alive, given that one lies fewer than `bound` steps ahead. */
  function ScanFrom(pool: seq<Server>, c: nat, bound: nat): (k: nat)
    requires |pool| > 0
    requires exists j: nat :: c <= j < c + bound && At(pool, j).IsAlive()
    ensures k < bound
    ensures At(pool, c + k).IsAlive()
    ensures forall j: nat :: c <= j < c + k ==> !At(pool, j).IsAlive()
    decreases bound
  {
    if At(pool, c).IsAlive() then 0 else 1 + ScanFrom(pool, c + 1, bound - 1)
  }

  /** The smallest offset `k >= 0` such that the server at cursor `c + k` is
      alive; it is below the pool size, and every cursor value skipped on the
      way designates a dead server. */
  function FirstAliveOffset(pool: seq<Server>, c: nat): (k: nat)
    requires Dispatchable(pool)
    ensures k < |pool|
    ensures At(pool, c + k).IsAlive()
    ensures forall j: nat :: c <= j < c + k ==> !At(pool, j).IsAlive()
  {
    AliveWithinOneLap(pool, c);
    ScanFrom(pool, c, |pool|)
  }

  /** The offset is pinned down by its two defining properties: any `k'` with
      an alive server at `c + k'` and only dead servers before it is it. */
  lemma FirstAliveOffsetUnique(pool: seq<Server>, c: nat, k': nat)
    requires Dispatchable(pool)
    requires At(pool, c + k').IsAlive()
    requires forall j: nat :: c <= j < c + k' ==> !At(pool, j).IsAlive()
    ensures k' == FirstAliveOffset(pool, c)
  {
  }

  /** The outcome of one selection: the server handed back, the pool index
      it was read from, and the balancer state afterwards. */
  datatype Choice = Choice(server: Server, index: nat, next: LoadBalancer)

  /** Pure specification of one selection. The cursor moves past every dead
      server it meets and then past the server it hands back. */
  function Select(lb: LoadBalancer): (ch: Choice)
    requires Dispatchable(lb.servers)
    ensures ch.index < |lb.servers| && ch.server == lb.servers[ch.index]
    ensures ch.server.IsAlive()
    ensures ch.next.servers == lb.servers && ch.next.port == lb.port
    ensures ch.next.roundRobinCount == lb.roundRobinCount + FirstAliveOffset(lb.servers, lb.roundRobinCount) + 1
    ensures lb.roundRobinCount < ch.next.roundRobinCount <= lb.roundRobinCount + |lb.servers|
    ensures forall j: nat :: lb.roundRobinCount <= j < ch.next.roundRobinCount - 1 ==> !At(lb.servers, j).IsAlive()
    ensures ch.index == (ch.next.roundRobinCount - 1) % |lb.servers|
  {
    var e := lb.roundRobinCount + FirstAliveOffset(lb.servers, lb.roundRobinCount);
    Choice(At(lb.servers, e), e % |lb.servers|, lb.(roundRobinCount := e + 1))
  }

  /** After a selection the cursor designates the slot after the one just
      handed out, wrapping from the last slot to the first. */
  lemma SelectLandsOnSuccessor(lb: LoadBalancer)
    requires Dispatchable(lb.servers)
    ensures Select(lb).next.roundRobinCount % |lb.servers| == (Select(lb).index + 1) % |lb.servers|
  {
    var ch := Select(lb);
    ModArith.ModSuccessor(ch.next.roundRobinCount - 1, |lb.servers|);
  }

  /** The probing loop of the program: read the server under the cursor,
      step over dead servers one cursor value at a time, then step once more
      past the server handed back. It agrees with `Select`. */
  method GetNextAvailableServer(lb: LoadBalancer) returns (server: Server, index: nat, next: LoadBalancer)
    requires Dispatchable(lb.servers)
    ensures Choice(server, index, next) == Select(lb)
    ensures server.IsAlive() && index < |lb.servers| && server == lb.servers[index]
    ensures next.servers == lb.servers && next.port == lb.port
  {
    var n := |lb.servers|;
    var count := lb.roundRobinCount;
    index := count % n;
    server := lb.servers[index];
    ghost var k := FirstAliveOffset(lb.servers, lb.roundRobinCount);
    while !server.IsAlive()
      invariant lb.roundRobinCount <= count <= lb.roundRobinCount + k
      invariant index == count % n && server == lb.servers[index]
      invariant forall j: nat :: lb.roundRobinCount <= j < count ==> !At(lb.servers, j).IsAlive()
      decreases lb.roundRobinCount + k - count
    {
      assert At(lb.servers, count) == server;
      count := count + 1;
      index := count % n;
      server := lb.servers[index];
    }
    FirstAliveOffsetUnique(lb.servers, lb.roundRobinCount, count - lb.roundRobinCount);
    count := count + 1;
    next := lb.(roundRobinCount := count);
  }
}
