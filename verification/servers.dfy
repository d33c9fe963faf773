/** The upstream servers behind the load balancer. */
module Servers {

  /** One upstream origin: the address it was configured with and whether it
      currently reports itself usable. The `Server` interface of the Go
      program is reduced to the two accessors the dispatcher consults;
      forwarding a request is not modelled. */
  datatype Server = Server(addr: string, alive: bool) {

    /** The configured origin address. */
    function Address(): string
    {
      addr
    }

    /** Current liveness as the dispatcher observes it. */
    predicate IsAlive()
    {
      alive
    }
  }

  /** A `simpleServer`: it keeps the address it was built from and always
      reports itself alive. */
  function SimpleServer(addr: string): (s: Server)
    ensures s.Address() == addr
    ensures s.IsAlive()
  {
    Server(addr, true)
  }

  /** Every server of the pool reports itself alive, as a pool built only of
      `simpleServer`s does. */
  predicate AllAlive(pool: seq<Server>)
  {
    forall i :: 0 <= i < |pool| ==> pool[i].IsAlive()
  }

  /** A pool of `simpleServer`s, one per address, in the order given. */
  function SimplePool(addrs: seq<string>): (pool: seq<Server>)
    ensures |pool| == |addrs|
    ensures AllAlive(pool)
    ensures forall i :: 0 <= i < |addrs| ==> pool[i].Address() == addrs[i]
  {
    seq(|addrs|, i requires 0 <= i < |addrs| => SimpleServer(addrs[i]))
  }
}
