/** Concrete pools that exercise the selection rule. */
module Scenarios {
  import opened Servers
  import opened Balancer
  import opened Rotation

  /** Skipping dead servers: from a fresh balancer over `[A dead, B alive,
      C alive]`, the first selection hands out B and moves the cursor past
      both A and B. */
  lemma SkipsDeadServer()
    ensures var pool := [Server("A", false), Server("B", true), Server("C", true)];
            Dispatchable(pool) &&
            Select(NewLoadBalancer("8080", pool)).server == pool[1] &&
            Select(NewLoadBalancer("8080", pool)).next.roundRobinCount == 2
  {
    var pool := [Server("A", false), Server("B", true), Server("C", true)];
    assert pool[1].IsAlive();
    assert At(pool, 0) == pool[0];
    assert At(pool, 1) == pool[1];
    FirstAliveOffsetUnique(pool, 0, 1);
  }

  /** Three `simpleServer`s, as a configuration list would give them. */
  const Abc: seq<Server> := SimplePool(["http://a", "http://b", "http://c"])

  /** Attribution by address: over `simpleServer`s for `http://a`,
      `http://b` and `http://c`, four selections from a fresh balancer go to
      a, b, c and then a again. */
  lemma AttributesInPoolOrder()
    ensures Dispatchable(Abc)
    ensures var picks := Rotate(NewLoadBalancer("8080", Abc), 4);
            picks[0].server.Address() == "http://a" &&
            picks[1].server.Address() == "http://b" &&
            picks[2].server.Address() == "http://c" &&
            picks[3].server.Address() == "http://a"
  {
    var lb := NewLoadBalancer("8080", Abc);
    assert |Abc| == 3 && Abc[0].IsAlive();
    FreshRoundRobin("8080", Abc);
    FreshWraparound("8080", Abc);
    var three, four := Rotate(lb, 3), Rotate(lb, 4);
    assert four[3].server == Abc[0];
    RotatePrefix(lb, 3, 4, 0);
    RotatePrefix(lb, 3, 4, 1);
    RotatePrefix(lb, 3, 4, 2);
    assert four[0].server == Abc[0] && four[1].server == Abc[1] && four[2].server == Abc[2];
  }
}
