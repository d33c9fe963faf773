/** Consecutive selections on one balancer: the order in which servers are
    handed out. */
module Rotation {
  import opened Servers
  import opened Balancer
  import ModArith

  /** The choices made by `m` consecutive selections, each starting from the
      state the previous one left. */
  function Rotate(lb: LoadBalancer, m: nat): (picks: seq<Choice>)
    requires Dispatchable(lb.servers)
    ensures |picks| == m
    ensures forall i :: 0 <= i < m ==> picks[i].server.IsAlive()
    ensures forall i :: 0 <= i < m ==> picks[i].index < |lb.servers| && picks[i].server == lb.servers[picks[i].index]
    ensures forall i :: 0 <= i < m ==> picks[i].next.servers == lb.servers
    decreases m
  {
    if m == 0 then [] else
      var ch := Select(lb);
      [ch] + Rotate(ch.next, m - 1)
  }

  /** The state after `m` consecutive selections. */
  function After(lb: LoadBalancer, m: nat): (out: LoadBalancer)
    requires Dispatchable(lb.servers)
    ensures out.servers == lb.servers && out.port == lb.port
    ensures lb.roundRobinCount + m <= out.roundRobinCount
    decreases m
  {
    if m == 0 then lb else After(Select(lb).next, m - 1)
  }

  /** The cursor value a selection stopped on, before its final increment. */
  function Stop(ch: Choice): int
  {
    ch.next.roundRobinCount - 1
  }

  /** A run of selections is the first selection followed by the run that
      starts from the state it leaves. */
  lemma RotateStep(lb: LoadBalancer, m: nat, i: nat)
    requires Dispatchable(lb.servers)
    requires i < m
    ensures Rotate(lb, m)[i] == if i == 0 then Select(lb) else Rotate(Select(lb).next, m - 1)[i - 1]
  {
  }

  /** Each selection of a run stops on a cursor value no smaller than the
      starting cursor, hands out the server under it, and reports its slot as
      the pool index. */
  lemma {:induction false} RotateStopsAt(lb: LoadBalancer, m: nat, i: nat)
    requires Dispatchable(lb.servers)
    requires i < m
    ensures Stop(Rotate(lb, m)[i]) >= lb.roundRobinCount
    ensures Rotate(lb, m)[i].index == Stop(Rotate(lb, m)[i]) % |lb.servers|
    ensures Rotate(lb, m)[i].server == At(lb.servers, Stop(Rotate(lb, m)[i]))
    decreases m
  {
    RotateStep(lb, m, i);
    if i > 0 {
      RotateStopsAt(Select(lb).next, m - 1, i - 1);
    }
  }

  /** A longer run of selections begins with the shorter one. */
  lemma {:induction false} RotatePrefix(lb: LoadBalancer, m: nat, m': nat, i: nat)
    requires Dispatchable(lb.servers)
    requires i < m <= m'
    ensures Rotate(lb, m)[i] == Rotate(lb, m')[i]
    decreases m
  {
    if i > 0 {
      RotatePrefix(Select(lb).next, m - 1, m' - 1, i - 1);
      RotateStep(lb, m, i);
      RotateStep(lb, m', i);
    }
  }

  /** The state after `m > 0` selections is the one the last of them
      leaves. */
  lemma {:induction false} AfterIsLastPick(lb: LoadBalancer, m: nat)
    requires Dispatchable(lb.servers) && m > 0
    ensures After(lb, m) == Rotate(lb, m)[m - 1].next
    decreases m
  {
    RotateStep(lb, m, m - 1);
    if m > 1 {
      AfterIsLastPick(Select(lb).next, m - 1);
    }
  }

  /** When every server is alive, a selection hands back the server under
      the cursor and advances the cursor by exactly one. */
  lemma SelectAllAlive(lb: LoadBalancer)
    requires |lb.servers| > 0 && AllAlive(lb.servers)
    ensures Dispatchable(lb.servers)
    ensures Select(lb).server == At(lb.servers, lb.roundRobinCount)
    ensures Select(lb).index == lb.roundRobinCount % |lb.servers|
    ensures Select(lb).next.roundRobinCount == lb.roundRobinCount + 1
  {
    assert lb.servers[0].IsAlive();
    FirstAliveOffsetUnique(lb.servers, lb.roundRobinCount, 0);
  }

  /** When every server is alive, `m` consecutive selections stop on `m`
      consecutive cursor values. */
  lemma {:induction false} RotateAllAlive(lb: LoadBalancer, m: nat)
    requires |lb.servers| > 0 && AllAlive(lb.servers)
    ensures Dispatchable(lb.servers)
    ensures forall i :: 0 <= i < m ==> Stop(Rotate(lb, m)[i]) == lb.roundRobinCount + i
    decreases m
  {
    assert lb.servers[0].IsAlive();
    if m > 0 {
      SelectAllAlive(lb);
      RotateAllAlive(Select(lb).next, m - 1);
      forall i | 0 <= i < m
        ensures Stop(Rotate(lb, m)[i]) == lb.roundRobinCount + i
      {
        RotateStep(lb, m, i);
      }
    }
  }

  /** When every server is alive, `m` consecutive selections advance the
      cursor by exactly `m`. */
  lemma {:induction false} AfterAllAlive(lb: LoadBalancer, m: nat)
    requires |lb.servers| > 0 && AllAlive(lb.servers)
    ensures Dispatchable(lb.servers)
    ensures After(lb, m).roundRobinCount == lb.roundRobinCount + m
    decreases m
  {
    assert lb.servers[0].IsAlive();
    if m > 0 {
      SelectAllAlive(lb);
      AfterAllAlive(Select(lb).next, m - 1);
    }
  }

  /** Cursor values below the pool size read the pool directly, and the
      cursor value equal to the pool size wraps around to the first server. */
  lemma AtFirstLap(pool: seq<Server>, i: nat)
    requires 0 < |pool| && i <= |pool|
    ensures At(pool, i) == if i < |pool| then pool[i] else pool[0]
  {
    if i < |pool| {
      ModArith.ModUnique(i, |pool|, 0, i);
    } else {
      ModArith.ModUnique(i, |pool|, 1, 0);
    }
  }

  /** Selection `i` (counting from 0) of a fresh balancer over an all-alive
      pool hands out the server under cursor value `i`. */
  lemma FreshPick(port: string, pool: seq<Server>, m: nat, i: nat)
    requires |pool| > 0 && AllAlive(pool)
    requires i < m
    ensures Dispatchable(pool)
    ensures Rotate(NewLoadBalancer(port, pool), m)[i].server == At(pool, i)
  {
    var lb := NewLoadBalancer(port, pool);
    RotateAllAlive(lb, m);
    RotateStopsAt(lb, m, i);
  }

  /** Round-robin fairness: from a fresh balancer over an all-alive pool of
      `n` servers, `n` selections hand out every server once, in pool order. */
  lemma FreshRoundRobin(port: string, pool: seq<Server>)
    requires |pool| > 0 && AllAlive(pool)
    ensures Dispatchable(pool)
    ensures forall i :: 0 <= i < |pool| ==> Rotate(NewLoadBalancer(port, pool), |pool|)[i].server == pool[i]
    ensures forall i :: 0 <= i < |pool| ==> Rotate(NewLoadBalancer(port, pool), |pool|)[i].index == i
  {
    assert pool[0].IsAlive();
    var lb := NewLoadBalancer(port, pool);
    RotateAllAlive(lb, |pool|);
    forall i | 0 <= i < |pool|
      ensures Rotate(lb, |pool|)[i].server == pool[i]
      ensures Rotate(lb, |pool|)[i].index == i
    {
      FreshPick(port, pool, |pool|, i);
      AtFirstLap(pool, i);
      RotateStopsAt(lb, |pool|, i);
      assert Stop(Rotate(lb, |pool|)[i]) == i;
      ModArith.ModUnique(i, |pool|, 0, i);
    }
  }

  /** Wraparound: selection `n + 1` from a fresh balancer over an all-alive
      pool of `n` servers hands out the first server again. */
  lemma FreshWraparound(port: string, pool: seq<Server>)
    requires |pool| > 0 && AllAlive(pool)
    ensures Dispatchable(pool)
    ensures Rotate(NewLoadBalancer(port, pool), |pool| + 1)[|pool|].server == pool[0]
  {
    FreshPick(port, pool, |pool| + 1, |pool|);
    AtFirstLap(pool, |pool|);
  }

  /** Consecutive selections never jump over a live server: every live
      cursor value at most `m - 1` steps ahead of the start is where one of
      the first `m` selections stops. */
  lemma {:induction false} NoLiveServerSkipped(lb: LoadBalancer, m: nat, j: nat)
    requires Dispatchable(lb.servers)
    requires lb.roundRobinCount <= j < lb.roundRobinCount + m
    requires At(lb.servers, j).IsAlive()
    ensures exists i :: 0 <= i < m && Stop(Rotate(lb, m)[i]) == j
    decreases m
  {
    var ch := Select(lb);
    RotateStep(lb, m, 0);
    if Stop(ch) != j {
      assert Stop(ch) < j;
      NoLiveServerSkipped(ch.next, m - 1, j);
      var i :| 0 <= i < m - 1 && Stop(Rotate(ch.next, m - 1)[i]) == j;
      RotateStep(lb, m, i + 1);
    }
  }

  /** Fairness with dead servers: any `n` consecutive selections on a pool
      of `n` hand out every live server at least once. */
  lemma EveryLiveServerWithinOneLap(lb: LoadBalancer, t: nat)
    requires Dispatchable(lb.servers)
    requires t < |lb.servers| && lb.servers[t].IsAlive()
    ensures exists i :: 0 <= i < |lb.servers| && Rotate(lb, |lb.servers|)[i].index == t
  {
    var n := |lb.servers|;
    var j := ModArith.CursorForSlot(lb.roundRobinCount, n, t);
    NoLiveServerSkipped(lb, n, j);
    var i :| 0 <= i < n && Stop(Rotate(lb, n)[i]) == j;
    RotateStopsAt(lb, n, i);
  }
}
