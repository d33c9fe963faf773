/** How long the probing loop of the program runs. The loop has no exit
    other than finding a live server, so its runs are modelled with a fuel
    budget: `RunLoop` says where the loop stands after at most `fuel`
    increments of the cursor. */
module LoopRuns {
  import opened Servers
  import opened Balancer

  datatype Option<T> = None | Some(value: T)

  /** Runs the probing loop from cursor value `count` for at most `fuel`
      dead-server steps. `Some(e)` means the loop has exited with the cursor
      at `e` (before the final increment); `None` means it is still probing. */
  function RunLoop(pool: seq<Server>, count: nat, fuel: nat): (r: Option<nat>)
    requires |pool| > 0
    ensures r.Some? ==> count <= r.value <= count + fuel && At(pool, r.value).IsAlive()
    ensures r.Some? ==> forall j: nat :: count <= j < r.value ==> !At(pool, j).IsAlive()
    ensures r.None? ==> forall j: nat :: count <= j <= count + fuel ==> !At(pool, j).IsAlive()
    decreases fuel
  {
    if At(pool, count).IsAlive() then Some(count)
    else if fuel == 0 then None
    else RunLoop(pool, count + 1, fuel - 1)
  }

  /** With no live server in the pool, no budget is ever enough: the loop of
      the program does not terminate. */
  lemma AllDeadNeverExits(pool: seq<Server>, count: nat, fuel: nat)
    requires |pool| > 0 && !AnyAlive(pool)
    ensures RunLoop(pool, count, fuel) == None
  {
  }

  /** With some live server in the pool, the loop exits exactly when the
      budget covers the first-alive offset, and then at that offset; the
      offset is below the pool size, so the loop body runs at most `n - 1`
      times. */
  lemma ExitsAtFirstAlive(pool: seq<Server>, count: nat, fuel: nat)
    requires Dispatchable(pool)
    ensures var k := FirstAliveOffset(pool, count);
            RunLoop(pool, count, fuel) == if fuel >= k then Some(count + k) else None
  {
  }
}
