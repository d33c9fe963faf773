/** A bounded selection that gives up after probing every pool member once.
    This is a redesign, not what the program does: the program's loop spins
    forever on a pool with no live server. */
module BoundedSelect {
  import opened Servers
  import opened Balancer
  import opened LoopRuns

  datatype Outcome = Selected(choice: Choice) | Unavailable

  /** Probes at most `n` cursor values. On failure the balancer is left as
      it was. Unlike `Select`, this accepts every non-empty pool. */
  function SelectBounded(lb: LoadBalancer): (o: Outcome)
    requires |lb.servers| > 0
    ensures o.Selected? ==> o.choice.server.IsAlive() && o.choice.next.servers == lb.servers
  {
    var n := |lb.servers|;
    match RunLoop(lb.servers, lb.roundRobinCount, n - 1)
    case Some(e) => Selected(Choice(At(lb.servers, e), e % n, lb.(roundRobinCount := e + 1)))
    case None => Unavailable
  }

  /** The bounded selection fails exactly on pools with no live server, and
      otherwise picks what the program's selection picks. */
  lemma BoundedAgreesWithSelect(lb: LoadBalancer)
    requires |lb.servers| > 0
    ensures SelectBounded(lb).Unavailable? <==> !AnyAlive(lb.servers)
    ensures AnyAlive(lb.servers) ==> SelectBounded(lb) == Selected(Select(lb))
  {
    if AnyAlive(lb.servers) {
      ExitsAtFirstAlive(lb.servers, lb.roundRobinCount, |lb.servers| - 1);
    } else {
      AllDeadNeverExits(lb.servers, lb.roundRobinCount, |lb.servers| - 1);
    }
  }

  /** A one-server pool always yields that server while it is alive and is
      always unavailable while it is dead. */
  lemma SingleServer(lb: LoadBalancer)
    requires |lb.servers| == 1
    ensures lb.servers[0].IsAlive() ==> SelectBounded(lb).Selected? && SelectBounded(lb).choice.server == lb.servers[0]
    ensures !lb.servers[0].IsAlive() ==> SelectBounded(lb) == Unavailable
  {
    BoundedAgreesWithSelect(lb);
  }
}
