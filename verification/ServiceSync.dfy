// One sync of a service from end to end: look up addresses, reconcile, and
// either publish them or give them back
// (pkg/agent/manager/loadbalancer/loadbalancer.go:721-1117).

module ServiceSync {
  import opened Rules
  import opened ServiceAddresses
  import opened PublishedStatus
  import opened IPText
  import opened IPPools
  import RuleManager
  import ServiceStatus

  // The sync gets as far as looking for addresses.
  predicate LooksUp(w: World, name: string, input: Inputs)
  {
    w.tables != [] && input.endpoints != []
  }

  // The allocator's picks are addresses the pool recognises and does not hold.
  ghost predicate Recognised(give: Ident -> string, contains: string -> bool, held: set<Held>)
  {
    forall id :: give(id) != "" ==> IsLiteral(give(id)) && contains(give(id)) && Held(give(id), id) !in held
  }

  // pairs and taken are what the lookup found and took; exhausted stands for
  // the exit of the process when the pool has no address left.
  method SyncService(m: RuleManager.Manager, name: string, svc: Service, naming: Naming, input: Inputs, pool: IPPool,
                     free: (string, Ident) -> bool, give: Ident -> string, okDel: Oracle, okAdd: Oracle)
    returns (outcome: Outcome, status: seq<Ingress>, exhausted: bool, ghost pairs: seq<SvcPair>, ghost taken: set<Held>)
    modifies m, pool
    ensures !LooksUp(old(m.View()), name, input) ==> !exhausted && pairs == [] && taken == {}
    ensures LooksUp(old(m.View()), name, input) && !exhausted ==>
      && pool.asked >= old(pool.asked)
      && Finds(svc, Current(old(m.View()), name, input).pairs, Pool(pool.shared, pool.contains, free), naming, pairs, pool.asked - old(pool.asked))
      && Took(svc, Current(old(m.View()), name, input).pairs, Pool(pool.shared, pool.contains, free), naming, pairs, taken)
    ensures !exhausted ==>
      var r := Reconcile(old(m.View()), name, input, pairs, Stale(svc.status, pairs, naming), okDel, okAdd);
      && m.View() == r.world && outcome == r.outcome
      && status == (if outcome.Updated? then Publish(svc.status, pairs, naming) else svc.status)
      && pool.held == (if outcome.InstallFailed? then (old(pool.held) + taken) - Returned(pairs, pool.contains) else old(pool.held) + taken)
    ensures !exhausted && outcome.InstallFailed? && Wants(ServiceIPs(svc, naming), svc.ports) == [] ==>
      Recognised(give, pool.contains, old(pool.held)) ==> pool.held == old(pool.held)
    ensures old(m.tables) == [] || input.endpoints == [] ==> pool.held == old(pool.held) && pool.asked == old(pool.asked) && status == svc.status
    ensures exhausted ==> pool.held == old(pool.held) && m.View() == old(m.View())
  {
    hide Reconcile, Finds, Took, Stale, Publish, Returned, ServiceIPs, Wants, IsLiteral;
    pairs, taken, exhausted, status := [], {}, false, svc.status;
    ghost var w, held := m.View(), pool.held;
    if m.tables == [] || input.endpoints == [] {
      RejectsOrWithdraws(w, name, input, Stale(svc.status, [], naming), okDel, okAdd);
      outcome := m.AddLoadBalancer(name, input, [], false, pool, okDel, okAdd);
      return;
    }
    var cached := if name in m.cache then m.cache[name].pairs else map[];
    assert cached == Current(w, name, input).pairs;
    var found, existing, ok, t := GetIngressSvcPairs(svc, cached, pool, naming, free, give);
    if !ok { return Rejected, status, true, [], {}; }
    pairs, taken := found, t;
    var stale := ServiceStatus.CheckUpdateExternalIP(svc.status, found, naming);
    outcome := m.AddLoadBalancer(name, input, found, stale, pool, okDel, okAdd);
    if outcome.InstallFailed? {
      RollBack(found, pool);
      if !existing && Recognised(give, pool.contains, held) {
        FreshRestores(svc, cached, Pool(pool.shared, pool.contains, free), naming, found, taken, give, held);
      }
    } else if outcome.Updated? {
      status := ServiceStatus.UpdateService(svc.status, found, naming);
    }
  }

  lemma RejectsOrWithdraws(w: World, name: string, input: Inputs, stale: bool, okDel: Oracle, okAdd: Oracle)
    requires w.tables == [] || input.endpoints == []
    ensures var r := Reconcile(w, name, input, [], false, okDel, okAdd);
      r == Reconcile(w, name, input, [], stale, okDel, okAdd) && !r.outcome.Updated? && !r.outcome.InstallFailed?
  {
  }

  lemma FreshRestores(svc: Service, cached: map<RuleKey, Pair>, pool: Pool, naming: Naming, pairs: seq<SvcPair>, taken: set<Held>,
                      give: Ident -> string, held: set<Held>)
    requires Wants(ServiceIPs(svc, naming), svc.ports) == [] && Took(svc, cached, pool, naming, pairs, taken)
    requires exists asked: nat :: Finds(svc, cached, pool, naming, pairs, asked)
    requires Recognised(give, pool.contains, held) && forall h :: h in taken ==> h.ip == give(h.ident) != ""
    ensures (held + taken) - Returned(pairs, pool.contains) == held
  {
    hide IsLiteral, Returned, ServiceIPs, Wants, AllCached, IsFresh;
    if AllCached(svc.ports, cached) {
      var got :| IsFresh(svc.ports, cached, pool.shared, got, pairs);
      NothingReturned(svc.ports, cached, pool.shared, got, pairs, pool.contains);
    } else {
      var got :| taken == {got} && IsFresh(svc.ports, cached, pool.shared, got, pairs);
      FreshRollbackIff(svc.ports, cached, pool.shared, got, pairs, pool.contains, held);
    }
  }

  lemma NothingReturned(ports: seq<SvcPort>, cached: map<RuleKey, Pair>, shared: bool, got: Held, pairs: seq<SvcPair>, contains: string -> bool)
    requires IsFresh(ports, cached, shared, got, pairs) && AllCached(ports, cached)
    ensures Returned(pairs, contains) == {}
  {
    forall i | 0 <= i < |pairs| ensures !pairs[i].allocd { assert FreshPair(ports, cached, shared, got, i, pairs[i]); }
  }
}
