// Pools of external addresses and the loops that take addresses from them and
// give them back (pkg/ippool/ippool.go:85-150, 197-208;
// pkg/agent/manager/loadbalancer/loadbalancer.go:797-809, 1772-1866).

module IPPools {
  import opened Rules
  import opened IPText
  import opened ServiceAddresses
  import ServiceStatus

  // The allocator is loxilib's; it is seen as the set of what it holds.
  class IPPool {
    const shared: bool
    const contains: string -> bool
    var held: set<Held>
    var asked: nat

    constructor (shared: bool, contains: string -> bool)
      ensures this.shared == shared && this.contains == contains && held == {} && asked == 0
    {
      this.shared, this.contains, held, asked := shared, contains, {}, 0;
    }

    // give: the address the allocator picks for an identifier, empty if none.
    // A shared pool falls back to an address without identifier.
    method GetNewIPAddr(p: SvcPort, give: Ident -> string) returns (ip: string, ident: Ident)
      modifies this
      ensures asked == old(asked) + 1 && ip == give(ident)
      ensures ident == Granted(shared, p, give)
      ensures held == if ip != "" then old(held) + {Held(ip, ident)} else old(held)
    {
      asked := asked + 1;
      ident := IdentFor(shared, p);
      ip := give(ident);
      if ip == "" && ident != NoIdent {
        ident := NoIdent;
        ip := give(ident);
      }
      if ip != "" { held := held + {Held(ip, ident)}; }
    }

    method CheckAndReserveIP(ip: string, p: SvcPort, free: (string, Ident) -> bool) returns (r: Reservation)
      modifies this
      ensures r == CheckAndReserve(Pool(shared, contains, free), ip, p)
      ensures r.inRange == (IsLiteral(ip) && contains(ip))
      ensures var own := PortIdent(p.num, p.proto);
        r.inRange ==> && r.ident == (if shared && free(ip, own) then own else NoIdent) && r.got == free(ip, r.ident)
                      && r.reported == (r.got || !shared)
      ensures asked == old(asked) + 1 && held == old(held) + if r.got then {Held(ip, r.ident)} else {}
    {
      asked := asked + 1;
      if !IsLiteral(ip) || !contains(ip) { return Reservation(false, false, false, Unset); }
      var ident := IdentFor(shared, p);
      var got := free(ip, ident);
      var reported := true;
      if !got && ident != NoIdent {
        ident := NoIdent;
        got := free(ip, ident);
        reported := got;
      }
      if got { held := held + {Held(ip, ident)}; }
      r := Reservation(true, reported, got, ident);
    }

    method ReturnIPAddr(ip: string, ident: Ident)
      modifies this
      ensures asked == old(asked)
      ensures held == if IsLiteral(ip) && contains(ip) then old(held) - {Held(ip, ident)} else old(held)
    {
      if !IsLiteral(ip) || !contains(ip) { return; }
      held := held - {Held(ip, ident)};
    }
  }

  // ---------- taking addresses ----------

  lemma ExistingNone(cached: map<RuleKey, Pair>, pool: Pool)
    ensures ExistingPairs([], cached, pool) == Found([], false, {}, 0)
  {
  }

  lemma ExistingStep(todo: seq<Want>, n: nat, cached: map<RuleKey, Pair>, pool: Pool)
    requires n < |todo|
    ensures ExistingPairs(todo[..n + 1], cached, pool) == Extend(ExistingPairs(todo[..n], cached, pool), todo[n], cached, pool)
  {
    assert todo[..n + 1][..n] == todo[..n];
  }

  method ReserveExisting(todo: seq<Want>, cached: map<RuleKey, Pair>, pool: IPPool, free: (string, Ident) -> bool) returns (pairs: seq<SvcPair>)
    modifies pool
    ensures var f := ExistingPairs(todo, cached, Pool(pool.shared, pool.contains, free));
      pairs == f.pairs && pool.held == old(pool.held) + f.taken && pool.asked == old(pool.asked) + f.asked
  {
    hide ExistingPairs, CheckAndReserve, IsLiteral;
    ghost var view := Pool(pool.shared, pool.contains, free);
    assert ExistingPairs(todo[..0], cached, view) == Found([], false, {}, 0) by { ExistingNone(cached, view); }
    var reserved := false;
    pairs := [];
    for n := 0 to |todo|
      invariant var f := ExistingPairs(todo[..n], cached, view);
        pairs == f.pairs && reserved == f.reserved && pool.held == old(pool.held) + f.taken && pool.asked == old(pool.asked) + f.asked
    {
      ExistingStep(todo, n, cached, view);
      var x := todo[n];
      if WantKey(x) in cached {
        pairs := pairs + [Reused(WantKey(x), cached[WantKey(x)], x.port)];
      } else if reserved {
        pairs := pairs + [SvcPair(x.ip, x.port, false, true, IdentFor(pool.shared, x.port), false)];
      } else {
        var r := pool.CheckAndReserveIP(x.ip, x.port, free);
        pairs := pairs + [SvcPair(x.ip, x.port, r.inRange, true, r.ident, true)];
        reserved := r.inRange;
      }
    }
    assert todo[..|todo|] == todo;
  }

  // The cache is a Go map: any cached pair of the port may be met first.
  method FindCached(cached: map<RuleKey, Pair>, p: SvcPort) returns (found: bool, k: RuleKey)
    ensures found == CachedPort(cached, p)
    ensures found ==> k in cached && Matches(k, p)
  {
    var todo := cached.Keys;
    k := RuleKey("", 0, "");
    while todo != {}
      invariant todo <= cached.Keys && forall x :: x in cached && x !in todo ==> !Matches(x, p)
      decreases todo
    {
      k :| k in todo;
      if Matches(k, p) { return true, k; }
      todo := todo - {k};
    }
    found := false;
  }

  // The identifier a new address is granted under.
  function Granted(shared: bool, p: SvcPort, give: Ident -> string): Ident
  {
    if shared && give(PortIdent(p.num, p.proto)) != "" then PortIdent(p.num, p.proto) else NoIdent
  }

  // One pair per port in order; at most one allocation, made exactly when some
  // port is uncached; the allocator running out ends the loop.
  method TakeFresh(ports: seq<SvcPort>, cached: map<RuleKey, Pair>, pool: IPPool, give: Ident -> string)
    returns (pairs: seq<SvcPair>, got: Held, ok: bool)
    modifies pool
    ensures ok ==> IsFresh(ports, cached, pool.shared, got, pairs)
    ensures ok && AllCached(ports, cached) ==> pool.held == old(pool.held) && pool.asked == old(pool.asked)
    ensures ok && !AllCached(ports, cached) ==>
      pool.held == old(pool.held) + {got} && pool.asked == old(pool.asked) + 1 && got.ip == give(got.ident) != ""
    ensures ok ==> forall i :: 0 <= i < |ports| && FirstUncached(ports, cached, i) ==>
      got.ident == Granted(pool.shared, ports[i], give)
    ensures !ok ==> pool.held == old(pool.held) && pool.asked == old(pool.asked) + 1
  {
    hide Granted, CachedPort;
    var reserved := false;
    pairs, got, ok := [], Held("", NoIdent), true;
    for n := 0 to |ports|
      invariant |pairs| == n && reserved == !AllCached(ports[..n], cached)
      invariant forall i :: 0 <= i < n ==> FreshPair(ports, cached, pool.shared, got, i, pairs[i])
      invariant forall i :: 0 <= i < n && FirstUncached(ports, cached, i) ==> got.ident == Granted(pool.shared, ports[i], give)
      invariant !reserved ==> pool.held == old(pool.held) && pool.asked == old(pool.asked)
      invariant reserved ==> pool.held == old(pool.held) + {got} && pool.asked == old(pool.asked) + 1 && got.ip == give(got.ident) != ""
    {
      var p := ports[n];
      assert AllCached(ports[..n], cached) <==> forall j :: 0 <= j < n ==> CachedPort(cached, ports[j]) by { Prefix(ports, cached, n); }
      assert AllCached(ports[..n + 1], cached) <==> forall j :: 0 <= j < n + 1 ==> CachedPort(cached, ports[j]) by { Prefix(ports, cached, n + 1); }
      var found, k := FindCached(cached, p);
      if found {
        pairs := pairs + [Reused(k, cached[k], p)];
      } else if reserved {
        pairs := pairs + [SvcPair(got.ip, p, true, false, IdentFor(pool.shared, p), false)];
      } else {
        var ip, ident := pool.GetNewIPAddr(p, give);
        if ip == "" { return [], got, false; }
        got := Held(ip, ident);
        pairs := pairs + [SvcPair(ip, p, true, false, ident, true)];
        reserved := true;
      }
    }
    assert ports[..|ports|] == ports;
  }

  lemma Prefix(ports: seq<SvcPort>, cached: map<RuleKey, Pair>, n: nat)
    requires n <= |ports|
    ensures AllCached(ports[..n], cached) <==> forall j :: 0 <= j < n ==> CachedPort(cached, ports[j])
  {
  }

  // What the lookup took from the pool.
  ghost predicate Took(svc: Service, cached: map<RuleKey, Pair>, pool: Pool, naming: Naming, pairs: seq<SvcPair>, taken: set<Held>)
  {
    var todo := Wants(ServiceIPs(svc, naming), svc.ports);
    if todo != [] then taken == ExistingPairs(todo, cached, pool).taken
    else if AllCached(svc.ports, cached) then taken == {}
    else exists got :: taken == {got} && IsFresh(svc.ports, cached, pool.shared, got, pairs)
  }

  // The addresses of the service if it has any, else one from the pool; not ok
  // when the pool is exhausted.
  method GetIngressSvcPairs(svc: Service, cached: map<RuleKey, Pair>, pool: IPPool, naming: Naming, free: (string, Ident) -> bool, give: Ident -> string)
    returns (pairs: seq<SvcPair>, existing: bool, ok: bool, ghost taken: set<Held>)
    modifies pool
    ensures existing == (Wants(ServiceIPs(svc, naming), svc.ports) != [])
    ensures svc.ports != [] && (IsLiteral(svc.staticIP) || svc.externalIPs != []) ==> existing
    ensures pool.asked >= old(pool.asked)
    ensures ok ==> Finds(svc, cached, Pool(pool.shared, pool.contains, free), naming, pairs, pool.asked - old(pool.asked))
    ensures ok ==> Took(svc, cached, Pool(pool.shared, pool.contains, free), naming, pairs, taken) && pool.held == old(pool.held) + taken
    ensures ok && !existing ==> forall h :: h in taken ==> h.ip == give(h.ident) != ""
    ensures !ok ==> !existing && pool.held == old(pool.held)
  {
    hide ExistingPairs, IsFresh, Wants, AllCached, IsLiteral;
    var todo := ServiceStatus.GetLBIngressSvcPairs(svc, naming);
    if ServiceIPs(svc, naming) != [] && svc.ports != [] { assert Want(ServiceIPs(svc, naming)[0], svc.ports[0]) in todo; }
    existing, ok := todo != [], true;
    if existing {
      taken := ExistingPairs(todo, cached, Pool(pool.shared, pool.contains, free)).taken;
      pairs := ReserveExisting(todo, cached, pool, free);
    } else {
      var got;
      pairs, got, ok := TakeFresh(svc.ports, cached, pool, give);
      taken := if AllCached(svc.ports, cached) then {} else {got};
    }
  }

  // ---------- giving them back ----------

  ghost function Returned(pairs: seq<SvcPair>, contains: string -> bool): set<Held>
  {
    set i | 0 <= i < |pairs| && pairs[i].inRange && pairs[i].allocd && IsLiteral(pairs[i].ip) && contains(pairs[i].ip)
      :: Held(pairs[i].ip, pairs[i].ident)
  }

  // The deferred rollback, for the primary pool.
  method RollBack(pairs: seq<SvcPair>, pool: IPPool)
    modifies pool
    ensures pool.held == old(pool.held) - Returned(pairs, pool.contains) && pool.asked == old(pool.asked)
  {
    for n := 0 to |pairs|
      invariant pool.held == old(pool.held) - Returned(pairs[..n], pool.contains) && pool.asked == old(pool.asked)
    {
      var sp := pairs[n];
      ReturnedMore(pairs, n, pool.contains);
      if sp.inRange && sp.allocd { pool.ReturnIPAddr(sp.ip, sp.ident); }
    }
    assert pairs[..|pairs|] == pairs;
  }

  lemma ReturnedMore(pairs: seq<SvcPair>, n: nat, contains: string -> bool)
    requires n < |pairs|
    ensures Returned(pairs[..n + 1], contains) == Returned(pairs[..n], contains) +
      if pairs[n].inRange && pairs[n].allocd && IsLiteral(pairs[n].ip) && contains(pairs[n].ip) then {Held(pairs[n].ip, pairs[n].ident)} else {}
  {
    hide IsLiteral;
    var a, b := pairs[..n + 1], pairs[..n];
    assert forall i :: 0 <= i < n ==> a[i] == b[i];
    forall h | h in Returned(b, contains) ensures h in Returned(a, contains) {
      var i :| 0 <= i < |b| && b[i].inRange && b[i].allocd && IsLiteral(b[i].ip) && contains(b[i].ip) && h == Held(b[i].ip, b[i].ident);
      assert a[i] == b[i];
    }
    assert a[n] == pairs[n];
  }

  // On the fresh path the rollback gives back at most the one address taken,
  // and leaves the pool as it was if and only if nothing was taken or the pool
  // recognises the address as its own.
  lemma FreshRollbackIff(ports: seq<SvcPort>, cached: map<RuleKey, Pair>, shared: bool, got: Held, pairs: seq<SvcPair>,
                         contains: string -> bool, before: set<Held>)
    requires IsFresh(ports, cached, shared, got, pairs) && got !in before
    ensures var taken := if AllCached(ports, cached) then {} else {got};
      && Returned(pairs, contains) <= taken
      && ((before + taken) - Returned(pairs, contains) == before <==>
            AllCached(ports, cached) || (IsLiteral(got.ip) && contains(got.ip)))
  {
    hide IsLiteral;
    forall i | 0 <= i < |pairs|
      ensures pairs[i].allocd == FirstUncached(ports, cached, i)
      ensures pairs[i].allocd ==> pairs[i].inRange && Held(pairs[i].ip, pairs[i].ident) == got
    {
      assert FreshPair(ports, cached, shared, got, i, pairs[i]);
    }
    if !AllCached(ports, cached) {
      var i := FirstAt(ports, cached);
      assert pairs[i].allocd;
      assert got in Returned(pairs, contains) <==> IsLiteral(got.ip) && contains(got.ip);
    }
  }

  lemma {:induction false} FirstAt(ports: seq<SvcPort>, cached: map<RuleKey, Pair>) returns (i: nat)
    requires !AllCached(ports, cached)
    ensures i < |ports| && FirstUncached(ports, cached, i)
  {
    var n := |ports| - 1;
    if AllCached(ports[..n], cached) {
      Prefix(ports, cached, n);
      i := n;
    } else {
      i := FirstAt(ports[..n], cached);
      assert forall j :: 0 <= j <= i ==> ports[..n][j] == ports[j];
    }
  }

  // ---------- addresses the service brought ----------

  // A wanted address the pool will be asked to reserve and has in range.
  ghost predicate InPool(x: Want, cached: map<RuleKey, Pair>, pool: Pool)
  {
    WantKey(x) !in cached && IsLiteral(x.ip) && pool.contains(x.ip)
  }

  ghost predicate FirstInPool(todo: seq<Want>, cached: map<RuleKey, Pair>, pool: Pool, i: nat)
  {
    i < |todo| && InPool(todo[i], cached, pool) && forall j :: 0 <= j < i ==> !InPool(todo[j], cached, pool)
  }

  // What the reserving loop took and what a rollback would return: nothing, or
  // the one address it met first in the pool.
  ghost predicate Books(f: Found, todo: seq<Want>, cached: map<RuleKey, Pair>, pool: Pool)
  {
    && (f.reserved ==> exists i: nat :: FirstInPool(todo, cached, pool, i))
    && (!f.reserved ==> f.taken == {} && Returned(f.pairs, pool.contains) == {} && forall j :: 0 <= j < |todo| ==> !InPool(todo[j], cached, pool))
    && (forall i: nat :: FirstInPool(todo, cached, pool, i) ==>
          var r := CheckAndReserve(pool, todo[i].ip, todo[i].port);
          && Returned(f.pairs, pool.contains) == {Held(todo[i].ip, r.ident)}
          && f.taken == if r.got then {Held(todo[i].ip, r.ident)} else {})
  }

  lemma {:induction false} ExistingBooks(todo: seq<Want>, cached: map<RuleKey, Pair>, pool: Pool)
    ensures Books(ExistingPairs(todo, cached, pool), todo, cached, pool)
  {
    hide ExistingPairs, Returned, CheckAndReserve, IsLiteral, InPool;
    if todo == [] {
      ExistingNone(cached, pool);
      ReturnedNone(pool.contains);
    } else {
      var n := |todo| - 1;
      ExistingBooks(todo[..n], cached, pool);
      assert todo[..n + 1] == todo;
      ExistingStep(todo, n, cached, pool);
      BooksStep(ExistingPairs(todo[..n], cached, pool), todo, cached, pool);
    }
  }

  lemma FirstInPrefix(todo: seq<Want>, n: nat, cached: map<RuleKey, Pair>, pool: Pool, i: nat)
    requires n <= |todo|
    ensures FirstInPool(todo[..n], cached, pool, i) <==> i < n && FirstInPool(todo, cached, pool, i)
  {
    hide InPool;
    assert forall j :: 0 <= j < n ==> todo[..n][j] == todo[j];
  }

  lemma BooksStep(f: Found, todo: seq<Want>, cached: map<RuleKey, Pair>, pool: Pool)
    requires todo != [] && |f.pairs| == |todo| - 1 && Books(f, todo[..|todo| - 1], cached, pool)
    ensures Books(Extend(f, todo[|todo| - 1], cached, pool), todo, cached, pool)
  {
    hide Returned, CheckAndReserve, IsLiteral;
    var n := |todo| - 1;
    var x, g := todo[n], Extend(f, todo[n], cached, pool);
    assert g.pairs[..n + 1] == g.pairs && g.pairs[..n] == f.pairs;
    ReturnedMore(g.pairs, n, pool.contains);
    ReservedInRange(pool, x.ip, x.port);
    forall i: nat ensures FirstInPool(todo[..n], cached, pool, i) <==> i < n && FirstInPool(todo, cached, pool, i) {
      FirstInPrefix(todo, n, cached, pool, i);
    }
    assert forall j :: 0 <= j < n ==> todo[..n][j] == todo[j];
    if f.reserved {
      var i: nat :| FirstInPool(todo[..n], cached, pool, i);
      assert FirstInPool(todo, cached, pool, i);
    } else if InPool(x, cached, pool) {
      assert FirstInPool(todo, cached, pool, n);
    }
  }

  lemma ReturnedNone(contains: string -> bool)
    ensures Returned([], contains) == {}
  {
  }

  lemma ReservedInRange(pool: Pool, ip: string, p: SvcPort)
    ensures var r := CheckAndReserve(pool, ip, p);
      (r.inRange <==> IsLiteral(ip) && pool.contains(ip)) && (r.got ==> r.inRange)
  {
  }

  // The allocator grants exactly what it does not hold.
  ghost predicate GrantsUnheld(pool: Pool, before: set<Held>)
  {
    forall ip, id :: pool.free(ip, id) <==> Held(ip, id) !in before
  }

  // Somebody already holds the address in every way the pool would reserve it.
  predicate Occupied(x: Want, shared: bool, before: set<Held>)
  {
    Held(x.ip, IdentFor(shared, x.port)) in before && Held(x.ip, NoIdent) in before
  }

  // For addresses the service brought, the rollback restores the pool if and
  // only if the first uncached one in the pool was not already held: a refused
  // reservation is not told apart and is given back all the same.
  lemma ExistingRollbackIff(todo: seq<Want>, cached: map<RuleKey, Pair>, pool: Pool, before: set<Held>)
    requires GrantsUnheld(pool, before)
    ensures var f := ExistingPairs(todo, cached, pool);
      (before + f.taken) - Returned(f.pairs, pool.contains) == before <==>
        forall i: nat :: FirstInPool(todo, cached, pool, i) ==> !Occupied(todo[i], pool.shared, before)
  {
    hide ExistingPairs, Returned, IsLiteral, FirstInPool;
    ExistingBooks(todo, cached, pool);
    var f := ExistingPairs(todo, cached, pool);
    if i: nat :| FirstInPool(todo, cached, pool, i) {
      OneFirst(todo, cached, pool, i);
      FirstReservation(todo, cached, pool, before, i);
      assert (before + f.taken) - Returned(f.pairs, pool.contains) == before <==> !Occupied(todo[i], pool.shared, before);
    } else {
      assert !f.reserved;
    }
  }

  lemma OneFirst(todo: seq<Want>, cached: map<RuleKey, Pair>, pool: Pool, i: nat)
    requires FirstInPool(todo, cached, pool, i)
    ensures i < |todo| && forall j: nat :: FirstInPool(todo, cached, pool, j) ==> j == i
  {
  }

  lemma FirstReservation(todo: seq<Want>, cached: map<RuleKey, Pair>, pool: Pool, before: set<Held>, i: nat)
    requires GrantsUnheld(pool, before) && FirstInPool(todo, cached, pool, i)
    ensures var r := CheckAndReserve(pool, todo[i].ip, todo[i].port);
      r.got == !Occupied(todo[i], pool.shared, before) && (r.got <==> Held(todo[i].ip, r.ident) !in before)
  {
  }

  // Any address of a pool that is not shared, held by another service, is freed
  // by a sync that failed: the rollback drops what that service holds.
  lemma RollbackFreesAnothers(ip: string, p: SvcPort, pool: Pool)
    requires IsLiteral(ip) && pool.contains(ip) && !pool.shared && GrantsUnheld(pool, {Held(ip, NoIdent)})
    ensures var f, before := ExistingPairs([Want(ip, p)], map[], pool), {Held(ip, NoIdent)};
      f.taken == {} && (before + f.taken) - Returned(f.pairs, pool.contains) == {}
  {
    hide IsLiteral, ExistingPairs, Returned;
    var todo := [Want(ip, p)];
    ExistingBooks(todo, map[], pool);
    assert InPool(todo[0], map[], pool) && FirstInPool(todo, map[], pool, 0);
  }
}
