// Which addresses a service has and what becomes of each, in the service's own
// terms (pkg/agent/manager/loadbalancer/loadbalancer.go:1667-1770, 1784-1816).

module AddressSources {
  import opened Rules
  import opened IPText
  import opened ExtIPName
  import opened ServiceAddresses
  import EndpointChanges
  import ServiceStatus

  // ---------- the addresses ----------

  // A status entry gives its address, else what its hostname parses to; under a
  // zero block either reads 0.0.0.0.
  ghost predicate Gives(g: Ingress, naming: Naming, ip: string)
  {
    && ip != "" && (g.ip != "" || g.hostname != "")
    && ip == if naming.zero then "0.0.0.0" else if g.ip != "" then g.ip else ParseIngressHostname(g.hostname, naming.zone)
  }

  lemma GivesIff(g: Ingress, naming: Naming, ip: string)
    ensures Gives(g, naming, ip) <==> ip != "" && AddressOf(g, naming) == ip
  {
    hide ParseIngressHostname;
  }

  // An address is the service's if and only if a status entry gives it, the spec
  // lists it, or it is the annotation's text and that is an address.
  lemma OwnAddressIff(svc: Service, naming: Naming, ip: string)
    ensures ip in ServiceIPs(svc, naming) <==>
      || (exists i :: 0 <= i < |svc.status| && Gives(svc.status[i], naming, ip))
      || ip in svc.externalIPs
      || (ip == svc.staticIP && IsLiteral(ip))
  {
    hide IngressIPs, AddressOf, IsLiteral, Gives;
    forall i | 0 <= i < |svc.status| ensures Gives(svc.status[i], naming, ip) <==> ip != "" && AddressOf(svc.status[i], naming) == ip {
      GivesIff(svc.status[i], naming, ip);
    }
  }

  // They come in the order status, spec, annotation; the status's in its order,
  // each entry that gives an address once.
  lemma AddressOrder(svc: Service, naming: Naming) returns (at: seq<nat>)
    ensures |at| <= |ServiceIPs(svc, naming)| && Origins(svc.status, naming, ServiceIPs(svc, naming)[..|at|], at)
    ensures ServiceIPs(svc, naming)[|at|..] == svc.externalIPs + if IsLiteral(svc.staticIP) then [svc.staticIP] else []
  {
    hide IngressIPs, IsLiteral, Gives;
    at := StatusOrder(svc.status, naming);
    assert ServiceIPs(svc, naming)[..|at|] == IngressIPs(svc.status, naming);
  }

  // at: which entries gave which address.
  ghost predicate Origins(status: seq<Ingress>, naming: Naming, ips: seq<string>, at: seq<nat>)
  {
    && |at| == |ips|
    && (forall i :: 0 <= i < |at| ==> at[i] < |status| && Gives(status[at[i]], naming, ips[i]))
    && (forall i, j :: 0 <= i < j < |at| ==> at[i] < at[j])
    && forall n: nat, ip :: n < |status| && Gives(status[n], naming, ip) ==> n in at
  }

  lemma MoreOrigins(status: seq<Ingress>, naming: Naming, ips: seq<string>, at: seq<nat>)
    requires status != [] && Origins(status[..|status| - 1], naming, ips, at)
    ensures var n := |status| - 1;
      var a := AddressOf(status[n], naming);
      if a == "" then Origins(status, naming, ips, at) else Origins(status, naming, ips + [a], at + [n])
  {
    hide AddressOf, Gives;
    var n := |status| - 1;
    var a := AddressOf(status[n], naming);
    forall ip ensures Gives(status[n], naming, ip) <==> ip == a != "" { GivesIff(status[n], naming, ip); }
    assert forall x :: 0 <= x < n ==> status[..n][x] == status[x];
    assert (at + [n])[|at|] == n;
    assert forall x :: x in at ==> x in at + [n];
  }

  lemma {:induction false} StatusOrder(status: seq<Ingress>, naming: Naming) returns (at: seq<nat>)
    ensures Origins(status, naming, IngressIPs(status, naming), at)
    decreases |status|
  {
    at := [];
    if status != [] {
      var n := |status| - 1;
      at := StatusOrder(status[..n], naming);
      MoreOrigins(status, naming, IngressIPs(status[..n], naming), at);
      if AddressOf(status[n], naming) != "" { at := at + [n]; }
    }
  }

  // ---------- each on every port ----------

  predicate WantAt(todo: seq<Want>, a: nat, b: nat, n: nat, x: Want)
  {
    a * n + b < |todo| && todo[a * n + b] == x
  }

  lemma WantsUnfolds(ips: seq<string>, ports: seq<SvcPort>)
    requires ips != []
    ensures var n := |ips| - 1; Wants(ips, ports) == Wants(ips[..n], ports) + OnEachPort(ips[n], ports)
  {
  }

  lemma {:induction false} WantsCount(ips: seq<string>, ports: seq<SvcPort>)
    ensures |Wants(ips, ports)| == |ips| * |ports|
  {
    hide Wants;
    if ips == [] {
      ServiceStatus.WantsNone(ports);
    } else {
      WantsUnfolds(ips, ports);
      WantsCount(ips[..|ips| - 1], ports);
      EndpointChanges.Next(|ips| - 1, |ports|);
    }
  }

  // Addresses outermost.
  lemma {:induction false} WantsInOrder(ips: seq<string>, ports: seq<SvcPort>, a: nat, b: nat)
    requires a < |ips| && b < |ports|
    ensures WantAt(Wants(ips, ports), a, b, |ports|, Want(ips[a], ports[b]))
    decreases |ips|
  {
    hide Wants;
    var n := |ips| - 1;
    WantsUnfolds(ips, ports);
    WantsCount(ips[..n], ports);
    if a < n { WantsInOrder(ips[..n], ports, a, b); }
  }

  // A service whose annotation is an address never asks the pool for a new one:
  // its pairs have that address on every port.
  lemma AnnotationIsUsed(svc: Service, cached: map<RuleKey, Pair>, pool: Pool, naming: Naming, pairs: seq<SvcPair>, asked: nat, p: SvcPort)
    requires Finds(svc, cached, pool, naming, pairs, asked) && IsLiteral(svc.staticIP) && p in svc.ports
    ensures Wants(ServiceIPs(svc, naming), svc.ports) != []
    ensures exists i :: (0 <= i < |pairs| && pairs[i].ip == svc.staticIP && pairs[i].port == p &&
                         (KeyOf(pairs[i]) !in cached ==> pairs[i].staticIP))
  {
    hide ServiceIPs, Wants, ExistingPairs, IsLiteral;
    OwnAddressIff(svc, naming, svc.staticIP);
    var todo, x := Wants(ServiceIPs(svc, naming), svc.ports), Want(svc.staticIP, p);
    assert x in todo;
    var i :| 0 <= i < |todo| && todo[i] == x;
    BroughtPairs(todo, cached, pool, i);
  }

  // ---------- what becomes of a wanted address ----------

  // An earlier wanted address, not cached, was in the pool's range.
  ghost predicate Spent(todo: seq<Want>, cached: map<RuleKey, Pair>, pool: Pool, i: nat)
  {
    exists x :: 0 <= x < i && x < |todo| && AsksFor(todo[x], cached, pool)
  }

  ghost predicate AsksFor(x: Want, cached: map<RuleKey, Pair>, pool: Pool)
  {
    RuleKey(x.ip, x.port.num, x.port.proto) !in cached && IsLiteral(x.ip) && pool.contains(x.ip)
  }

  // A cached pair keeps its records. One that is not cached is static; the first
  // of them in the pool's range is in range and this sync's own, reserved under
  // its port in a shared pool if that is free, and under none otherwise; what
  // comes after that one is neither.
  ghost predicate IsBrought(sp: SvcPair, todo: seq<Want>, cached: map<RuleKey, Pair>, pool: Pool, i: nat)
    requires i < |todo|
  {
    var x := todo[i];
    var k := RuleKey(x.ip, x.port.num, x.port.proto);
    var own := if pool.shared then PortIdent(x.port.num, x.port.proto) else NoIdent;
    && sp.ip == x.ip && sp.port == x.port
    && if k in cached then
         sp.inRange == cached[k].inRange && sp.staticIP == cached[k].staticIP && sp.ident == cached[k].ident && !sp.allocd
       else
         && sp.staticIP && sp.allocd == !Spent(todo, cached, pool, i)
         && sp.inRange == (sp.allocd && AsksFor(x, cached, pool))
         && sp.ident == if !sp.allocd then own else if !sp.inRange then Unset else if pool.free(x.ip, own) then own else NoIdent
  }

  lemma {:induction false} BroughtPairs(todo: seq<Want>, cached: map<RuleKey, Pair>, pool: Pool, i: nat)
    requires i < |todo|
    ensures IsBrought(ExistingPairs(todo, cached, pool).pairs[i], todo, cached, pool, i)
    decreases |todo|
  {
    hide ExistingPairs, NextPair, TakenFor, Spent, AsksFor;
    var n := |todo| - 1;
    ExistingUnfolds(todo, cached, pool);
    SpentPrefix(todo, n, cached, pool, i);
    if i < n {
      BroughtPairs(todo[..n], cached, pool, i);
    } else {
      ReservedIff(todo[..n], cached, pool);
      NextIsBrought(todo, cached, pool);
    }
  }

  lemma NextIsBrought(todo: seq<Want>, cached: map<RuleKey, Pair>, pool: Pool)
    requires todo != []
    ensures var n := |todo| - 1; IsBrought(NextPair(todo[n], cached, Spent(todo, cached, pool, n), pool), todo, cached, pool, n)
  {
    hide IsLiteral, Spent;
  }

  lemma NothingFound(cached: map<RuleKey, Pair>, pool: Pool)
    ensures !ExistingPairs([], cached, pool).reserved
  {
  }

  lemma InRangeIff(x: Want, cached: map<RuleKey, Pair>, pool: Pool)
    requires WantKey(x) !in cached
    ensures NextPair(x, cached, false, pool).inRange <==> AsksFor(x, cached, pool)
  {
    hide IsLiteral;
  }

  lemma CachedAsksNot(x: Want, cached: map<RuleKey, Pair>, pool: Pool)
    requires WantKey(x) in cached
    ensures !AsksFor(x, cached, pool)
  {
  }

  lemma ExistingUnfolds(todo: seq<Want>, cached: map<RuleKey, Pair>, pool: Pool)
    requires todo != []
    ensures var n := |todo| - 1; ExistingPairs(todo, cached, pool) == Extend(ExistingPairs(todo[..n], cached, pool), todo[n], cached, pool)
  {
  }

  lemma SpentPrefix(todo: seq<Want>, n: nat, cached: map<RuleKey, Pair>, pool: Pool, i: nat)
    requires i <= n <= |todo|
    ensures Spent(todo[..n], cached, pool, i) <==> Spent(todo, cached, pool, i)
  {
    hide AsksFor;
    assert forall x :: 0 <= x < n ==> todo[..n][x] == todo[x];
  }

  lemma {:induction false} ReservedIff(todo: seq<Want>, cached: map<RuleKey, Pair>, pool: Pool)
    ensures ExistingPairs(todo, cached, pool).reserved <==> Spent(todo, cached, pool, |todo|)
    decreases |todo|
  {
    hide AsksFor, ExistingPairs, NextPair, TakenFor;
    if todo == [] {
      NothingFound(cached, pool);
    } else {
      var n := |todo| - 1;
      ExistingUnfolds(todo, cached, pool);
      if WantKey(todo[n]) !in cached { InRangeIff(todo[n], cached, pool); } else { CachedAsksNot(todo[n], cached, pool); }
      ReservedIff(todo[..n], cached, pool);
      SpentPrefix(todo, n, cached, pool, n);
      assert Spent(todo, cached, pool, |todo|) <==> Spent(todo, cached, pool, n) || AsksFor(todo[n], cached, pool);
    }
  }
}
