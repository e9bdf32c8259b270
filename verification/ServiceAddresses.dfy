// Where a service's external addresses come from: its status, its spec, an
// annotation, or the pool (pkg/agent/manager/loadbalancer/loadbalancer.go:
// 1119-1155, 1515-1529, 1613-1701, 1733-1866).

module ServiceAddresses {
  import opened Rules
  import opened IPText
  import opened ExtIPName

  datatype Ingress = Ingress(ip: string, hostname: string)

  // staticIP is the annotation's text, empty when absent.
  datatype Service = Service(ports: seq<SvcPort>, status: seq<Ingress>, externalIPs: seq<string>, staticIP: string)

  // How addresses are named in a status: the agent's zone, whether the service's
  // pool is the zero block, the instance addresses that stand for an unspecified
  // one, and loxilib's answer to "is this text IPv6?".
  datatype Naming = Naming(zone: string, zero: bool, instAddrs: seq<string>, isV6: string -> bool)

  // ---------- reading ----------

  // Empty when the ingress is skipped. With a zero block every entry that says
  // anything reads 0.0.0.0.
  function AddressOf(g: Ingress, naming: Naming): string
  {
    if g.ip != "" then (if naming.zero then ANY_IP else g.ip)
    else if g.hostname != "" then (if naming.zero then ANY_IP else ParseIngressHostname(g.hostname, naming.zone))
    else ""
  }

  function IngressIPs(status: seq<Ingress>, naming: Naming): (r: seq<string>)
    ensures forall x :: x in r <==> x != "" && exists i :: 0 <= i < |status| && AddressOf(status[i], naming) == x
  {
    if status == [] then [] else
      var n := |status| - 1;
      var a, before := AddressOf(status[n], naming), IngressIPs(status[..n], naming);
      assert forall i :: 0 <= i < n ==> status[..n][i] == status[i];
      if a == "" then before else before + [a]
  }

  function StaticIP(svc: Service): seq<string>
  {
    if IsLiteral(svc.staticIP) then [svc.staticIP] else []
  }

  function ServiceIPs(svc: Service, naming: Naming): seq<string>
  {
    IngressIPs(svc.status, naming) + svc.externalIPs + StaticIP(svc)
  }

  datatype Want = Want(ip: string, port: SvcPort)

  function OnEachPort(ip: string, ports: seq<SvcPort>): (r: seq<Want>)
    ensures |r| == |ports| && forall i :: 0 <= i < |ports| ==> r[i] == Want(ip, ports[i])
  {
    seq(|ports|, i requires 0 <= i < |ports| => Want(ip, ports[i]))
  }

  // Every address on every port, addresses outermost.
  function Wants(ips: seq<string>, ports: seq<SvcPort>): (r: seq<Want>)
    ensures forall x :: x in r <==> x.ip in ips && x.port in ports
  {
    if ips == [] then []
    else
      var n := |ips| - 1;
      assert ips == ips[..n] + [ips[n]];
      assert forall x :: x in OnEachPort(ips[n], ports) <==> x.ip == ips[n] && x.port in ports by {
        forall x: Want | x.ip == ips[n] && x.port in ports ensures x in OnEachPort(ips[n], ports) {
          var i :| 0 <= i < |ports| && ports[i] == x.port;
          assert OnEachPort(ips[n], ports)[i] == x;
        }
      }
      Wants(ips[..n], ports) + OnEachPort(ips[n], ports)
  }

  // ---------- pools ----------

  // A pool as its callers see it; free is the allocator's answer to a request
  // for one address.
  datatype Pool = Pool(shared: bool, contains: string -> bool, free: (string, Ident) -> bool)

  function IdentFor(shared: bool, p: SvcPort): Ident
  {
    if shared then PortIdent(p.num, p.proto) else NoIdent
  }

  // inRange and reported are the results callers see; got says whether the
  // allocator now holds the address for this caller.
  datatype Reservation = Reservation(inRange: bool, reported: bool, got: bool, ident: Ident)

  // CheckAndReserveIP: an address of the pool is in range whether or not the
  // allocator grants it, and a pool that is not shared reports success even
  // when the allocator refused.
  function CheckAndReserve(pool: Pool, ip: string, p: SvcPort): Reservation
  {
    if !IsLiteral(ip) || !pool.contains(ip) then Reservation(false, false, false, Unset)
    else if pool.free(ip, IdentFor(pool.shared, p)) then Reservation(true, true, true, IdentFor(pool.shared, p))
    else if pool.shared then Reservation(true, pool.free(ip, NoIdent), pool.free(ip, NoIdent), NoIdent)
    else Reservation(true, true, false, NoIdent)
  }

  // ---------- addresses the service already has ----------

  // taken: what this call reserved; asked: how often it called the pool.
  datatype Found = Found(pairs: seq<SvcPair>, reserved: bool, taken: set<Held>, asked: nat)

  function WantKey(x: Want): RuleKey
  {
    RuleKey(x.ip, x.port.num, x.port.proto)
  }

  function Reused(k: RuleKey, c: Pair, p: SvcPort): SvcPair
  {
    SvcPair(k.ip, p, c.inRange, c.staticIP, c.ident, false)
  }

  function NextPair(x: Want, cached: map<RuleKey, Pair>, reserved: bool, pool: Pool): (sp: SvcPair)
    ensures KeyOf(sp) == WantKey(x) && sp.port == x.port
  {
    if WantKey(x) in cached then Reused(WantKey(x), cached[WantKey(x)], x.port)
    else if reserved then SvcPair(x.ip, x.port, false, true, IdentFor(pool.shared, x.port), false)
    else
      var r := CheckAndReserve(pool, x.ip, x.port);
      SvcPair(x.ip, x.port, r.inRange, true, r.ident, true)
  }

  function TakenFor(x: Want, pool: Pool): set<Held>
  {
    var r := CheckAndReserve(pool, x.ip, x.port);
    if r.got then {Held(x.ip, r.ident)} else {}
  }

  function Extend(f: Found, x: Want, cached: map<RuleKey, Pair>, pool: Pool): Found
  {
    var sp := NextPair(x, cached, f.reserved, pool);
    if WantKey(x) in cached || f.reserved then f.(pairs := f.pairs + [sp])
    else Found(f.pairs + [sp], sp.inRange, f.taken + TakenFor(x, pool), f.asked + 1)
  }

  function ExistingPairs(todo: seq<Want>, cached: map<RuleKey, Pair>, pool: Pool): (f: Found)
    ensures |f.pairs| == |todo|
    ensures forall i :: 0 <= i < |todo| ==> KeyOf(f.pairs[i]) == WantKey(todo[i]) && f.pairs[i].port == todo[i].port
    ensures f.reserved ==> f.asked > 0
    ensures f.asked == 0 <==> forall i :: 0 <= i < |todo| ==> WantKey(todo[i]) in cached
  {
    if todo == [] then Found([], false, {}, 0)
    else
      var n := |todo| - 1;
      var before := ExistingPairs(todo[..n], cached, pool);
      assert forall i :: 0 <= i < n ==> todo[..n][i] == todo[i];
      Extend(before, todo[n], cached, pool)
  }

  // ---------- a service without an address ----------

  predicate Matches(k: RuleKey, p: SvcPort)
  {
    k.port == p.num && k.proto == p.proto
  }

  predicate CachedPort(cached: map<RuleKey, Pair>, p: SvcPort)
  {
    exists k :: k in cached && Matches(k, p)
  }

  predicate FirstUncached(ports: seq<SvcPort>, cached: map<RuleKey, Pair>, i: nat)
    requires i < |ports|
  {
    !CachedPort(cached, ports[i]) && forall j :: 0 <= j < i ==> CachedPort(cached, ports[j])
  }

  // Pair i: a cached port keeps some cached pair (the cache is a Go map, so any
  // of them); the others share the new address, the first being its owner.
  ghost predicate FreshPair(ports: seq<SvcPort>, cached: map<RuleKey, Pair>, shared: bool, got: Held, i: nat, sp: SvcPair)
    requires i < |ports|
  {
    if CachedPort(cached, ports[i]) then
      exists k :: k in cached && Matches(k, ports[i]) && sp == Reused(k, cached[k], ports[i])
    else
      var first := FirstUncached(ports, cached, i);
      sp == SvcPair(got.ip, ports[i], true, false, if first then got.ident else IdentFor(shared, ports[i]), first)
  }

  ghost predicate IsFresh(ports: seq<SvcPort>, cached: map<RuleKey, Pair>, shared: bool, got: Held, pairs: seq<SvcPair>)
  {
    |pairs| == |ports| && forall i :: 0 <= i < |ports| ==> FreshPair(ports, cached, shared, got, i, pairs[i])
  }

  predicate AllCached(ports: seq<SvcPort>, cached: map<RuleKey, Pair>)
  {
    forall i :: 0 <= i < |ports| ==> CachedPort(cached, ports[i])
  }

  // What getIngressSvcPairs may return, and how often it called the pool.
  ghost predicate Finds(svc: Service, cached: map<RuleKey, Pair>, pool: Pool, naming: Naming, pairs: seq<SvcPair>, asked: nat)
  {
    var todo := Wants(ServiceIPs(svc, naming), svc.ports);
    if todo != [] then
      var f := ExistingPairs(todo, cached, pool);
      pairs == f.pairs && asked == f.asked
    else
      && (exists got :: IsFresh(svc.ports, cached, pool.shared, got, pairs))
      && asked == if AllCached(svc.ports, cached) then 0 else 1
  }

  // ---------- writing the status ----------

  predicate Named(sp: SvcPair)
  {
    sp.inRange || sp.staticIP
  }

  // GenExtIPName: one name, or the instances' for an unspecified address.
  function NamesOf(naming: Naming, ip: string): (names: seq<string>)
    ensures names != []
  {
    if !IsUnspecified(ip) then [ZoneName(naming.zone, ip, naming.isV6(ip))]
    else if naming.instAddrs == [] then [ANY_EXT_IP]
    else naming.instAddrs
  }

  predicate Says(g: Ingress, name: string)
  {
    (g.ip != "" && g.ip == name) || (g.hostname != "" && g.hostname == name)
  }

  predicate InStatus(status: seq<Ingress>, name: string)
  {
    exists i :: 0 <= i < |status| && Says(status[i], name)
  }

  function IngressFor(name: string): Ingress
  {
    if IsLiteral(name) then Ingress(name, "") else Ingress("", name)
  }

  function PublishNames(status: seq<Ingress>, names: seq<string>): (r: seq<Ingress>)
    ensures status <= r
  {
    if names == [] then status
    else
      var n := |names| - 1;
      var before := PublishNames(status, names[..n]);
      if InStatus(before, names[n]) then before else before + [IngressFor(names[n])]
  }

  // updateService.
  function Publish(status: seq<Ingress>, pairs: seq<SvcPair>, naming: Naming): (r: seq<Ingress>)
    ensures status <= r
  {
    if pairs == [] then status
    else
      var n := |pairs| - 1;
      var before := Publish(status, pairs[..n], naming);
      if Named(pairs[n]) then PublishNames(before, NamesOf(naming, pairs[n].ip)) else before
  }

  predicate AllInStatus(status: seq<Ingress>, names: seq<string>)
  {
    forall h :: 0 <= h < |names| ==> InStatus(status, names[h])
  }

  // checkUpdateExternalIP.
  predicate Stale(status: seq<Ingress>, pairs: seq<SvcPair>, naming: Naming)
  {
    exists i :: 0 <= i < |pairs| && Named(pairs[i]) && !AllInStatus(status, NamesOf(naming, pairs[i].ip))
  }
}
