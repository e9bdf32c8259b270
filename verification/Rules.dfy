// The rule cache and the reconciler's decisions, as values
// (pkg/agent/manager/loadbalancer/loadbalancer.go:397-1117, 1208-1273,
// 1531-1611, 1936-2039, 2576-2603).

module Rules {
  type Port16 = p: nat | p < 0x1_0000

  // A loxilb instance identifies a rule by these (pkg/api/lb.go, deleteKey).
  datatype RuleKey = RuleKey(ip: string, port: Port16, proto: string)

  datatype Endpoint = Endpoint(ip: string, port: Port16, weight: nat)

  // What annotations set and the cache entry remembers.
  datatype Settings = Settings(
    addr: string, nodeLabel: string, timeout: int, liveness: bool, lbMode: int,
    probeType: string, probePort: int, probeReq: string, probeResp: string,
    probeTimeout: nat, probeRetries: int, epSelect: nat, ppv2: bool, egress: bool)

  datatype Model = Model(key: RuleKey, settings: Settings, inst: string, endpoints: seq<Endpoint>)

  // What a pool files an address under: nothing, or a port and protocol when
  // the pool is shared between services.
  datatype Ident = Unset | NoIdent | PortIdent(port: Port16, proto: string)

  datatype Pair = Pair(inRange: bool, staticIP: bool, ident: Ident, models: seq<Model>)

  datatype Entry = Entry(settings: Settings, inst: string, pool: string, pairs: map<RuleKey, Pair>)

  datatype SvcPort = SvcPort(num: Port16, proto: string, nodePort: nat)

  datatype SvcPair = SvcPair(ip: string, port: SvcPort, inRange: bool, staticIP: bool, ident: Ident, allocd: bool)

  type Table = map<RuleKey, Model>

  datatype World = World(cache: map<string, Entry>, tables: seq<Table>)

  // Whether the call to client i about a rule succeeds.
  type Oracle = (nat, RuleKey) -> bool

  // How endpoint ports are found: the service's node port, the pod's port, or
  // the ports of the endpoint slices (external-endpoint mode). With pod and
  // external mode both on, models are built from pod ports and checked against
  // slice ports. A pod port that cannot be resolved is absent; NoSlices and
  // PodAndNoSlices stand for slices that cannot be read.
  datatype Target =
    | NodePorts
    | PodPorts(resolved: map<SvcPort, nat>)
    | SlicePorts(ports: seq<nat>)
    | PodAndSlices(resolved: map<SvcPort, nat>, ports: seq<nat>)
    | NoSlices
    | PodAndNoSlices(resolved: map<SvcPort, nat>)
  {
    predicate ByPorts()
    {
      SlicePorts? || PodAndSlices?
    }

    predicate Unreadable()
    {
      NoSlices? || PodAndNoSlices?
    }
  }

  datatype Inputs = Inputs(settings: Settings, endpoints: seq<string>, target: Target, inst: string, pool: string)

  function KeyOf(sp: SvcPair): RuleKey
  {
    RuleKey(sp.ip, sp.port.num, sp.port.proto)
  }

  // ---------- building a model ----------

  function TargetPorts(t: Target, p: SvcPort): seq<nat>
  {
    match t
    case NodePorts => [p.nodePort]
    case PodPorts(r) => if p in r then [r[p]] else []
    case SlicePorts(ports) => ports
    case PodAndSlices(r, _) => if p in r then [r[p]] else []
    case NoSlices => []
    case PodAndNoSlices(r) => if p in r then [r[p]] else []
  }

  function OnPorts(ip: string, ports: seq<nat>): (eps: seq<Endpoint>)
    ensures |eps| == |ports|
    ensures forall i :: 0 <= i < |ports| ==> eps[i] == Endpoint(ip, ports[i] % 0x1_0000, 1)
  {
    seq(|ports|, i requires 0 <= i < |ports| => Endpoint(ip, ports[i] % 0x1_0000, 1))
  }

  // Every endpoint address on every target port, addresses outermost.
  function Product(ips: seq<string>, ports: seq<nat>): (eps: seq<Endpoint>)
    ensures |eps| == |ips| * |ports|
  {
    if ips == [] then [] else
      assert |ips| * |ports| == (|ips| - 1) * |ports| + |ports|;
      Product(ips[..|ips| - 1], ports) + OnPorts(ips[|ips| - 1], ports)
  }

  // The model of a pair; endpoints are never empty when it can be built.
  function MakeModel(e: Entry, input: Inputs, sp: SvcPair): Model
  {
    Model(KeyOf(sp), e.settings, e.inst, Product(input.endpoints, TargetPorts(input.target, sp.port)))
  }

  // ---------- has the endpoint list changed? ----------

  predicate HasIP(eps: seq<Endpoint>, ip: string)
  {
    exists i :: 0 <= i < |eps| && eps[i].ip == ip
  }

  predicate HasEndpoint(eps: seq<Endpoint>, w: Endpoint)
  {
    exists i :: 0 <= i < |eps| && eps[i].ip == w.ip && eps[i].port == w.port
  }

  predicate Differs(input: Inputs, eps: seq<Endpoint>)
  {
    if input.target.ByPorts() then
      var want := Product(input.endpoints, input.target.ports);
      |want| != |eps| || exists i :: 0 <= i < |want| && !HasEndpoint(eps, want[i])
    else
      |input.endpoints| != |eps| || exists i :: 0 <= i < |input.endpoints| && !HasIP(eps, input.endpoints[i])
  }

  // checkUpdateEndpoints.
  predicate EndpointsChanged(e: Entry, input: Inputs)
  {
    || input.target.Unreadable()
    || exists k, j :: k in e.pairs && 0 <= j < |e.pairs[k].models| && Differs(input, e.pairs[k].models[j].endpoints)
  }

  // ---------- withdrawing rules ----------

  // The rules a service has in the cache.
  function Keys(e: Entry): (ks: set<RuleKey>)
  {
    set k, j | k in e.pairs && 0 <= j < |e.pairs[k].models| :: e.pairs[k].models[j].key
  }

  predicate Acked(n: nat, ks: set<RuleKey>, ok: Oracle)
  {
    forall i, k :: 0 <= i < n && k in ks ==> ok(i, k)
  }

  // Every client is asked to delete every rule, whatever others answer.
  function Withdraw(tables: seq<Table>, ks: set<RuleKey>, ok: Oracle): (r: seq<Table>)
    ensures |r| == |tables|
  {
    seq(|tables|, i requires 0 <= i < |tables| => tables[i] - (set k | k in ks && ok(i, k)))
  }

  // What a pool hands out.
  datatype Held = Held(ip: string, ident: Ident)

  // The addresses a service gives back to its pool.
  function Releases(e: Entry): (r: set<Held>)
  {
    set k | k in e.pairs && e.pairs[k].inRange :: Held(k.ip, e.pairs[k].ident)
  }

  datatype Deletion = Deletion(world: World, released: set<Held>, failed: bool)

  // deleteLoadBalancer.
  function Delete(w: World, name: string, releaseAll: bool, ok: Oracle): Deletion
  {
    if name !in w.cache then Deletion(w, {}, false)
    else
      var e := w.cache[name];
      var tables := Withdraw(w.tables, Keys(e), ok);
      if !Acked(|w.tables|, Keys(e), ok) then Deletion(World(w.cache, tables), {}, true)
      else if releaseAll then Deletion(World(w.cache - {name}, tables), Releases(e), false)
      else Deletion(World(w.cache, tables), {}, false)
  }

  // The first n models lose their endpoints.
  function Emptied(models: seq<Model>, n: nat): (r: seq<Model>)
    requires n <= |models|
    ensures |r| == |models|
    ensures forall j :: 0 <= j < |models| ==> r[j] == if j < n then models[j].(endpoints := []) else models[j]
  {
    seq(|models|, j requires 0 <= j < |models| => if j < n then models[j].(endpoints := []) else models[j])
  }

  function EmptiedPair(p: Pair): Pair
  {
    p.(models := Emptied(p.models, |p.models|))
  }

  // removeAllCacheEndpoints.
  function WithoutEndpoints(e: Entry): (r: Entry)
  {
    e.(pairs := map k | k in e.pairs :: EmptiedPair(e.pairs[k]))
  }

  // ---------- installing rules ----------

  function Install(tables: seq<Table>, m: Model, ok: Oracle): (r: seq<Table>)
    ensures |r| == |tables|
  {
    seq(|tables|, i requires 0 <= i < |tables| => if ok(i, m.key) then tables[i][m.key := m] else tables[i])
  }

  predicate AllFail(n: nat, k: RuleKey, ok: Oracle)
  {
    forall i :: 0 <= i < n ==> !ok(i, k)
  }

  datatype Installed = Installed(tables: seq<Table>, pairs: map<RuleKey, Pair>, failed: bool)

  // Pairs are handled in order; one that cannot be built, or that every client
  // refuses, ends the sync with what was done so far.
  function InstallAll(tables: seq<Table>, done: map<RuleKey, Pair>, todo: seq<SvcPair>, e: Entry, input: Inputs, ok: Oracle): (r: Installed)
    ensures |r.tables| == |tables|
    decreases |todo|
  {
    if todo == [] then Installed(tables, done, false)
    else
      var sp, m := todo[0], MakeModel(e, input, todo[0]);
      if TargetPorts(input.target, sp.port) == [] then Installed(tables, done, true)
      else if AllFail(|tables|, m.key, ok) then Installed(Install(tables, m, ok), done, true)
      else InstallAll(Install(tables, m, ok), done[m.key := Pair(sp.inRange, sp.staticIP, sp.ident, [m])],
                      todo[1..], e, input, ok)
  }

  // ---------- one reconcile ----------

  datatype Outcome = Rejected | Withdrawn | WithdrawFailed | Unchanged | Updated | InstallFailed

  datatype Sync = Sync(world: World, outcome: Outcome)

  // The cache keeps the probe port in 16 bits.
  function Stored(s: Settings): Settings
  {
    s.(probePort := s.probePort % 0x1_0000)
  }

  // A new entry remembers every setting but the egress flag.
  function NewEntry(input: Inputs): Entry
  {
    Entry(Stored(input.settings).(egress := false), input.inst, input.pool, map[])
  }

  // Pool bookkeeping of a pair that was cached before is kept.
  function Refreshed(sp: SvcPair, old_: map<RuleKey, Pair>): SvcPair
  {
    if KeyOf(sp) in old_ then
      var p := old_[KeyOf(sp)];
      sp.(inRange := p.inRange, staticIP := p.staticIP, ident := p.ident)
    else sp
  }

  function RefreshedAll(sps: seq<SvcPair>, old_: map<RuleKey, Pair>): (r: seq<SvcPair>)
    ensures |r| == |sps|
    ensures forall i :: 0 <= i < |sps| ==> r[i] == Refreshed(sps[i], old_)
  {
    seq(|sps|, i requires 0 <= i < |sps| => Refreshed(sps[i], old_))
  }

  predicate Incomplete(e: Entry)
  {
    e.pairs == map[] || exists k :: k in e.pairs && e.pairs[k].models == []
  }

  function Current(w: World, name: string, input: Inputs): Entry
  {
    if name in w.cache then w.cache[name] else NewEntry(input)
  }

  // An update of a cached service whose settings changed withdraws first, and
  // goes on whether or not that succeeds.
  predicate Withdraws(w: World, name: string, input: Inputs)
  {
    name in w.cache && input.settings != w.cache[name].settings
  }

  function Update(w: World, name: string, input: Inputs, pairs: seq<SvcPair>, okDel: Oracle, okAdd: Oracle): Sync
  {
    var was := Current(w, name, input);
    var e := was.(settings := Stored(input.settings), pairs := map[]);
    var tables := if Withdraws(w, name, input) then Withdraw(w.tables, Keys(was), okDel) else w.tables;
    var r := InstallAll(tables, map[], RefreshedAll(pairs, was.pairs), e, input, okAdd);
    Sync(World(w.cache[name := e.(pairs := r.pairs)], r.tables), if r.failed then InstallFailed else Updated)
  }

  // addLoadBalancer, from the point where the service's addresses are known:
  // pairs is what getIngressSvcPairs returned and stale what
  // checkUpdateExternalIP found.
  function Reconcile(w: World, name: string, input: Inputs, pairs: seq<SvcPair>, stale: bool, okDel: Oracle, okAdd: Oracle): Sync
  {
    var was := Current(w, name, input);
    if w.tables == [] || (name !in w.cache && input.endpoints == []) then Sync(w, Rejected)
    else if input.endpoints == [] then
      var d := Delete(w, name, false, okDel);
      if d.failed then Sync(d.world, WithdrawFailed)
      else Sync(World(d.world.cache[name := WithoutEndpoints(w.cache[name])], d.world.tables), Withdrawn)
    else if Incomplete(was) || input.settings != was.settings || EndpointsChanged(was, input) || stale
    then Update(w, name, input, pairs, okDel, okAdd)
    else Sync(w, Unchanged)
  }

  // ---------- replay to a client that came alive ----------

  // Every cached rule of every service.
  function Cached(cache: map<string, Entry>): (s: set<Model>)
  {
    set n, k, j | n in cache && k in cache[n].pairs && 0 <= j < |cache[n].pairs[k].models| :: cache[n].pairs[k].models[j]
  }
}
