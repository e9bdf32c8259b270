// Inputs that reach the states the conditional results speak of.

module Witnesses {
  import opened Basics
  import opened Rules
  import opened RuleAgreement
  import opened EndpointChanges
  import opened ServiceAddresses
  import opened PublishedStatus
  import opened Idempotence
  import opened IPPools
  import opened Text
  import opened IPText
  import IPRanges
  import RuleManager
  import Conservation

  // ---------- syncs in which every call succeeds ----------

  function Yes(): Oracle
  {
    (_, _) => true
  }

  lemma {:induction false} InstallSucceeds(tables: seq<Table>, done: map<RuleKey, Pair>, todo: seq<SvcPair>, e: Entry, input: Inputs)
    requires tables != [] && forall i :: 0 <= i < |todo| ==> TargetPorts(input.target, todo[i].port) != []
    ensures !InstallAll(tables, done, todo, e, input, Yes()).failed
    decreases |todo|
  {
    hide TargetPorts, MakeModel;
    if todo != [] {
      var sp, m := todo[0], MakeModel(e, input, todo[0]);
      assert Yes()(0, m.key) && !AllFail(|tables|, m.key, Yes());
      InstallSucceeds(Install(tables, m, Yes()), done[m.key := Pair(sp.inRange, sp.staticIP, sp.ident, [m])], todo[1..], e, input);
    }
  }

  lemma UpdateSucceeds(w: World, name: string, input: Inputs, pairs: seq<SvcPair>)
    requires w.tables != [] && forall i :: 0 <= i < |pairs| ==> TargetPorts(input.target, pairs[i].port) != []
    ensures Update(w, name, input, pairs, Yes(), Yes()).outcome.Updated?
  {
    hide TargetPorts, InstallAll;
    var was := Current(w, name, input);
    var tables := if Withdraws(w, name, input) then Withdraw(w.tables, Keys(was), Yes()) else w.tables;
    InstallSucceeds(tables, map[], RefreshedAll(pairs, was.pairs), was.(settings := Stored(input.settings), pairs := map[]), input);
  }

  const EMPTY := World(map[], [map[]])

  // A new service is always installed.
  lemma NewServiceUpdates(input: Inputs, pairs: seq<SvcPair>, stale: bool)
    requires input.endpoints != [] && forall i :: 0 <= i < |pairs| ==> TargetPorts(input.target, pairs[i].port) != []
    ensures var r := Reconcile(EMPTY, "svc", input, pairs, stale, Yes(), Yes());
      r.outcome.Updated? && r == Update(EMPTY, "svc", input, pairs, Yes(), Yes()) && "svc" in r.world.cache && |r.world.tables| == 1
  {
    hide TargetPorts, Update, EndpointsChanged;
    UpdateSucceeds(EMPTY, "svc", input, pairs);
    UpdateOutcome(EMPTY, "svc", input, pairs, Yes(), Yes());
    UpdatedEntry(EMPTY, "svc", input, pairs, Yes(), Yes());
    assert Incomplete(Current(EMPTY, "svc", input));
  }

  // ---------- first syncs ----------

  function Plain(): Naming
  {
    Naming("", false, [], _ => false)
  }

  function Outside(): Pool
  {
    Pool(false, _ => false, (_, _) => false)
  }

  // A new one-port service with an address of its own outside the pool.
  function FirstOf(ip: string, p: SvcPort, settings: Settings, target: Target): First
  {
    First(EMPTY, "svc", Service([p], [], [ip], ""), Plain(), Outside(), Inputs(settings, ["10.0.0.1"], target, "inst", "pool"),
          [SvcPair(ip, p, false, true, Unset, true)], 1, Yes(), Yes())
  }

  lemma NoOtherIP(svc: Service, naming: Naming)
    requires svc.status == [] && svc.staticIP == ""
    ensures ServiceIPs(svc, naming) == svc.externalIPs
  {
    assert !IsLiteral("");
  }

  lemma OneWant(ip: string, p: SvcPort)
    ensures Wants([ip], [p]) == [Want(ip, p)]
  {
    assert [ip][..0] == [] && Wants([], [p]) == [];
    assert OnEachPort(ip, [p]) == [Want(ip, p)];
  }

  lemma OneFound(x: Want, pool: Pool)
    requires !pool.contains(x.ip)
    ensures var g := ExistingPairs([x], map[], pool);
      g.pairs == [SvcPair(x.ip, x.port, false, true, Unset, true)] && g.asked == 1
  {
    hide IsLiteral;
    var none: seq<Want> := [];
    assert [x][..0] == none;
    assert ExistingPairs(none, map[], pool) == Found([], false, {}, 0);
  }

  lemma PlainReads(ip: string)
    requires IsLiteral(ip) && !IsUnspecified(ip)
    ensures Readable(Plain(), ip)
  {
    ReadableIff(Plain(), ip);
  }

  // For any ordinary address, port, settings and resolvable target it is a
  // first sync the theorem is about, and keeps its addresses.
  lemma FirstSyncUpdates(ip: string, p: SvcPort, settings: Settings, target: Target)
    requires IsLiteral(ip) && !IsUnspecified(ip) && TargetPorts(target, p) != []
    ensures var f := FirstOf(ip, p, settings, target);
      Looked(f) && After(f).outcome.Updated? && f.name in After(f).world.cache && AddressesKept(f)
  {
    hide IsLiteral, IsUnspecified, Stale, Update, Reconcile, Wants, ExistingPairs, ServiceIPs, IsFresh, Readable, TargetPorts, AddressesKept;
    var f := FirstOf(ip, p, settings, target);
    NoOtherIP(f.svc, f.naming);
    OneWant(ip, p);
    OneFound(Want(ip, p), f.pool);
    NewServiceUpdates(f.input, f.pairs, Stale(f.svc.status, f.pairs, f.naming));
    PlainReads(ip);
    ReadableNames(f.naming, ip);
    assert AllReadable(f.pairs, f.naming);
    AddressesKeptIff(f);
    assert KeyOf(f.pairs[0]) in NewKeys(f.pairs);
  }

  lemma ReadableNames(naming: Naming, ip: string)
    requires Readable(naming, ip)
    ensures Nameable(naming, ip)
  {
  }

  // A probe port past 16 bits breaks the first condition of SecondSyncIff.
  lemma WideProbePort(ip: string, p: SvcPort, settings: Settings)
    requires IsLiteral(ip) && !IsUnspecified(ip)
    ensures var f := FirstOf(ip, p, settings.(probePort := 0x1_0000), NodePorts);
      Looked(f) && After(f).outcome.Updated? && AddressesKept(f) && AllConsistent(f.pairs, f.input.target) && !Fits(f.input.settings)
  {
    hide Looked, AddressesKept, After;
    FirstSyncUpdates(ip, p, settings.(probePort := 0x1_0000), NodePorts);
  }

  // Pod ports checked against other slice ports break the third.
  lemma PodAgainstSlices(ip: string, p: SvcPort, settings: Settings)
    requires IsLiteral(ip) && !IsUnspecified(ip)
    ensures var f := FirstOf(ip, p, settings, PodAndSlices(map[p := 8080], [9090]));
      Looked(f) && After(f).outcome.Updated? && AddressesKept(f) && !AllConsistent(f.pairs, f.input.target)
  {
    hide Looked, AddressesKept, After, IsLiteral, IsUnspecified, SelfConsistent;
    var f := FirstOf(ip, p, settings, PodAndSlices(map[p := 8080], [9090]));
    FirstSyncUpdates(ip, p, settings, f.input.target);
    PortsDiffer(p);
    assert !SelfConsistent(f.input.target, f.pairs[0].port);
  }

  lemma PortsDiffer(p: SvcPort)
    ensures !SelfConsistent(PodAndSlices(map[p := 8080], [9090]), p)
  {
  }

  // ---------- a service that mixes addresses ----------

  // A pool's first address for a one-port service; then the status is lost and
  // a port is added, for which the pool gives another address.
  function FreshFirst(a: string, p: SvcPort, settings: Settings): First
  {
    First(EMPTY, "svc", Service([p], [], [], ""), Plain(), Outside(), Inputs(settings, ["10.0.0.1"], NodePorts, "inst", "pool"),
          [SvcPair(a, p, true, false, NoIdent, true)], 1, Yes(), Yes())
  }

  function MixedFirst(a: string, b: string, p: SvcPort, q: SvcPort, settings: Settings): First
  {
    var f := FreshFirst(a, p, settings);
    First(After(f).world, "svc", Service([p, q], [], [], ""), Plain(), Outside(), f.input,
          [SvcPair(a, p, true, false, NoIdent, false), SvcPair(b, q, true, false, NoIdent, true)], 1, Yes(), Yes())
  }

  lemma FreshLooks(a: string, p: SvcPort, settings: Settings)
    ensures var f := FreshFirst(a, p, settings);
      && Finds(f.svc, map[], f.pool, f.naming, f.pairs, 1) && After(f).outcome.Updated? && "svc" in After(f).world.cache
      && |After(f).world.tables| == 1 && After(f).world.cache["svc"].pairs.Keys == {RuleKey(a, p.num, p.proto)}
      && SameBooks(After(f).world.cache["svc"].pairs[RuleKey(a, p.num, p.proto)], true, false, NoIdent)
  {
    hide Update, Stale, ServiceIPs, Reconcile;
    var f := FreshFirst(a, p, settings);
    NoOtherIP(f.svc, f.naming);
    NewServiceUpdates(f.input, f.pairs, Stale(f.svc.status, f.pairs, f.naming));
    UpdatedEntry(f.w, f.name, f.input, f.pairs, Yes(), Yes());
    OneInstalled(f.input, f.pairs[0]);
    FreshOne(p, a);
  }

  lemma FreshOne(p: SvcPort, a: string)
    ensures IsFresh([p], map[], false, Held(a, NoIdent), [SvcPair(a, p, true, false, NoIdent, true)]) && !AllCached([p], map[])
  {
    assert !CachedPort(map[], [p][0]) && FirstUncached([p], map[], 0);
  }

  // What installing one pair leaves in the cache.
  lemma OneInstalled(input: Inputs, sp: SvcPair)
    requires TargetPorts(input.target, sp.port) != []
    ensures var r := Update(EMPTY, "svc", input, [sp], Yes(), Yes()).world;
      && "svc" in r.cache && r.cache["svc"].pairs.Keys == {KeyOf(sp)}
      && SameBooks(r.cache["svc"].pairs[KeyOf(sp)], sp.inRange, sp.staticIP, sp.ident)
  {
    hide Product, TargetPorts;
    var e := NewEntry(input).(settings := Stored(input.settings), pairs := map[]);
    var m := MakeModel(e, input, sp);
    assert RefreshedAll([sp], map[]) == [sp] && [sp][1..] == [];
    assert Yes()(0, m.key) && !AllFail(1, m.key, Yes());
    var done := map[m.key := Pair(sp.inRange, sp.staticIP, sp.ident, [m])];
    assert InstallAll(Install([map[]], m, Yes()), done, [], e, input, Yes()).pairs == done;
    assert InstallAll([map[]], map[], [sp], e, input, Yes()).pairs == done;
  }

  lemma MixedLooks(a: string, b: string, p: SvcPort, q: SvcPort, settings: Settings)
    requires Readable(Plain(), a) && Readable(Plain(), b) && p.num != q.num
    ensures Looked(MixedFirst(a, b, p, q, settings)) && |MixedFirst(a, b, p, q, settings).w.tables| == 1
  {
    hide After, FreshFirst, ServiceIPs, Readable, Wants, IsFresh, AllCached;
    var f := MixedFirst(a, b, p, q, settings);
    FreshLooks(a, p, settings);
    NoOtherIP(f.svc, f.naming);
    ReadableNames(f.naming, a);
    ReadableNames(f.naming, b);
    MixedFresh(a, b, p, q, f.w.cache["svc"].pairs);
  }

  lemma MixedUpdates(a: string, b: string, p: SvcPort, q: SvcPort, settings: Settings)
    requires |MixedFirst(a, b, p, q, settings).w.tables| == 1
    ensures After(MixedFirst(a, b, p, q, settings)).outcome.Updated?
  {
    hide Update, Stale, FreshFirst, EndpointsChanged, Incomplete, Delete;
    var f := MixedFirst(a, b, p, q, settings);
    FreshFirstParts(a, p, settings);
    MixedStale(a, b, p, q);
    UpdateSucceeds(f.w, "svc", f.input, f.pairs);
  }

  // Address a is not on port q: the second condition fails.
  lemma MixedAddresses(a: string, b: string, p: SvcPort, q: SvcPort, settings: Settings)
    requires IsLiteral(a) && !IsUnspecified(a) && IsLiteral(b) && !IsUnspecified(b) && a != b && p.num != q.num
    ensures var f := MixedFirst(a, b, p, q, settings);
      Looked(f) && After(f).outcome.Updated? && !AddressesKept(f) && AllConsistent(f.pairs, f.input.target)
  {
    hide IsLiteral, IsUnspecified, After, FreshFirst, Readable, AddressesKept, Looked;
    var f := MixedFirst(a, b, p, q, settings);
    PlainReads(a);
    PlainReads(b);
    MixedLooks(a, b, p, q, settings);
    MixedUpdates(a, b, p, q, settings);
    FreshFirstParts(a, p, settings);
    AddressesKeptIff(f);
    assert WantKey(Want(f.pairs[0].ip, f.svc.ports[1])) !in NewKeys(f.pairs);
  }

  lemma FreshFirstParts(a: string, p: SvcPort, settings: Settings)
    ensures FreshFirst(a, p, settings).input.endpoints != [] && FreshFirst(a, p, settings).input.target == NodePorts
  {
  }

  lemma MixedFresh(a: string, b: string, p: SvcPort, q: SvcPort, cached: map<RuleKey, Pair>)
    requires p.num != q.num && cached.Keys == {RuleKey(a, p.num, p.proto)}
    requires SameBooks(cached[RuleKey(a, p.num, p.proto)], true, false, NoIdent)
    ensures Wants([], [p, q]) == [] && Flagged(cached) && !AllCached([p, q], cached)
    ensures IsFresh([p, q], cached, false, Held(b, NoIdent), [SvcPair(a, p, true, false, NoIdent, false), SvcPair(b, q, true, false, NoIdent, true)])
  {
    var k := RuleKey(a, p.num, p.proto);
    assert k in cached && Matches(k, [p, q][0]) && CachedPort(cached, [p, q][0]);
    assert !CachedPort(cached, [p, q][1]) && FirstUncached([p, q], cached, 1);
  }

  lemma MixedStale(a: string, b: string, p: SvcPort, q: SvcPort)
    ensures Stale([], [SvcPair(a, p, true, false, NoIdent, false), SvcPair(b, q, true, false, NoIdent, true)], Plain())
  {
    var pairs := [SvcPair(a, p, true, false, NoIdent, false), SvcPair(b, q, true, false, NoIdent, true)];
    assert Named(pairs[0]) && !InStatus([], NamesOf(Plain(), pairs[0].ip)[0]);
  }

  // ---------- a port that is dropped ----------

  function PairAt(ip: string, p: SvcPort): SvcPair
  {
    SvcPair(ip, p, false, true, Unset, true)
  }

  function OnePod(settings: Settings, endpoint: string): Inputs
  {
    Inputs(settings, [endpoint], NodePorts, "inst", "pool")
  }

  // A service with two ports is installed on a new client; then one port is
  // dropped while an endpoint moves. The sync updates without withdrawing, and
  // the client keeps a rule that no service owns.
  lemma DroppedPort(ip: string, p: SvcPort, q: SvcPort, settings: Settings)
    requires p.num != q.num && Fits(settings)
    ensures var w := Reconcile(EMPTY, "svc", OnePod(settings, "10.0.0.1"), [PairAt(ip, p), PairAt(ip, q)], true, Yes(), Yes()).world;
      var r := Reconcile(w, "svc", OnePod(settings, "10.0.0.2"), [PairAt(ip, p)], false, Yes(), Yes());
      var k := KeyOf(PairAt(ip, q));
      && r.outcome.Updated? && |r.world.tables| == 1 && k in r.world.tables[0] && r.world.tables[0][k].endpoints != []
      && WellCached(r.world.cache) && !NoStray(r.world.cache, r.world.tables[0])
  {
    hide Update, Differs, Product, NoStray, Disjoint, WellFormed, Holds, SameElsewhere, CachesAll, Incomplete, EndpointsChanged;
    var pairs, input, later := [PairAt(ip, p), PairAt(ip, q)], OnePod(settings, "10.0.0.1"), OnePod(settings, "10.0.0.2");
    NewServiceUpdates(input, pairs, true);
    UpdatedEntry(EMPTY, "svc", input, pairs, Yes(), Yes());
    var w := Update(EMPTY, "svc", input, pairs, Yes(), Yes()).world;
    FirstInstall(ip, p, q, input, w);
    SettingsKept(settings);
    EndpointMoved(ip, p, q, input, later, w.cache["svc"]);
    UpdateSucceeds(w, "svc", later, [PairAt(ip, p)]);
    OnlyService(w.cache);
    UpdatedCache(w, "svc", later, [PairAt(ip, p)], Yes(), Yes());
    var k := KeyOf(PairAt(ip, q));
    assert k !in NewKeys([PairAt(ip, p)]);
    DroppedRuleStays(w, "svc", later, [PairAt(ip, p)], Yes(), Yes(), 0, k);
  }

  lemma OnlyService(cache: map<string, Entry>)
    requires cache.Keys == {"svc"}
    ensures forall ks :: OwnKeys(cache, "svc", ks)
  {
  }

  // After the first sync the client holds both rules, as cached.
  lemma FirstInstall(ip: string, p: SvcPort, q: SvcPort, input: Inputs, w: World)
    requires input.endpoints != [] && input.target == NodePorts
    requires w == Update(EMPTY, "svc", input, [PairAt(ip, p), PairAt(ip, q)], Yes(), Yes()).world
    requires Update(EMPTY, "svc", input, [PairAt(ip, p), PairAt(ip, q)], Yes(), Yes()).outcome.Updated?
    ensures WellCached(w.cache) && |w.tables| == 1 && w.cache.Keys == {"svc"} && CachesAll(w.cache["svc"], [PairAt(ip, p), PairAt(ip, q)], input)
    ensures var k := KeyOf(PairAt(ip, q)); k in w.cache["svc"].pairs && k in w.tables[0] && w.tables[0][k].endpoints != []
  {
    hide Update, Product, Disjoint, WellFormed;
    var pairs := [PairAt(ip, p), PairAt(ip, q)];
    var k := KeyOf(PairAt(ip, q));
    UpdatedEntry(EMPTY, "svc", input, pairs, Yes(), Yes());
    NothingCached();
    UpdatedCache(EMPTY, "svc", input, pairs, Yes(), Yes());
    UpdatedTable(EMPTY, "svc", input, pairs, Yes(), Yes(), 0);
    assert w.cache.Keys == {"svc"} by {
      forall n | n in w.cache ensures n == "svc" { if n != "svc" { OtherEntry(map[], w.cache, "svc", n); } }
    }
    assert k == KeyOf(pairs[1]) && k in NewKeys(pairs);
    assert BuiltFrom(w.cache["svc"].pairs[k], k, pairs, input);
    var j :| 0 <= j < |pairs| && KeyOf(pairs[j]) == k && w.cache["svc"].pairs[k].models[0].endpoints == Built(input, pairs[j]);
    assert |Built(input, pairs[j])| == |input.endpoints| * 1;
  }

  lemma NothingCached()
    ensures WellCached(map[])
  {
  }

  // The endpoint moved, so the cached models differ.
  lemma EndpointMoved(ip: string, p: SvcPort, q: SvcPort, input: Inputs, later: Inputs, e: Entry)
    requires CachesAll(e, [PairAt(ip, p), PairAt(ip, q)], input) && input.target == NodePorts && later.target == NodePorts
    requires input.endpoints == ["10.0.0.1"] && later.endpoints == ["10.0.0.2"]
    ensures EndpointsChanged(e, later)
  {
    hide Product, Differs;
    var pairs := [PairAt(ip, p), PairAt(ip, q)];
    var k := KeyOf(pairs[0]);
    assert k in NewKeys(pairs) && BuiltFrom(e.pairs[k], k, pairs, input);
    var j :| 0 <= j < |pairs| && KeyOf(pairs[j]) == k && e.pairs[k].models[0].endpoints == Built(input, pairs[j]);
    var eps := e.pairs[k].models[0].endpoints;
    SingleTarget(input.endpoints, TargetPorts(input.target, pairs[j].port));
    DiffersIsCover(later, eps);
    assert later.endpoints[0] !in Addresses(eps) by { assert "10.0.0.2"[7] != "10.0.0.1"[7]; }
    assert Differs(later, e.pairs[k].models[0].endpoints);
  }

  // ---------- a deletion that frees another's address ----------

  function OwnAndFurther(ip: string, p: SvcPort, q: SvcPort): seq<SvcPair>
  {
    [SvcPair(ip, p, true, false, PortIdent(p.num, p.proto), true), SvcPair(ip, q, true, false, PortIdent(q.num, q.proto), false)]
  }

  // In a shared pool a new service with two ports gets an address that another
  // service has on the second port, and is deleted again: the pool has then lost
  // the other's hold.
  lemma DeletionFreesAnothers(ip: string, p: SvcPort, q: SvcPort, settings: Settings, contains: string -> bool)
    requires p.num != q.num && IsLiteral(ip) && contains(ip)
    ensures var got, others := Held(ip, PortIdent(p.num, p.proto)), {Held(ip, PortIdent(q.num, q.proto))};
      var u := Update(EMPTY, "svc", OnePod(settings, "10.0.0.1"), OwnAndFurther(ip, p, q), Yes(), Yes());
      var d := Delete(u.world, "svc", true, Yes());
      && IsFresh([p, q], map[], true, got, OwnAndFurther(ip, p, q)) && u.outcome.Updated? && !d.failed
      && RuleManager.GivenBack(others + {got}, d.released, contains) != others
  {
    hide Update, IsLiteral, RuleManager.GivenBack, Withdraw, Releases;
    var got, others := Held(ip, PortIdent(p.num, p.proto)), {Held(ip, PortIdent(q.num, q.proto))};
    var pairs, input := OwnAndFurther(ip, p, q), OnePod(settings, "10.0.0.1");
    TwoFresh(ip, p, q);
    UpdateSucceeds(EMPTY, "svc", input, pairs);
    UpdateOutcome(EMPTY, "svc", input, pairs, Yes(), Yes());
    UpdatedEntry(EMPTY, "svc", input, pairs, Yes(), Yes());
    assert Conservation.HeldFor([p, q][1], true, ip, others);
    Conservation.FreshThenDeletedIff(EMPTY, "svc", input, [p, q], true, got, pairs, Yes(), Yes(), Yes(), contains, others);
  }

  lemma TwoFresh(ip: string, p: SvcPort, q: SvcPort)
    ensures IsFresh([p, q], map[], true, Held(ip, PortIdent(p.num, p.proto)), OwnAndFurther(ip, p, q))
  {
    assert !CachedPort(map[], [p, q][0]) && FirstUncached([p, q], map[], 0) && !FirstUncached([p, q], map[], 1);
  }

  // ---------- an instance that comes back ----------

  // One instance installs a service and leaves; the service is deleted while it
  // is away; it comes back with the rules it held, and the replay is complete.
  function Rejoining(input: Inputs, pairs: seq<SvcPair>, t: Table): seq<Event>
  {
    [Reconciles("svc", input, pairs, true, Yes(), Yes()), Purges(0), Removes("svc", Yes()), Joins(t), Alive(0, Yes())]
  }

  lemma InstallStep(ip: string, p: SvcPort, q: SvcPort, settings: Settings) returns (after: Plane)
    ensures var ev := Reconciles("svc", OnePod(settings, "10.0.0.1"), [PairAt(ip, p), PairAt(ip, q)], true, Yes(), Yes());
      Allowed(Started(1), ev) && RuleAgreement.Next(Started(1), ev) == after
    ensures |after.world.tables| == 1 && after.world.cache.Keys == {"svc"} && after.clean <= {0} && after.ready == {}
    ensures var k := KeyOf(PairAt(ip, q)); k in after.world.tables[0] && after.world.tables[0][k].endpoints != []
  {
    hide Update, StaysClean, WellFormed, Disjoint, CachesAll, Reconcile;
    var input, pairs := OnePod(settings, "10.0.0.1"), [PairAt(ip, p), PairAt(ip, q)];
    assert Started(1).world == EMPTY;
    NewServiceUpdates(input, pairs, true);
    FirstInstall(ip, p, q, input, Update(EMPTY, "svc", input, pairs, Yes(), Yes()).world);
    after := RuleAgreement.Next(Started(1), Reconciles("svc", input, pairs, true, Yes(), Yes()));
  }

  lemma AwayStep(p: Plane) returns (left: Plane, after: Plane)
    requires |p.world.tables| == 1 && p.world.cache.Keys == {"svc"} && p.clean <= {0} && p.ready == {}
    ensures left == RuleAgreement.Next(p, Purges(0)) && after == RuleAgreement.Next(left, Removes("svc", Yes()))
    ensures after.world == World(map[], []) && after.clean == {} == after.ready
  {
    left := RuleAgreement.Next(p, Purges(0));
    after := RuleAgreement.Next(left, Removes("svc", Yes()));
    assert left.clean == {} == left.ready;
    assert left.world.tables == [] && left.world.cache - {"svc"} == map[];
  }

  lemma BackStep(p: Plane, t: Table, k: RuleKey) returns (joined: Plane, after: Plane)
    requires p.world == World(map[], []) && p.clean == {} == p.ready && k in t && t[k].endpoints != []
    ensures joined == RuleAgreement.Next(p, Joins(t)) && Allowed(joined, Alive(0, Yes())) && after == RuleAgreement.Next(joined, Alive(0, Yes()))
    ensures after.world == World(map[], [t]) && after.clean == {} == after.ready
    ensures WellCached(map[]) && !NoStray(map[], t)
  {
    NothingCached();
    joined := RuleAgreement.Next(p, Joins(t));
    after := RuleAgreement.Next(joined, Alive(0, Yes()));
    assert CachedKeys(map[]) == {} && !Keyed(map[], t);
    assert Replayed(map[], t, 0, Yes()) == t;
  }

  // The instance keeps a rule that no service owns, and counts as neither clean
  // nor ready.
  lemma RejoinedInstance(ip: string, p: SvcPort, q: SvcPort, settings: Settings) returns (run: seq<Plane>, t: Table)
    ensures IsRun(run, Rejoining(OnePod(settings, "10.0.0.1"), [PairAt(ip, p), PairAt(ip, q)], t))
    ensures |run| == 6 && |run[1].world.tables| == 1 && run[1].world.tables[0] == t
    ensures run[5].world == World(map[], [t]) && run[5].clean == {} == run[5].ready
    ensures WellCached(map[]) && !NoStray(map[], t)
  {
    hide RuleAgreement.Next, NoStray, WellFormed, Disjoint;
    var first := InstallStep(ip, p, q, settings);
    t := first.world.tables[0];
    var left, gone := AwayStep(first);
    var joined, back := BackStep(gone, t, KeyOf(PairAt(ip, q)));
    run := [Started(1), first, left, gone, joined, back];
  }

  // ---------- an address its range does not recognise ----------

  predicate Octets(s: seq<nat>)
  {
    |s| == 16 && forall i :: 0 <= i < 16 ==> s[i] < 256
  }

  // Contains of a pool given as a range of IPv4 addresses.
  function RangePool(start: IPRanges.Address, last: IPRanges.Address): string -> bool
  {
    (ip: string) => IsLiteral(ip) && Octets(ParseIP(ip).value) && IPRanges.InRange(start, last, ParseIP(ip).value, true)
  }

  lemma Parts(s: string, n: nat)
    requires n < |s| && s[n] == '.' && forall i :: 0 <= i < n ==> s[i] != '.'
    ensures Split(s, '.') == [s[..n]] + Split(s[n + 1..], '.')
  {
    assert IndexOf(s, '.') == n;
  }

  lemma LastPart(s: string)
    requires forall i :: 0 <= i < |s| ==> s[i] != '.'
    ensures Split(s, '.') == [s]
  {
    assert IndexOf(s, '.') == |s|;
  }

  lemma FourParts()
    ensures Split("10.0.0.200", '.') == ["10", "0", "0", "200"]
  {
    hide Split, IndexOf;
    var s := "10.0.0.200";
    Parts(s, 2);
    assert s[..2] == "10" && s[3..] == "0.0.200";
    Parts("0.0.200", 1);
    assert "0.0.200"[..1] == "0" && "0.0.200"[2..] == "0.200";
    Parts("0.200", 1);
    assert "0.200"[..1] == "0" && "0.200"[2..] == "200";
    LastPart("200");
  }

  lemma Decimals()
    ensures Number("10", 10) == 10 && Number("0", 10) == 0 && Number("200", 10) == 200
  {
    assert "0"[..0] == "" && Number("0", 10) == 0;
    assert "1"[..0] == "" && Number("1", 10) == 1 && "10"[..1] == "1";
    assert "2"[..0] == "" && Number("2", 10) == 2 && "20"[..1] == "2" && Number("20", 10) == 20 && "200"[..2] == "20";
  }

  lemma ParsesTo()
    ensures ParseIP("10.0.0.200").Some? && ParseIP("10.0.0.200").value == IPRanges.V4(10, 0, 0, 200)
  {
    hide Split, Number, Zeros;
    FourParts();
    Decimals();
    assert Mark("10.0.0.200") == 2 by { MarkAt("10.0.0.200", 2); }
    assert Zeros(10) == [0, 0, 0, 0, 0, 0, 0, 0, 0, 0] by { TenZeros(); }
  }

  lemma MarkAt(s: string, n: nat)
    requires n < |s| && s[n] in ".:%" && forall i :: 0 <= i < n ==> s[i] !in ".:%"
    ensures Mark(s) == n
  {
  }

  lemma TenZeros()
    ensures Zeros(10) == [0, 0, 0, 0, 0, 0, 0, 0, 0, 0]
  {
  }

  // 10.0.0.200 lies in the range 10.0.0.5-10.0.1.10, but not for the check.
  lemma RangeRefusesOwn()
    ensures var start, last, ip := IPRanges.V4(10, 0, 0, 5), IPRanges.V4(10, 0, 1, 10), IPRanges.V4(10, 0, 0, 200);
      IPRanges.Between(start, last, ip) && !IPRanges.InRange(start, last, ip, true)
  {
  }

  // So a failed first sync of a service that was given it leaks the address.
  lemma FreshRollbackLeaks(p: SvcPort)
    ensures var got := Held("10.0.0.200", NoIdent);
      var pairs, contains := [SvcPair(got.ip, p, true, false, NoIdent, true)], RangePool(IPRanges.V4(10, 0, 0, 5), IPRanges.V4(10, 0, 1, 10));
      IsFresh([p], map[], false, got, pairs) && ({} + {got}) - Returned(pairs, contains) == {got}
  {
    hide IsLiteral, ParseIP;
    var got, contains := Held("10.0.0.200", NoIdent), RangePool(IPRanges.V4(10, 0, 0, 5), IPRanges.V4(10, 0, 1, 10));
    FreshOne(p, got.ip);
    ParsesTo();
    RangeRefusesOwn();
    assert !contains(got.ip);
    FreshRollbackIff([p], map[], false, got, [SvcPair(got.ip, p, true, false, NoIdent, true)], contains, {});
  }
}
