// A second sync of an unchanged service does nothing: exactly when
// (pkg/agent/manager/loadbalancer/loadbalancer.go:825-1002, 1119-1155,
// 1515-1611, 1667-1701, 1772-1866).

module Idempotence {
  import opened Rules
  import opened RuleAgreement
  import opened EndpointChanges
  import opened ServiceAddresses
  import opened PublishedStatus

  // ---------- addresses and ports ----------

  // Every address the sync used is cached on every port. Fails only when a
  // service without an address mixes cached and new addresses.
  ghost predicate Rectangular(pairs: seq<SvcPair>, ports: seq<SvcPort>)
  {
    forall i, j :: 0 <= i < |pairs| && 0 <= j < |ports| ==> WantKey(Want(pairs[i].ip, ports[j])) in NewKeys(pairs)
  }

  // With addresses of its own a service always gets all of them on all ports;
  // without, exactly when one address serves every port.
  lemma RectangularIff(svc: Service, cached: map<RuleKey, Pair>, pool: Pool, naming: Naming, pairs: seq<SvcPair>, asked: nat)
    requires svc.ports != [] && DistinctKeys(svc.ports) && Finds(svc, cached, pool, naming, pairs, asked)
    ensures Rectangular(pairs, svc.ports) <==>
      ServiceIPs(svc, naming) != [] || forall i, j :: 0 <= i < |pairs| && 0 <= j < |pairs| ==> pairs[i].ip == pairs[j].ip
  {
    hide ServiceIPs;
    var ips, ports := ServiceIPs(svc, naming), svc.ports;
    if ips != [] {
      assert Want(ips[0], ports[0]) in Wants(ips, ports);
      ExistingRectangular(ips, ports, cached, pool);
    } else {
      var got :| IsFresh(ports, cached, pool.shared, got, pairs);
      forall i | 0 <= i < |pairs| ensures KeyOf(pairs[i]) == WantKey(Want(pairs[i].ip, ports[i])) {
        assert FreshPair(ports, cached, pool.shared, got, i, pairs[i]);
      }
      FreshRectangular(ports, pairs);
    }
  }

  lemma ExistingRectangular(ips: seq<string>, ports: seq<SvcPort>, cached: map<RuleKey, Pair>, pool: Pool)
    ensures Rectangular(ExistingPairs(Wants(ips, ports), cached, pool).pairs, ports)
  {
    hide Wants, ExistingPairs;
    var todo := Wants(ips, ports);
    var pairs := ExistingPairs(todo, cached, pool).pairs;
    forall i, j | 0 <= i < |pairs| && 0 <= j < |ports| ensures WantKey(Want(pairs[i].ip, ports[j])) in NewKeys(pairs) {
      assert KeyOf(pairs[i]) == WantKey(todo[i]) && todo[i] in todo;
      var x := Want(pairs[i].ip, ports[j]);
      assert x in todo;
      var a :| 0 <= a < |todo| && todo[a] == x;
      assert KeyOf(pairs[a]) == WantKey(x);
    }
  }

  lemma FreshRectangular(ports: seq<SvcPort>, pairs: seq<SvcPair>)
    requires DistinctKeys(ports) && |pairs| == |ports|
    requires forall i :: 0 <= i < |pairs| ==> KeyOf(pairs[i]) == WantKey(Want(pairs[i].ip, ports[i]))
    ensures Rectangular(pairs, ports) <==>
      forall i, j :: 0 <= i < |pairs| && 0 <= j < |pairs| ==> pairs[i].ip == pairs[j].ip
  {
  }

  // The API server keeps a service's ports apart by number and protocol.
  predicate DistinctKeys(ports: seq<SvcPort>)
  {
    forall i, j :: 0 <= i < j < |ports| ==> ports[i].num != ports[j].num || ports[i].proto != ports[j].proto
  }

  // ---------- the pool calls of the second sync ----------

  // Every address the second sync reads is cached on every port.
  ghost predicate SeenCached(ips: seq<string>, ports: seq<SvcPort>, ks: set<RuleKey>)
  {
    forall i, j :: 0 <= i < |ips| && 0 <= j < |ports| ==> WantKey(Want(ips[i], ports[j])) in ks
  }

  lemma AsksOn(ips: seq<string>, ports: seq<SvcPort>, cached: map<RuleKey, Pair>, pool: Pool)
    ensures ExistingPairs(Wants(ips, ports), cached, pool).asked == 0 <==> SeenCached(ips, ports, cached.Keys)
  {
    hide Wants, ExistingPairs;
    var todo := Wants(ips, ports);
    if SeenCached(ips, ports, cached.Keys) {
      forall i | 0 <= i < |todo| ensures WantKey(todo[i]) in cached {
        assert todo[i] in todo;
        var a :| 0 <= a < |ips| && ips[a] == todo[i].ip;
        var b :| 0 <= b < |ports| && ports[b] == todo[i].port;
        assert WantKey(Want(ips[a], ports[b])) in cached.Keys;
      }
    } else {
      var a, b :| 0 <= a < |ips| && 0 <= b < |ports| && WantKey(Want(ips[a], ports[b])) !in cached.Keys;
      assert Want(ips[a], ports[b]) in todo;
      var i :| 0 <= i < |todo| && todo[i] == Want(ips[a], ports[b]);
    }
  }

  // A sync pairs every port.
  lemma EveryPortPaired(svc: Service, cached: map<RuleKey, Pair>, pool: Pool, naming: Naming, pairs: seq<SvcPair>, asked: nat, p: SvcPort)
    requires Finds(svc, cached, pool, naming, pairs, asked) && p in svc.ports
    ensures exists i :: 0 <= i < |pairs| && Matches(KeyOf(pairs[i]), p)
  {
    hide ServiceIPs, ExistingPairs, Wants;
    var ips := ServiceIPs(svc, naming);
    var todo := Wants(ips, svc.ports);
    var b :| 0 <= b < |svc.ports| && svc.ports[b] == p;
    if todo != [] {
      assert todo[0] in todo && Want(todo[0].ip, p) in todo;
      var i :| 0 <= i < |todo| && todo[i] == Want(todo[0].ip, p);
      assert Matches(KeyOf(pairs[i]), p);
    } else {
      var got :| IsFresh(svc.ports, cached, pool.shared, got, pairs);
      assert FreshPair(svc.ports, cached, pool.shared, got, b, pairs[b]);
    }
  }

  lemma AllPortsCached(svc: Service, was: map<RuleKey, Pair>, pool: Pool, naming: Naming, pairs: seq<SvcPair>, asked: nat, cached: map<RuleKey, Pair>)
    requires Finds(svc, was, pool, naming, pairs, asked) && cached.Keys == NewKeys(pairs)
    ensures AllCached(svc.ports, cached)
  {
    hide Finds;
    forall b | 0 <= b < |svc.ports| ensures CachedPort(cached, svc.ports[b]) {
      EveryPortPaired(svc, was, pool, naming, pairs, asked, svc.ports[b]);
      var i :| 0 <= i < |pairs| && Matches(KeyOf(pairs[i]), svc.ports[b]);
      assert KeyOf(pairs[i]) in cached;
    }
  }

  // Pairs found without a pool call are all cached ones.
  lemma FoundCached(svc: Service, cached: map<RuleKey, Pair>, pool: Pool, naming: Naming, pairs: seq<SvcPair>, i: nat)
    requires Finds(svc, cached, pool, naming, pairs, 0) && i < |pairs|
    ensures exists k :: k in cached && k.ip == pairs[i].ip
  {
    hide ServiceIPs, ExistingPairs, Wants;
    var todo := Wants(ServiceIPs(svc, naming), svc.ports);
    if todo != [] {
      assert WantKey(todo[i]) in cached && KeyOf(pairs[i]) == WantKey(todo[i]);
    } else {
      var got :| IsFresh(svc.ports, cached, pool.shared, got, pairs);
      assert FreshPair(svc.ports, cached, pool.shared, got, i, pairs[i]);
    }
  }

  // Every pair then found is published already.
  lemma NotStale(svc: Service, pairs: seq<SvcPair>, naming: Naming, cached: map<RuleKey, Pair>, pool': Pool, pairs': seq<SvcPair>)
    requires forall j :: 0 <= j < |pairs| ==> Named(pairs[j]) && Nameable(naming, pairs[j].ip)
    requires cached.Keys == NewKeys(pairs) && Finds(Published(svc, pairs, naming), cached, pool', naming, pairs', 0)
    ensures !Stale(Published(svc, pairs, naming).status, pairs', naming)
  {
    hide NamesOf, Finds, Publish, InStatus, Named;
    var status := Published(svc, pairs, naming).status;
    forall i | 0 <= i < |pairs'| ensures AllInStatus(status, NamesOf(naming, pairs'[i].ip)) {
      FoundCached(Published(svc, pairs, naming), cached, pool', naming, pairs', i);
      var k :| k in cached && k.ip == pairs'[i].ip;
      var j :| 0 <= j < |pairs| && KeyOf(pairs[j]) == k;
      forall h | 0 <= h < |NamesOf(naming, pairs[j].ip)| ensures InStatus(status, NamesOf(naming, pairs[j].ip)[h]) {
        PublishedAll(svc.status, pairs, naming, j, h);
      }
    }
  }

  // ---------- what the first sync cached ----------

  function Built(input: Inputs, sp: SvcPair): seq<Endpoint>
  {
    Product(input.endpoints, TargetPorts(input.target, sp.port))
  }

  ghost predicate BuiltFrom(p: Pair, k: RuleKey, todo: seq<SvcPair>, input: Inputs)
  {
    |p.models| == 1 && exists j :: 0 <= j < |todo| && KeyOf(todo[j]) == k && p.models[0].endpoints == Built(input, todo[j])
  }

  predicate SameBooks(p: Pair, inRange: bool, staticIP: bool, ident: Ident)
  {
    p.inRange == inRange && p.staticIP == staticIP && p.ident == ident
  }

  predicate IsOf(p: Pair, k: RuleKey, sp: SvcPair, input: Inputs)
  {
    && KeyOf(sp) == k && |p.models| == 1 && p.models[0].endpoints == Built(input, sp)
    && SameBooks(p, sp.inRange, sp.staticIP, sp.ident)
  }

  ghost predicate InstalledFrom(p: Pair, k: RuleKey, todo: seq<SvcPair>, input: Inputs)
  {
    exists j :: 0 <= j < |todo| && IsOf(p, k, todo[j], input)
  }

  lemma InstalledFromMore(p: Pair, k: RuleKey, todo: seq<SvcPair>, input: Inputs)
    requires todo != [] && (InstalledFrom(p, k, todo[1..], input) || IsOf(p, k, todo[0], input))
    ensures InstalledFrom(p, k, todo, input)
  {
    if InstalledFrom(p, k, todo[1..], input) {
      var j :| 0 <= j < |todo[1..]| && IsOf(p, k, todo[1..][j], input);
      assert todo[j + 1] == todo[1..][j];
    }
  }

  lemma {:induction false} InstalledModels(tables: seq<Table>, done: map<RuleKey, Pair>, todo: seq<SvcPair>, e: Entry, input: Inputs, ok: Oracle)
    requires !InstallAll(tables, done, todo, e, input, ok).failed
    ensures var r := InstallAll(tables, done, todo, e, input, ok);
      forall k :: k in r.pairs ==> (k in done && r.pairs[k] == done[k]) || InstalledFrom(r.pairs[k], k, todo, input)
    ensures forall j :: 0 <= j < |todo| ==> TargetPorts(input.target, todo[j].port) != []
    decreases |todo|
  {
    hide Product, TargetPorts, InstalledFrom;
    if todo != [] {
      var sp, m, rest := todo[0], MakeModel(e, input, todo[0]), todo[1..];
      var p := Pair(sp.inRange, sp.staticIP, sp.ident, [m]);
      InstalledModels(Install(tables, m, ok), done[m.key := p], rest, e, input, ok);
      var r := InstallAll(tables, done, todo, e, input, ok);
      assert IsOf(p, m.key, sp, input);
      forall k | k in r.pairs && !(k in done && r.pairs[k] == done[k]) ensures InstalledFrom(r.pairs[k], k, todo, input) {
        InstalledFromMore(r.pairs[k], k, todo, input);
      }
      assert forall j :: 0 < j < |todo| ==> todo[j] == rest[j - 1];
    }
  }

  // Pool bookkeeping of a rule that stays cached is what it was.
  ghost predicate KeepsBooks(p: Pair, k: RuleKey, was: map<RuleKey, Pair>)
  {
    k in was ==> SameBooks(p, was[k].inRange, was[k].staticIP, was[k].ident)
  }

  lemma RefreshedBuilt(p: Pair, k: RuleKey, pairs: seq<SvcPair>, was: map<RuleKey, Pair>, input: Inputs)
    requires InstalledFrom(p, k, RefreshedAll(pairs, was), input)
    ensures BuiltFrom(p, k, pairs, input) && KeepsBooks(p, k, was)
  {
    var todo := RefreshedAll(pairs, was);
    var j :| 0 <= j < |todo| && IsOf(p, k, todo[j], input);
    assert todo[j] == Refreshed(pairs[j], was);
    assert KeyOf(pairs[j]) == k && Built(input, pairs[j]) == Built(input, todo[j]);
  }

  ghost predicate CachesAll(e: Entry, pairs: seq<SvcPair>, input: Inputs)
  {
    && e.pairs.Keys == NewKeys(pairs)
    && (forall k :: k in e.pairs ==> BuiltFrom(e.pairs[k], k, pairs, input))
    && (forall j :: 0 <= j < |pairs| ==> TargetPorts(input.target, pairs[j].port) != [])
  }

  lemma InstalledEntry(tables: seq<Table>, pairs: seq<SvcPair>, was: map<RuleKey, Pair>, e: Entry, input: Inputs, ok: Oracle)
    requires !InstallAll(tables, map[], RefreshedAll(pairs, was), e, input, ok).failed
    ensures var now := InstallAll(tables, map[], RefreshedAll(pairs, was), e, input, ok).pairs;
      CachesAll(e.(pairs := now), pairs, input) && forall k :: k in now ==> KeepsBooks(now[k], k, was)
  {
    hide InstallAll, TargetPorts, BuiltFrom, InstalledFrom, KeepsBooks, NewKeys;
    var sps := RefreshedAll(pairs, was);
    RefreshedKeys(pairs, was);
    InstallAllPairs(tables, map[], sps, e, input, ok);
    PrefixKeys(sps, |sps|);
    InstalledModels(tables, map[], sps, e, input, ok);
    var r := InstallAll(tables, map[], sps, e, input, ok);
    forall k | k in r.pairs ensures BuiltFrom(r.pairs[k], k, pairs, input) && KeepsBooks(r.pairs[k], k, was) {
      RefreshedBuilt(r.pairs[k], k, pairs, was, input);
    }
    assert forall j :: 0 <= j < |pairs| ==> sps[j].port == pairs[j].port;
  }

  // An update caches one rule per pair, with the settings of now and the
  // endpoints of now, and forgets nothing a pool has to get back.
  lemma UpdatedEntry(w: World, name: string, input: Inputs, pairs: seq<SvcPair>, okDel: Oracle, okAdd: Oracle)
    requires Update(w, name, input, pairs, okDel, okAdd).outcome.Updated?
    ensures var r := Update(w, name, input, pairs, okDel, okAdd).world;
      && |r.tables| == |w.tables| && name in r.cache && r.cache[name].settings == Stored(input.settings)
      && CachesAll(r.cache[name], pairs, input)
      && forall k :: k in r.cache[name].pairs ==> KeepsBooks(r.cache[name].pairs[k], k, Current(w, name, input).pairs)
  {
    hide InstallAll, CachesAll, KeepsBooks, Withdraw, Keys;
    var was := Current(w, name, input);
    var tables := if Withdraws(w, name, input) then Withdraw(w.tables, Keys(was), okDel) else w.tables;
    InstalledEntry(tables, pairs, was.pairs, was.(settings := Stored(input.settings), pairs := map[]), input, okAdd);
  }

  ghost predicate AllConsistent(pairs: seq<SvcPair>, t: Target)
  {
    forall j :: 0 <= j < |pairs| ==> SelfConsistent(t, pairs[j].port)
  }

  lemma SamePort(ports: seq<SvcPort>, p: SvcPort, q: SvcPort)
    requires DistinctKeys(ports) && p in ports && q in ports && p.num == q.num && p.proto == q.proto
    ensures p == q
  {
  }

  lemma BuiltDiffers(e: Entry, pairs: seq<SvcPair>, input: Inputs, again: Inputs, ports: seq<SvcPort>, k: RuleKey, j: nat)
    requires CachesAll(e, pairs, input) && DistinctKeys(ports) && forall i :: 0 <= i < |pairs| ==> pairs[i].port in ports
    requires SameInputs(input, again) && input.endpoints != [] && !input.target.Unreadable()
    requires j < |pairs| && k in e.pairs && KeyOf(pairs[j]) == k
    ensures |e.pairs[k].models| == 1 && Differs(again, e.pairs[k].models[0].endpoints) == !SelfConsistent(input.target, pairs[j].port)
  {
    hide Differs, SelfConsistent, SameInputs, TargetPorts, Product;
    assert BuiltFrom(e.pairs[k], k, pairs, input);
    var i :| 0 <= i < |pairs| && KeyOf(pairs[i]) == k && e.pairs[k].models[0].endpoints == Built(input, pairs[i]);
    SamePort(ports, pairs[i].port, pairs[j].port);
    BuiltDiffersIff(e, input, again, pairs[i]);
  }

  lemma ChangedIff(e: Entry, pairs: seq<SvcPair>, input: Inputs, again: Inputs, ports: seq<SvcPort>)
    requires CachesAll(e, pairs, input) && DistinctKeys(ports) && forall i :: 0 <= i < |pairs| ==> pairs[i].port in ports
    requires SameInputs(input, again) && input.endpoints != [] && pairs != []
    ensures EndpointsChanged(e, again) == !AllConsistent(pairs, input.target)
  {
    hide Differs, TargetPorts, Product, DistinctKeys;
    if input.target.Unreadable() {
      assert again.target.Unreadable() && !SelfConsistent(input.target, pairs[0].port);
    } else {
      ReadableChangedIff(e, pairs, input, again, ports);
    }
  }

  lemma ReadableChangedIff(e: Entry, pairs: seq<SvcPair>, input: Inputs, again: Inputs, ports: seq<SvcPort>)
    requires CachesAll(e, pairs, input) && DistinctKeys(ports) && forall i :: 0 <= i < |pairs| ==> pairs[i].port in ports
    requires SameInputs(input, again) && input.endpoints != [] && !input.target.Unreadable()
    ensures EndpointsChanged(e, again) == !AllConsistent(pairs, input.target)
  {
    hide Differs, SelfConsistent, TargetPorts, Product;
    forall j | 0 <= j < |pairs|
      ensures KeyOf(pairs[j]) in e.pairs && |e.pairs[KeyOf(pairs[j])].models| == 1
      ensures Differs(again, e.pairs[KeyOf(pairs[j])].models[0].endpoints) == !SelfConsistent(input.target, pairs[j].port)
    {
      assert KeyOf(pairs[j]) in NewKeys(pairs);
      BuiltDiffers(e, pairs, input, again, ports, KeyOf(pairs[j]), j);
    }
    forall k | k in e.pairs ensures exists j :: 0 <= j < |pairs| && KeyOf(pairs[j]) == k {
      assert BuiltFrom(e.pairs[k], k, pairs, input);
    }
  }

  lemma NotIncomplete(e: Entry, pairs: seq<SvcPair>, input: Inputs)
    requires CachesAll(e, pairs, input) && pairs != []
    ensures !Incomplete(e)
  {
    assert KeyOf(pairs[0]) in NewKeys(pairs);
    assert forall k :: k in e.pairs ==> BuiltFrom(e.pairs[k], k, pairs, input);
  }

  // ---------- the theorem ----------

  predicate Fits(s: Settings)
  {
    0 <= s.probePort < 0x1_0000
  }

  // A sync of service svc; the status update follows it.
  datatype First = First(w: World, name: string, svc: Service, naming: Naming, pool: Pool, input: Inputs,
                         pairs: seq<SvcPair>, asked: nat, okDel: Oracle, okAdd: Oracle)

  function After(f: First): Sync
  {
    Reconcile(f.w, f.name, f.input, f.pairs, Stale(f.svc.status, f.pairs, f.naming), f.okDel, f.okAdd)
  }

  function Was(f: First): map<RuleKey, Pair>
  {
    Current(f.w, f.name, f.input).pairs
  }

  ghost predicate Looked(f: First)
  {
    && f.svc.ports != [] && DistinctKeys(f.svc.ports)
    && Flagged(Was(f)) && Finds(f.svc, Was(f), f.pool, f.naming, f.pairs, f.asked)
    && forall i :: 0 <= i < |f.pairs| ==> Nameable(f.naming, f.pairs[i].ip)
  }

  // The first sync's cache, ready for the second.
  lemma FirstCaches(f: First)
    requires Looked(f) && After(f).outcome.Updated?
    ensures var r := After(f).world;
      && |r.tables| == |f.w.tables| > 0 && f.name in r.cache && r.cache[f.name].settings == Stored(f.input.settings)
      && CachesAll(r.cache[f.name], f.pairs, f.input)
      && f.input.endpoints != [] && f.pairs != []
      && forall i :: 0 <= i < |f.pairs| ==> Named(f.pairs[i]) && f.pairs[i].port in f.svc.ports
  {
    hide Update, CachesAll, Nameable, Stale, Finds, Flagged, DistinctKeys, Named;
    UpdateOutcome(f.w, f.name, f.input, f.pairs, f.okDel, f.okAdd);
    UpdatedEntry(f.w, f.name, f.input, f.pairs, f.okDel, f.okAdd);
    FoundAreNamed(f.svc, Was(f), f.pool, f.naming, f.pairs, f.asked);
    EveryPortPaired(f.svc, Was(f), f.pool, f.naming, f.pairs, f.asked, f.svc.ports[0]);
  }

  function Again(f: First): Service
  {
    Published(f.svc, f.pairs, f.naming)
  }

  // The addresses the second sync reads are cached on every port.
  ghost predicate AddressesKept(f: First)
  {
    SeenCached(ServiceIPs(Again(f), f.naming), f.svc.ports, NewKeys(f.pairs))
  }

  // The second sync calls the pool if and only if that fails.
  lemma SecondAsks(f: First, cached: map<RuleKey, Pair>, pool': Pool, pairs': seq<SvcPair>, asked': nat)
    requires Looked(f) && cached.Keys == NewKeys(f.pairs) && Finds(Again(f), cached, pool', f.naming, pairs', asked')
    ensures asked' == 0 <==> AddressesKept(f)
  {
    hide ServiceIPs, Wants, ExistingPairs, IsFresh, Publish, Flagged, Nameable, DistinctKeys, NewKeys, AllCached;
    var ips := ServiceIPs(Again(f), f.naming);
    WantsSome(ips, f.svc.ports);
    if ips != [] { AsksOn(ips, f.svc.ports, cached, pool'); }
    else { AllPortsCached(f.svc, Was(f), f.pool, f.naming, f.pairs, f.asked, cached); }
  }

  // Where names read back, the second sync reads the addresses of the first, so
  // what counts is that each of them is on every port.
  lemma AddressesKeptIff(f: First)
    requires Looked(f) && AllReadable(f.pairs, f.naming)
    ensures AddressesKept(f) <==> Rectangular(f.pairs, f.svc.ports)
  {
    hide ServiceIPs, Finds, AllReadable, Flagged, Publish, Nameable, DistinctKeys, NewKeys;
    var ips := ServiceIPs(Again(f), f.naming);
    forall ip ensures ip in ips <==> Carries(f.pairs, ip) {
      SameAddresses(f.svc, Was(f), f.pool, f.naming, f.pairs, f.asked, ip);
    }
    if !Rectangular(f.pairs, f.svc.ports) {
      var i, j :| 0 <= i < |f.pairs| && 0 <= j < |f.svc.ports| && WantKey(Want(f.pairs[i].ip, f.svc.ports[j])) !in NewKeys(f.pairs);
      assert Carries(f.pairs, f.pairs[i].ip);
      var a :| 0 <= a < |ips| && ips[a] == f.pairs[i].ip;
    }
    if Rectangular(f.pairs, f.svc.ports) {
      forall a, j | 0 <= a < |ips| && 0 <= j < |f.svc.ports| ensures WantKey(Want(ips[a], f.svc.ports[j])) in NewKeys(f.pairs) {
        assert ips[a] in ips;
        var i :| 0 <= i < |f.pairs| && f.pairs[i].ip == ips[a];
        assert WantKey(Want(f.pairs[i].ip, f.svc.ports[j])) in NewKeys(f.pairs);
      }
    }
  }

  // What the second sync finds out, each in terms of the first.
  lemma SecondLooks(f: First, again: Inputs, pool': Pool, pairs': seq<SvcPair>, asked': nat)
    requires Looked(f) && After(f).outcome.Updated? && f.name in After(f).world.cache && SameInputs(f.input, again)
    requires Finds(Again(f), After(f).world.cache[f.name].pairs, pool', f.naming, pairs', asked')
    ensures var e := After(f).world.cache[f.name];
      && !Incomplete(e) && again.endpoints != [] && e.settings == Stored(again.settings)
      && EndpointsChanged(e, again) == !AllConsistent(f.pairs, f.input.target)
      && (asked' == 0 <==> AddressesKept(f))
      && (asked' == 0 ==> !Stale(Again(f).status, pairs', f.naming))
  {
    hide After, Finds, Nameable, Flagged, CachesAll, Incomplete, EndpointsChanged, AllConsistent, AddressesKept, Stale,
         Publish, DistinctKeys, Stored, NewKeys, Named;
    var e := After(f).world.cache[f.name];
    FirstCaches(f);
    NotIncomplete(e, f.pairs, f.input);
    ChangedIff(e, f.pairs, f.input, again, f.svc.ports);
    assert e.pairs.Keys == NewKeys(f.pairs) by { CachedKeysAre(e, f.pairs, f.input); }
    SecondAsks(f, e.pairs, pool', pairs', asked');
    if asked' == 0 { NotStale(f.svc, f.pairs, f.naming, e.pairs, pool', pairs'); }
    SameMembers(f.input.endpoints, again.endpoints);
  }

  lemma CachedKeysAre(e: Entry, pairs: seq<SvcPair>, input: Inputs)
    requires CachesAll(e, pairs, input)
    ensures e.pairs.Keys == NewKeys(pairs)
  {
  }

  // A second sync with the same service and inputs, lists in any order, makes
  // no pool call, creates and deletes nothing and keeps the cache: exactly when
  // the probe port fits 16 bits, every address it reads is cached on every
  // port, and models are checked against the ports they were built from.
  lemma SecondSyncIff(f: First, again: Inputs, pool': Pool, pairs': seq<SvcPair>, asked': nat, okDel': Oracle, okAdd': Oracle)
    requires Looked(f) && After(f).outcome.Updated? && f.name in After(f).world.cache && SameInputs(f.input, again)
    requires Finds(Again(f), After(f).world.cache[f.name].pairs, pool', f.naming, pairs', asked')
    ensures var r := Reconcile(After(f).world, f.name, again, pairs', Stale(Again(f).status, pairs', f.naming), okDel', okAdd');
      && (asked' == 0 && r.outcome.Unchanged? <==>
            Fits(f.input.settings) && AddressesKept(f) && AllConsistent(f.pairs, f.input.target))
      && (r.outcome.Unchanged? ==> r.world == After(f).world)
  {
    hide After, Finds, Looked, Incomplete, EndpointsChanged, AllConsistent, AddressesKept, Stale, Publish, Update, Delete,
         WithoutEndpoints, Stored, Fits;
    SecondLooks(f, again, pool', pairs', asked');
    FirstCaches(f);
    UpdateOutcome(After(f).world, f.name, again, pairs', okDel', okAdd');
    SettingsKept(f.input.settings);
  }

  lemma SettingsKept(s: Settings)
    ensures Stored(s) == s <==> Fits(s)
  {
  }

  // ---------- the bookkeeping flags ----------

  ghost predicate AllFlagged(cache: map<string, Entry>)
  {
    forall n :: n in cache ==> Flagged(cache[n].pairs)
  }

  lemma {:induction false} InstallKeepsFlagged(tables: seq<Table>, done: map<RuleKey, Pair>, todo: seq<SvcPair>, e: Entry, input: Inputs, ok: Oracle)
    requires Flagged(done) && forall i :: 0 <= i < |todo| ==> Named(todo[i])
    ensures Flagged(InstallAll(tables, done, todo, e, input, ok).pairs)
    decreases |todo|
  {
    hide MakeModel, TargetPorts, AllFail, Install;
    if todo != [] {
      var sp, m := todo[0], MakeModel(e, input, todo[0]);
      InstallKeepsFlagged(Install(tables, m, ok), done[m.key := Pair(sp.inRange, sp.staticIP, sp.ident, [m])], todo[1..], e, input, ok);
    }
  }

  lemma EmptiedFlagged(e: Entry)
    requires Flagged(e.pairs)
    ensures Flagged(WithoutEndpoints(e).pairs)
  {
  }

  // Every sync, whatever its outcome, and every deletion keeps each cached pair
  // in range or static, so what Looked asks of the cache always holds.
  lemma SyncKeepsFlagged(w: World, name: string, svc: Service, naming: Naming, pool: Pool, input: Inputs, pairs: seq<SvcPair>, asked: nat,
                         stale: bool, okDel: Oracle, okAdd: Oracle)
    requires AllFlagged(w.cache) && Finds(svc, Current(w, name, input).pairs, pool, naming, pairs, asked)
    ensures AllFlagged(Reconcile(w, name, input, pairs, stale, okDel, okAdd).world.cache)
    ensures AllFlagged(Delete(w, name, true, okDel).world.cache)
  {
    hide Finds, InstallAll, Withdraw, Keys, Acked, EndpointsChanged, Incomplete, WithoutEndpoints;
    var was := Current(w, name, input);
    assert Flagged(was.pairs);
    if name in w.cache { EmptiedFlagged(w.cache[name]); }
    FoundAreNamed(svc, was.pairs, pool, naming, pairs, asked);
    var tables := if Withdraws(w, name, input) then Withdraw(w.tables, Keys(was), okDel) else w.tables;
    InstallKeepsFlagged(tables, map[], RefreshedAll(pairs, was.pairs), was.(settings := Stored(input.settings), pairs := map[]), input, okAdd);
  }
}
