// The reconciler itself: it owns the cache and drives the loxilb instances
// (pkg/agent/manager/loadbalancer/loadbalancer.go:776-783, 825-1104, 1208-1273,
// 2217-2224, 2576-2603).

module RuleManager {
  import opened Rules
  import opened IPText
  import opened IPPools
  import RuleAgreement
  import EndpointChanges

  function ModelKeys(models: seq<Model>): (ks: set<RuleKey>)
  {
    set j | 0 <= j < |models| :: models[j].key
  }

  function KeysOver(e: Entry, done: set<RuleKey>): (ks: set<RuleKey>)
  {
    set k, j | k in done && k in e.pairs && 0 <= j < |e.pairs[k].models| :: e.pairs[k].models[j].key
  }

  function ReleasesOver(e: Entry, done: set<RuleKey>): (r: set<Held>)
  {
    set k | k in done && k in e.pairs && e.pairs[k].inRange :: Held(k.ip, e.pairs[k].ident)
  }

  // What a pool holds after the given addresses came back.
  ghost function GivenBack(held: set<Held>, back: set<Held>, contains: string -> bool): set<Held>
  {
    set h | h in held && !(h in back && IsLiteral(h.ip) && contains(h.ip))
  }

  // Some client does not delete some rule of the entry.
  ghost predicate Refuses(e: Entry, n: nat, ok: Oracle)
  {
    exists i, k, j :: 0 <= i < n && k in e.pairs && 0 <= j < |e.pairs[k].models| && !ok(i, e.pairs[k].models[j].key)
  }

  // u is t without the rules of the entry that client i deleted.
  ghost predicate Rid(t: Table, u: Table, e: Entry, i: nat, ok: Oracle)
  {
    forall x :: (x in u <==> x in t && !(HasRule(e, x) && ok(i, x))) && (x in u ==> u[x] == t[x])
  }

  ghost predicate HasRule(e: Entry, x: RuleKey)
  {
    exists k, j :: k in e.pairs && 0 <= j < |e.pairs[k].models| && e.pairs[k].models[j].key == x
  }

  // What a pool would be holding for the entry.
  ghost predicate OwnAddress(e: Entry, h: Held)
  {
    exists k :: k in e.pairs && e.pairs[k].inRange && h.ip == k.ip && h.ident == e.pairs[k].ident
  }

  lemma RefusesIff(e: Entry, n: nat, ok: Oracle)
    ensures Refuses(e, n, ok) <==> !Acked(n, Keys(e), ok)
  {
    if Acked(n, Keys(e), ok) {
      forall i, k, j | 0 <= i < n && k in e.pairs && 0 <= j < |e.pairs[k].models| ensures ok(i, e.pairs[k].models[j].key) {
        assert e.pairs[k].models[j].key in Keys(e);
      }
    }
  }

  lemma WithdrawRids(tables: seq<Table>, e: Entry, ok: Oracle)
    ensures forall i :: 0 <= i < |tables| ==> Rid(tables[i], Withdraw(tables, Keys(e), ok)[i], e, i, ok)
  {
    assert forall x :: x in Keys(e) <==> HasRule(e, x);
  }

  lemma OwnIsReleased(e: Entry)
    ensures forall h :: h in Releases(e) <==> OwnAddress(e, h)
  {
    forall h | OwnAddress(e, h) ensures h in Releases(e) {
      var k :| k in e.pairs && e.pairs[k].inRange && h.ip == k.ip && h.ident == e.pairs[k].ident;
      assert h == Held(k.ip, e.pairs[k].ident);
    }
  }

  lemma GiveNothing(held: set<Held>, contains: string -> bool)
    ensures GivenBack(held, {}, contains) == held
  {
  }

  lemma MoreReleases(e: Entry, done: set<RuleKey>, k: RuleKey)
    requires k in e.pairs
    ensures ReleasesOver(e, done + {k}) == ReleasesOver(e, done) + if e.pairs[k].inRange then {Held(k.ip, e.pairs[k].ident)} else {}
  {
  }

  // Deleting in two steps is deleting both at once.
  lemma WithdrawTwice(tables: seq<Table>, a: set<RuleKey>, b: set<RuleKey>, ok: Oracle)
    ensures Withdraw(Withdraw(tables, a, ok), b, ok) == Withdraw(tables, a + b, ok)
  {
    forall i | 0 <= i < |tables| ensures Withdraw(Withdraw(tables, a, ok), b, ok)[i] == Withdraw(tables, a + b, ok)[i] {
      assert (set k | k in a + b && ok(i, k)) == (set k | k in a && ok(i, k)) + (set k | k in b && ok(i, k));
    }
  }

  lemma WithdrawNothing(tables: seq<Table>, ok: Oracle)
    ensures Withdraw(tables, {}, ok) == tables
  {
    assert forall i :: 0 <= i < |tables| ==> Withdraw(tables, {}, ok)[i] == tables[i];
  }

  lemma MoreModels(models: seq<Model>, n: nat)
    requires n < |models|
    ensures ModelKeys(models[..n + 1]) == ModelKeys(models[..n]) + {models[n].key}
  {
  }

  lemma MoreKeys(e: Entry, done: set<RuleKey>, k: RuleKey)
    requires k in e.pairs
    ensures KeysOver(e, done + {k}) == KeysOver(e, done) + ModelKeys(e.pairs[k].models)
  {
  }

  class Manager {
    var cache: map<string, Entry>
    var tables: seq<Table>

    ghost function View(): World
      reads this
    {
      World(cache, tables)
    }

    constructor (clients: nat)
      ensures cache == map[] && |tables| == clients && forall i :: 0 <= i < clients ==> tables[i] == map[]
    {
      cache, tables := map[], seq(clients, _ => map[]);
    }

    // ---------- deleteLoadBalancer ----------

    // One rule, every client; the answers are independent.
    method WithdrawRule(k: RuleKey, ok: Oracle) returns (failed: bool)
      modifies this`tables
      ensures tables == Withdraw(old(tables), {k}, ok) && failed == !Acked(|tables|, {k}, ok)
    {
      failed := false;
      var n := |tables|;
      for i := 0 to n
        invariant |tables| == n && failed == exists x :: 0 <= x < i && !ok(x, k)
        invariant forall x :: i <= x < n ==> tables[x] == old(tables)[x]
        invariant forall x :: 0 <= x < i ==> tables[x] == if ok(x, k) then old(tables)[x] - {k} else old(tables)[x]
      {
        if ok(i, k) { tables := tables[i := tables[i] - {k}]; } else { failed := true; }
      }
      forall i | 0 <= i < n ensures tables[i] == Withdraw(old(tables), {k}, ok)[i] {
        assert (set x | x in {k} && ok(i, x)) == if ok(i, k) then {k} else {};
      }
    }

    method WithdrawModels(models: seq<Model>, ok: Oracle) returns (failed: bool)
      modifies this`tables
      ensures tables == Withdraw(old(tables), ModelKeys(models), ok) && failed == !Acked(|tables|, ModelKeys(models), ok)
    {
      failed := false;
      WithdrawNothing(tables, ok);
      assert ModelKeys(models[..0]) == {};
      for n := 0 to |models|
        invariant tables == Withdraw(old(tables), ModelKeys(models[..n]), ok)
        invariant failed == !Acked(|tables|, ModelKeys(models[..n]), ok)
      {
        MoreModels(models, n);
        WithdrawTwice(old(tables), ModelKeys(models[..n]), {models[n].key}, ok);
        var bad := WithdrawRule(models[n].key, ok);
        AckedBoth(|tables|, ModelKeys(models[..n]), {models[n].key}, ok);
        if bad { failed := true; }
      }
      assert models[..|models|] == models;
    }

    // The pairs of a Go map come in any order.
    method WithdrawEntry(e: Entry, ok: Oracle) returns (failed: bool)
      modifies this`tables
      ensures tables == Withdraw(old(tables), Keys(e), ok) && failed == !Acked(|tables|, Keys(e), ok)
    {
      hide Withdraw, Acked, ModelKeys;
      failed := false;
      var todo := e.pairs.Keys;
      WithdrawNothing(tables, ok);
      assert e.pairs.Keys - todo == {} && KeysOver(e, {}) == {};
      assert Acked(|tables|, {}, ok) by { AckedNone(|tables|, ok); }
      while todo != {}
        invariant todo <= e.pairs.Keys
        invariant tables == Withdraw(old(tables), KeysOver(e, e.pairs.Keys - todo), ok)
        invariant failed == !Acked(|tables|, KeysOver(e, e.pairs.Keys - todo), ok)
        decreases todo
      {
        var k :| k in todo;
        ghost var done := e.pairs.Keys - todo;
        MoreKeys(e, done, k);
        WithdrawTwice(old(tables), KeysOver(e, done), ModelKeys(e.pairs[k].models), ok);
        var bad := WithdrawModels(e.pairs[k].models, ok);
        AckedBoth(|tables|, KeysOver(e, done), ModelKeys(e.pairs[k].models), ok);
        if bad { failed := true; }
        todo := todo - {k};
        assert e.pairs.Keys - todo == done + {k};
      }
      assert e.pairs.Keys - todo == e.pairs.Keys && KeysOver(e, e.pairs.Keys) == Keys(e);
    }

    // The release loop: each in-range pair is given back to the entry's pool,
    // which takes what it contains.
    method ReleaseEntry(e: Entry, pool: IPPool)
      modifies pool
      ensures pool.held == GivenBack(old(pool.held), Releases(e), pool.contains)
    {
      hide IsLiteral;
      var todo := e.pairs.Keys;
      ghost var before := pool.held;
      assert e.pairs.Keys - todo == {} && ReleasesOver(e, {}) == {};
      while todo != {}
        invariant todo <= e.pairs.Keys
        invariant pool.held == GivenBack(before, ReleasesOver(e, e.pairs.Keys - todo), pool.contains)
        decreases todo
      {
        var k :| k in todo;
        ghost var done := e.pairs.Keys - todo;
        MoreReleases(e, done, k);
        if e.pairs[k].inRange { pool.ReturnIPAddr(k.ip, e.pairs[k].ident); }
        todo := todo - {k};
        assert e.pairs.Keys - todo == done + {k};
      }
      assert e.pairs.Keys - todo == e.pairs.Keys && ReleasesOver(e, e.pairs.Keys) == Releases(e);
    }

    // pool is the pool of the service's entry. Every client is asked to delete
    // every rule, whatever others answer; if all did and the service goes, exactly
    // its in-range addresses that the pool contains are given back.
    method DeleteLoadBalancer(name: string, releaseAll: bool, pool: IPPool, ok: Oracle) returns (failed: bool)
      modifies this, if releaseAll then {pool} else {}
      ensures var d := Delete(old(View()), name, releaseAll, ok);
        View() == d.world && failed == d.failed && pool.held == GivenBack(old(pool.held), d.released, pool.contains)
      ensures |tables| == |old(tables)| && (failed <==> name in old(cache) && Refuses(old(cache)[name], |tables|, ok))
      ensures name !in old(cache) ==> tables == old(tables)
      ensures name in old(cache) ==> forall i :: 0 <= i < |tables| ==> Rid(old(tables)[i], tables[i], old(cache)[name], i, ok)
      ensures cache == if !failed && releaseAll then old(cache) - {name} else old(cache)
      ensures failed || !releaseAll || name !in old(cache) ==> pool.held == old(pool.held)
      ensures !failed && releaseAll && name in old(cache) ==>
        forall h :: h in pool.held <==> h in old(pool.held) && !(OwnAddress(old(cache)[name], h) && IsLiteral(h.ip) && pool.contains(h.ip))
      ensures name in old(cache) && (pool.held != old(pool.held) || name !in cache) ==>
        forall i :: 0 <= i < |tables| ==> tables[i].Keys !! Keys(old(cache)[name])
    {
      hide Withdraw, Acked, Keys, Releases, IsLiteral, Refuses, Rid, OwnAddress;
      GiveNothing(pool.held, pool.contains);
      if name !in cache { return false; }
      RuleAgreement.ReleaseOnlyAfterWithdrawal(View(), name, releaseAll, ok);
      var e := cache[name];
      RefusesIff(e, |tables|, ok);
      WithdrawRids(tables, e, ok);
      OwnIsReleased(e);
      failed := WithdrawEntry(e, ok);
      if failed { return; }
      if releaseAll {
        ReleaseEntry(e, pool);
        cache := cache - {name};
      }
    }

    // ---------- addLoadBalancer ----------

    // Model by model, in place.
    method EmptyPair(name: string, k: RuleKey)
      requires name in cache && k in cache[name].pairs
      modifies this`cache
      ensures var e := old(cache)[name];
        cache == old(cache)[name := e.(pairs := e.pairs[k := EmptiedPair(e.pairs[k])])]
    {
      ghost var e, models := cache[name], cache[name].pairs[k].models;
      assert Emptied(models, 0) == models && e.pairs[k := e.pairs[k]] == e.pairs;
      for j := 0 to |cache[name].pairs[k].models|
        invariant name in cache && cache == old(cache)[name := e.(pairs := cache[name].pairs)]
        invariant cache[name].pairs == e.pairs[k := e.pairs[k].(models := Emptied(models, j))]
      {
        var p := cache[name].pairs[k];
        var next := p.(models := p.models[j := p.models[j].(endpoints := [])]);
        assert next.models == Emptied(models, j + 1);
        cache := cache[name := cache[name].(pairs := cache[name].pairs[k := next])];
      }
    }

    method RemoveAllCacheEndpoints(name: string)
      requires name in cache
      modifies this`cache
      ensures cache == old(cache)[name := WithoutEndpoints(old(cache)[name])]
      ensures forall k, j :: k in cache[name].pairs && 0 <= j < |cache[name].pairs[k].models| ==>
        cache[name].pairs[k].models[j].endpoints == []
    {
      ghost var e := cache[name];
      var todo := cache[name].pairs.Keys;
      while todo != {}
        invariant todo <= e.pairs.Keys && name in cache && cache[name].pairs.Keys == e.pairs.Keys
        invariant cache == old(cache)[name := e.(pairs := cache[name].pairs)]
        invariant forall k :: k in e.pairs ==> cache[name].pairs[k] == if k in todo then e.pairs[k] else EmptiedPair(e.pairs[k])
        decreases todo
      {
        var k :| k in todo;
        EmptyPair(name, k);
        todo := todo - {k};
      }
      assert cache[name].pairs == WithoutEndpoints(e).pairs;
    }

    // One rule on every client. Create replaces; the sync goes on unless every
    // client refused.
    method InstallRule(m: Model, ok: Oracle) returns (refused: bool)
      modifies this`tables
      ensures tables == Install(old(tables), m, ok) && refused == (tables != [] && AllFail(|tables|, m.key, ok))
    {
      var n, errCount := |tables|, 0;
      for i := 0 to n
        invariant |tables| == n && 0 <= errCount <= i
        invariant errCount == i <==> forall x :: 0 <= x < i ==> !ok(x, m.key)
        invariant forall x :: i <= x < n ==> tables[x] == old(tables)[x]
        invariant forall x :: 0 <= x < i ==> tables[x] == if ok(x, m.key) then old(tables)[x][m.key := m] else old(tables)[x]
      {
        if ok(i, m.key) { tables := tables[i := tables[i][m.key := m]]; } else { errCount := errCount + 1; }
      }
      refused := errCount > 0 && errCount >= n;
    }

    // Pairs in order, filling the entry as rules are accepted.
    method InstallPairs(name: string, todo: seq<SvcPair>, input: Inputs, ok: Oracle) returns (failed: bool)
      requires name in cache && cache[name].pairs == map[] && tables != []
      modifies this
      ensures var e := old(cache)[name];
        var r := InstallAll(old(tables), map[], todo, e, input, ok);
        tables == r.tables && cache == old(cache)[name := e.(pairs := r.pairs)] && failed == r.failed
    {
      hide MakeModel, Install, TargetPorts, AllFail;
      ghost var e, all := cache[name], InstallAll(tables, map[], todo, cache[name], input, ok);
      for n := 0 to |todo|
        invariant name in cache && tables != [] && cache == old(cache)[name := e.(pairs := cache[name].pairs)]
        invariant InstallAll(tables, cache[name].pairs, todo[n..], e, input, ok) == all
      {
        assert todo[n..][1..] == todo[n + 1..];
        var sp := todo[n];
        var m := MakeModel(cache[name], input, sp);
        assert m == MakeModel(e, input, sp) && m.key == KeyOf(sp) by { SameModel(cache[name], e, input, sp); }
        if TargetPorts(input.target, sp.port) == [] { return true; }
        var refused := InstallRule(m, ok);
        if refused { return true; }
        cache := cache[name := cache[name].(pairs := cache[name].pairs[m.key := Pair(sp.inRange, sp.staticIP, sp.ident, [m])])];
      }
      failed := false;
    }

    // What follows once an update is due.
    method Apply(name: string, input: Inputs, pairs: seq<SvcPair>, needDelete: bool, pool: IPPool, okDel: Oracle, okAdd: Oracle) returns (outcome: Outcome)
      requires name in cache && tables != []
      modifies this
      ensures var e := old(cache)[name];
        var mid := if needDelete then Withdraw(old(tables), Keys(e), okDel) else old(tables);
        var r := InstallAll(mid, map[], RefreshedAll(pairs, e.pairs), e.(pairs := map[]), input, okAdd);
        && tables == r.tables && cache == old(cache)[name := e.(pairs := r.pairs)]
        && outcome == if r.failed then InstallFailed else Updated
    {
      hide InstallAll, Withdraw, Keys, Acked, RefreshedAll;
      if needDelete { var _ := DeleteLoadBalancer(name, false, pool, okDel); }
      var sps := RefreshedAll(pairs, cache[name].pairs);
      cache := cache[name := cache[name].(pairs := map[])];
      var failed := InstallPairs(name, sps, input, okAdd);
      outcome := if failed then InstallFailed else Updated;
    }

    method AddLoadBalancer(name: string, input: Inputs, pairs: seq<SvcPair>, stale: bool, pool: IPPool, okDel: Oracle, okAdd: Oracle) returns (outcome: Outcome)
      modifies this
      ensures var r := Reconcile(old(View()), name, input, pairs, stale, okDel, okAdd);
        View() == r.world && outcome == r.outcome
    {
      hide InstallAll, Withdraw, Keys, WithoutEndpoints, EndpointsChanged, Acked, RefreshedAll, Incomplete, Stored;
      ghost var w := View();
      if tables == [] { return Rejected; }
      var added := name in cache;
      if !added {
        if input.endpoints == [] { return Rejected; }
        cache := cache[name := NewEntry(input)];
        assert Incomplete(cache[name]) by { NewIsIncomplete(input); }
      } else if input.endpoints == [] {
        var failed := DeleteLoadBalancer(name, false, pool, okDel);
        if failed { return WithdrawFailed; }
        RemoveAllCacheEndpoints(name);
        return Withdrawn;
      }
      ghost var was := cache[name];
      assert was == Current(w, name, input);
      var update, needDelete := Incomplete(cache[name]), false;
      if input.settings != cache[name].settings {
        update, needDelete := true, added;
      }
      if !update {
        var changed := EndpointChanges.CheckUpdateEndpoints(cache[name], input);
        update := changed || stale;
      }
      if !update { return Unchanged; }
      cache := cache[name := cache[name].(settings := Stored(input.settings))];
      assert Keys(cache[name]) == Keys(was) by { SameKeys(cache[name], was); }
      outcome := Apply(name, input, pairs, needDelete, pool, okDel, okAdd);
    }

    // ---------- replay ----------

    // Every cached rule is created on the client that came alive.
    method Replay(i: nat, ok: Oracle)
      requires i < |tables|
      modifies this`tables
      ensures |tables| == |old(tables)| && forall x :: 0 <= x < |tables| && x != i ==> tables[x] == old(tables)[x]
      ensures Sent(old(tables)[i], tables[i], Cached(cache), i, ok)
      ensures RuleAgreement.WellCached(cache) ==> tables[i] == RuleAgreement.Replayed(cache, old(tables)[i], i, ok)
    {
      hide Sent, Cached, RuleAgreement.Replayed, RuleAgreement.WellCached;
      var todo := Cached(cache);
      ghost var t, all := tables[i], todo;
      SentNothing(t, i, ok);
      assert all - todo == {};
      while todo != {}
        invariant todo <= all && |tables| == |old(tables)|
        invariant forall x :: 0 <= x < |tables| && x != i ==> tables[x] == old(tables)[x]
        invariant Sent(t, tables[i], all - todo, i, ok)
        decreases todo
      {
        var m :| m in todo;
        ghost var done := all - todo;
        SentMore(t, tables[i], done, m, i, ok);
        if ok(i, m.key) { tables := tables[i := tables[i][m.key := m]]; }
        todo := todo - {m};
        assert all - todo == done + {m};
      }
      assert all - todo == all;
      if RuleAgreement.WellCached(cache) { ReplayIs(cache, t, tables[i], i, ok); }
    }
  }

  // u is t after creating the models of done that client i accepts.
  ghost predicate Sent(t: Table, u: Table, done: set<Model>, i: nat, ok: Oracle)
  {
    && (forall m :: m in done && ok(i, m.key) ==> m.key in u && u[m.key] in done && u[m.key].key == m.key)
    && (forall k :: k in u ==> (u[k] in done && u[k].key == k && ok(i, k)) || (k in t && u[k] == t[k]))
    && (forall k :: k in t ==> k in u)
  }

  lemma SentNothing(t: Table, i: nat, ok: Oracle)
    ensures Sent(t, t, {}, i, ok)
  {
  }

  lemma SentMore(t: Table, u: Table, done: set<Model>, m: Model, i: nat, ok: Oracle)
    requires Sent(t, u, done, i, ok)
    ensures Sent(t, if ok(i, m.key) then u[m.key := m] else u, done + {m}, i, ok)
  {
  }

  lemma NewIsIncomplete(input: Inputs)
    ensures Incomplete(NewEntry(input))
  {
  }

  // A rule key has one cached model.
  lemma OneModel(cache: map<string, Entry>, a: Model, b: Model)
    requires RuleAgreement.WellCached(cache) && a in Cached(cache) && b in Cached(cache) && a.key == b.key
    ensures a == b
  {
  }

  lemma ReplayIs(cache: map<string, Entry>, t: Table, u: Table, i: nat, ok: Oracle)
    requires RuleAgreement.WellCached(cache) && Sent(t, u, Cached(cache), i, ok)
    ensures u == RuleAgreement.Replayed(cache, t, i, ok)
  {
    hide RuleAgreement.WellCached, Cached;
    forall k | k in RuleAgreement.CachedKeys(cache) && ok(i, k) ensures k in u && u[k] == RuleAgreement.RuleFor(cache, k) {
      OneModel(cache, u[k], RuleAgreement.RuleFor(cache, k));
    }
  }

  lemma AckedBoth(n: nat, a: set<RuleKey>, b: set<RuleKey>, ok: Oracle)
    ensures Acked(n, a + b, ok) <==> Acked(n, a, ok) && Acked(n, b, ok)
  {
  }

  lemma AckedNone(n: nat, ok: Oracle)
    ensures Acked(n, {}, ok)
  {
  }

  lemma SameModel(a: Entry, b: Entry, input: Inputs, sp: SvcPair)
    requires a == b.(pairs := a.pairs)
    ensures MakeModel(a, input, sp) == MakeModel(b, input, sp) && MakeModel(a, input, sp).key == KeyOf(sp)
  {
  }

  lemma SameKeys(a: Entry, b: Entry)
    requires a.pairs == b.pairs
    ensures Keys(a) == Keys(b)
  {
  }
}
