// A service without addresses is synced for the first time and later deleted:
// exactly when its pool ends with what it held before
// (pkg/agent/manager/loadbalancer/loadbalancer.go:1007-1104, 1244-1273,
// 1818-1866).

module Conservation {
  import opened Rules
  import opened IPText
  import opened ServiceAddresses
  import opened RuleAgreement
  import opened Idempotence
  import opened RuleManager

  // ---------- what the first sync caches ----------

  lemma NothingToRefresh(pairs: seq<SvcPair>)
    ensures RefreshedAll(pairs, map[]) == pairs
  {
  }

  // The entry of a new service has one pair per key, with the pool records of a
  // pair that was looked up.
  lemma NewBooks(w: World, name: string, input: Inputs, pairs: seq<SvcPair>, okDel: Oracle, okAdd: Oracle)
    requires name !in w.cache && Update(w, name, input, pairs, okDel, okAdd).outcome.Updated?
    ensures var r := Update(w, name, input, pairs, okDel, okAdd).world;
      && name in r.cache && r.cache[name].pairs.Keys == NewKeys(pairs)
      && forall k :: k in r.cache[name].pairs ==> InstalledFrom(r.cache[name].pairs[k], k, pairs, input)
  {
    hide InstallAll, NewKeys, Stored, InstalledFrom, RefreshedAll, CachesAll;
    var e := NewEntry(input).(settings := Stored(input.settings), pairs := map[]);
    NothingToRefresh(pairs);
    InstalledModels(w.tables, map[], pairs, e, input, okAdd);
    UpdatedEntry(w, name, input, pairs, okDel, okAdd);
    CachedKeysAre(Update(w, name, input, pairs, okDel, okAdd).world.cache[name], pairs, input);
  }

  // On the fresh way every pair has the new address; the first keeps the
  // identifier it was granted under, the others have that of their own port.
  function FreshIdent(ports: seq<SvcPort>, shared: bool, got: Held, j: nat): Ident
    requires j < |ports|
  {
    if j == 0 then got.ident else if shared then PortIdent(ports[j].num, ports[j].proto) else NoIdent
  }

  lemma FreshFromNothing(ports: seq<SvcPort>, shared: bool, got: Held, pairs: seq<SvcPair>, j: nat)
    requires IsFresh(ports, map[], shared, got, pairs) && j < |ports|
    ensures |pairs| == |ports| && pairs[j] == SvcPair(got.ip, ports[j], true, false, FreshIdent(ports, shared, got, j), j == 0)
  {
    assert FreshPair(ports, map[], shared, got, j, pairs[j]);
    assert FirstUncached(ports, map[], j) <==> j == 0 by {
      if j > 0 { assert !CachedPort(map[], ports[0]); }
    }
  }

  ghost predicate AllFresh(ports: seq<SvcPort>, shared: bool, got: Held, pairs: seq<SvcPair>)
  {
    && |pairs| == |ports|
    && forall j :: 0 <= j < |ports| ==> pairs[j] == SvcPair(got.ip, ports[j], true, false, FreshIdent(ports, shared, got, j), j == 0)
  }

  // What the pool then has for it: the address under each identifier.
  ghost predicate FreshHeld(ports: seq<SvcPort>, shared: bool, got: Held, h: Held)
  {
    exists j :: 0 <= j < |ports| && h == Held(got.ip, FreshIdent(ports, shared, got, j))
  }

  lemma FreshOwns(e: Entry, input: Inputs, ports: seq<SvcPort>, shared: bool, got: Held, pairs: seq<SvcPair>, h: Held)
    requires DistinctKeys(ports) && AllFresh(ports, shared, got, pairs) && e.pairs.Keys == NewKeys(pairs)
    requires forall k :: k in e.pairs ==> InstalledFrom(e.pairs[k], k, pairs, input)
    ensures OwnAddress(e, h) <==> FreshHeld(ports, shared, got, h)
  {
    hide FreshIdent, Built, DistinctKeys;
    if OwnAddress(e, h) {
      var k :| k in e.pairs && e.pairs[k].inRange && h.ip == k.ip && h.ident == e.pairs[k].ident;
      var j :| 0 <= j < |pairs| && IsOf(e.pairs[k], k, pairs[j], input);
      assert h == Held(got.ip, FreshIdent(ports, shared, got, j));
    }
    if FreshHeld(ports, shared, got, h) {
      var j :| 0 <= j < |ports| && h == Held(got.ip, FreshIdent(ports, shared, got, j));
      OwnPair(e, input, ports, shared, got, pairs, j);
    }
  }

  // Each pair is cached with its own records: no other has its key.
  lemma OwnPair(e: Entry, input: Inputs, ports: seq<SvcPort>, shared: bool, got: Held, pairs: seq<SvcPair>, j: nat)
    requires DistinctKeys(ports) && AllFresh(ports, shared, got, pairs) && e.pairs.Keys == NewKeys(pairs) && j < |ports|
    requires forall k :: k in e.pairs ==> InstalledFrom(e.pairs[k], k, pairs, input)
    ensures var k := KeyOf(pairs[j]);
      k in e.pairs && e.pairs[k].inRange && k.ip == got.ip && e.pairs[k].ident == FreshIdent(ports, shared, got, j)
  {
    hide FreshIdent, Built;
    var k := KeyOf(pairs[j]);
    assert k in NewKeys(pairs) && InstalledFrom(e.pairs[k], k, pairs, input);
    var x :| 0 <= x < |pairs| && IsOf(e.pairs[k], k, pairs[x], input);
    assert x == j by { assert x < j || x > j || x == j; }
  }

  lemma FreshAll(ports: seq<SvcPort>, shared: bool, got: Held, pairs: seq<SvcPair>)
    requires IsFresh(ports, map[], shared, got, pairs)
    ensures AllFresh(ports, shared, got, pairs)
  {
    forall j | 0 <= j < |ports|
      ensures pairs[j] == SvcPair(got.ip, ports[j], true, false, FreshIdent(ports, shared, got, j), j == 0)
    {
      FreshFromNothing(ports, shared, got, pairs, j);
    }
  }

  // Somebody held the address under the identifier of a further port.
  predicate HeldFor(p: SvcPort, shared: bool, ip: string, before: set<Held>)
  {
    Held(ip, if shared then PortIdent(p.num, p.proto) else NoIdent) in before
  }

  // ---------- conservation ----------

  // After the deletion the pool holds what it held before the first sync if and
  // only if it recognises the address as its own and nobody held that address
  // under the identifier of a further port: only the first port's is registered,
  // and all are given back.
  lemma FreshThenDeletedIff(w: World, name: string, input: Inputs, ports: seq<SvcPort>, shared: bool, got: Held, pairs: seq<SvcPair>,
                            okDel: Oracle, okAdd: Oracle, ok: Oracle, contains: string -> bool, before: set<Held>)
    requires name !in w.cache && ports != [] && DistinctKeys(ports) && IsFresh(ports, map[], shared, got, pairs) && got !in before
    requires Update(w, name, input, pairs, okDel, okAdd).outcome.Updated?
    requires !Delete(Update(w, name, input, pairs, okDel, okAdd).world, name, true, ok).failed
    ensures var d := Delete(Update(w, name, input, pairs, okDel, okAdd).world, name, true, ok);
      && name !in d.world.cache
      && (GivenBack(before + {got}, d.released, contains) == before <==>
            && IsLiteral(got.ip) && contains(got.ip)
            && forall j :: 0 < j < |ports| ==> !HeldFor(ports[j], shared, got.ip, before))
  {
    hide Update, IsLiteral, Withdraw, Acked, Keys, Releases, DistinctKeys, IsFresh, OwnAddress, FreshHeld, AllFresh, NewKeys,
         InstalledFrom, GivenBack, HeldFor;
    NewBooks(w, name, input, pairs, okDel, okAdd);
    FreshAll(ports, shared, got, pairs);
    var e := Update(w, name, input, pairs, okDel, okAdd).world.cache[name];
    OwnIsReleased(e);
    forall h ensures h in Releases(e) <==> FreshHeld(ports, shared, got, h) {
      FreshOwns(e, input, ports, shared, got, pairs, h);
    }
    GivenBackIff(Releases(e), ports, shared, got, contains, before);
  }

  lemma GivenBackIff(back: set<Held>, ports: seq<SvcPort>, shared: bool, got: Held, contains: string -> bool, before: set<Held>)
    requires ports != [] && got !in before && forall h :: h in back <==> FreshHeld(ports, shared, got, h)
    ensures GivenBack(before + {got}, back, contains) == before <==>
      && IsLiteral(got.ip) && contains(got.ip) && forall j :: 0 < j < |ports| ==> !HeldFor(ports[j], shared, got.ip, before)
  {
    hide IsLiteral;
    assert FreshHeld(ports, shared, got, got) by { assert got == Held(got.ip, FreshIdent(ports, shared, got, 0)); }
    var after := GivenBack(before + {got}, back, contains);
    assert got in after <==> !(IsLiteral(got.ip) && contains(got.ip));
    forall h | h in before ensures h in back <==> exists j :: 0 < j < |ports| && h == Held(got.ip, FreshIdent(ports, shared, got, j)) {
      assert h != Held(got.ip, FreshIdent(ports, shared, got, 0));
    }
    forall j | 0 < j < |ports| ensures HeldFor(ports[j], shared, got.ip, before) <==> Held(got.ip, FreshIdent(ports, shared, got, j)) in before {}
    if IsLiteral(got.ip) && contains(got.ip) {
      assert after == before - back;
    }
  }

  // In a pool that is not shared, whose one identifier is none, recognising the
  // address is enough.
  lemma UnsharedIsConserved(w: World, name: string, input: Inputs, ports: seq<SvcPort>, ip: string, pairs: seq<SvcPair>,
                            okDel: Oracle, okAdd: Oracle, ok: Oracle, contains: string -> bool, before: set<Held>)
    requires name !in w.cache && ports != [] && DistinctKeys(ports)
    requires IsFresh(ports, map[], false, Held(ip, NoIdent), pairs) && Held(ip, NoIdent) !in before
    requires Update(w, name, input, pairs, okDel, okAdd).outcome.Updated?
    requires !Delete(Update(w, name, input, pairs, okDel, okAdd).world, name, true, ok).failed
    ensures var d := Delete(Update(w, name, input, pairs, okDel, okAdd).world, name, true, ok);
      GivenBack(before + {Held(ip, NoIdent)}, d.released, contains) == before <==> IsLiteral(ip) && contains(ip)
  {
    hide Update, Delete, IsLiteral, IsFresh, DistinctKeys, GivenBack;
    FreshThenDeletedIff(w, name, input, ports, false, Held(ip, NoIdent), pairs, okDel, okAdd, ok, contains, before);
  }
}
