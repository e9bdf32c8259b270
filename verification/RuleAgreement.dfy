// What the cache promises about the data plane: over every run of reconciles,
// service deletions, crashes and replays, under any pattern of failing calls.

module RuleAgreement {
  import opened Rules

  // Each cached pair carries one model, filed under its own key, with the
  // settings the entry has now.
  ghost predicate WellFormed(e: Entry)
  {
    forall k :: k in e.pairs ==> |e.pairs[k].models| == 1 && IsFor(e.pairs[k].models[0], k, e)
  }

  predicate IsFor(m: Model, k: RuleKey, e: Entry)
  {
    m.key == k && m.settings == e.settings && m.inst == e.inst
  }

  ghost predicate Disjoint(cache: map<string, Entry>)
  {
    forall a, b, k :: a in cache && b in cache && k in cache[a].pairs && k in cache[b].pairs ==> a == b
  }

  ghost predicate WellCached(cache: map<string, Entry>)
  {
    (forall n :: n in cache ==> WellFormed(cache[n])) && Disjoint(cache)
  }

  function Rule(e: Entry, k: RuleKey): Model
    requires k in e.pairs && e.pairs[k].models != []
  {
    e.pairs[k].models[0]
  }

  // Every rule with endpoints that a client holds is a cached rule.
  ghost predicate NoStray(cache: map<string, Entry>, t: Table)
    requires WellCached(cache)
  {
    forall k :: k in t && t[k].endpoints != [] ==>
      exists n :: n in cache && k in cache[n].pairs && Rule(cache[n], k) == t[k]
  }

  // A client holds every rule with endpoints that the cache has for a service.
  ghost predicate Serves(e: Entry, t: Table)
    requires WellFormed(e)
  {
    forall k :: k in e.pairs && Rule(e, k).endpoints != [] ==> k in t && t[k] == Rule(e, k)
  }

  // clean: the client started or joined without a stray rule, or took a whole
  // replay that left it none; since then no call to it has failed, and no rule
  // with endpoints left the cache without a withdrawal.
  // ready: clean, and the alive event since then was handled without failure.
  // torn: the last withdrawal of the service failed and nothing repaired it.
  datatype Plane = Plane(world: World, clean: set<nat>, ready: set<nat>, torn: set<string>)

  ghost predicate Agrees(p: Plane)
  {
    && WellCached(p.world.cache)
    && p.ready <= p.clean
    && (forall i :: i in p.clean ==> i < |p.world.tables| && NoStray(p.world.cache, p.world.tables[i]))
    && (forall i, n :: i in p.ready && n in p.world.cache && n !in p.torn ==>
          Serves(p.world.cache[n], p.world.tables[i]))
  }

  // ---------- withdrawing ----------

  lemma KeysOfWellFormed(e: Entry)
    requires WellFormed(e)
    ensures Keys(e) == e.pairs.Keys
  {
  }

  lemma WithdrawnTable(tables: seq<Table>, ks: set<RuleKey>, ok: Oracle, i: nat)
    requires i < |tables| && forall k :: k in ks ==> ok(i, k)
    ensures Withdraw(tables, ks, ok)[i] == tables[i] - ks
  {
  }

  // An address is released or the entry dropped only once no client holds any
  // rule of the service; a failure changes neither.
  lemma ReleaseOnlyAfterWithdrawal(w: World, name: string, releaseAll: bool, ok: Oracle)
    requires name in w.cache
    ensures var d, ks := Delete(w, name, releaseAll, ok), Keys(w.cache[name]);
      && (d.released != {} || name !in d.world.cache ==> forall i :: 0 <= i < |w.tables| ==> d.world.tables[i].Keys !! ks)
      && (d.failed <==> !Acked(|w.tables|, ks, ok))
      && (d.failed ==> d.released == {} && d.world.cache == w.cache)
  {
    hide Keys, Releases;
    var ks := Keys(w.cache[name]);
    if Acked(|w.tables|, ks, ok) {
      forall i | 0 <= i < |w.tables| ensures Withdraw(w.tables, ks, ok)[i].Keys !! ks { WithdrawnTable(w.tables, ks, ok, i); }
    }
  }

  // ---------- installing ----------

  function NewKeys(sps: seq<SvcPair>): (ks: set<RuleKey>)
  {
    set i | 0 <= i < |sps| :: KeyOf(sps[i])
  }

  ghost predicate Reaches(ok: Oracle, i: nat, ks: set<RuleKey>)
  {
    forall k :: k in ks ==> ok(i, k)
  }

  ghost predicate Holds(done: map<RuleKey, Pair>, t: Table)
  {
    forall k :: k in done ==> |done[k].models| == 1 && done[k].models[0].key == k && k in t && t[k] == done[k].models[0]
  }

  ghost predicate SameElsewhere(t: Table, u: Table, ks: set<RuleKey>)
  {
    t - ks == u - ks
  }

  lemma SameAt(t: Table, u: Table, ks: set<RuleKey>, k: RuleKey)
    requires SameElsewhere(t, u, ks) && k !in ks
    ensures k in t <==> k in u
    ensures k in t ==> u[k] == t[k]
  {
    assert k in t - ks <==> k in u - ks;
    assert k in t ==> (t - ks)[k] == t[k];
    assert k in u ==> (u - ks)[k] == u[k];
  }

  // The client holds every rule of the entry that it accepted.
  ghost predicate HoldsAccepted(done: map<RuleKey, Pair>, t: Table, i: nat, ok: Oracle)
  {
    forall k :: k in done && ok(i, k) ==> |done[k].models| == 1 && done[k].models[0].key == k && k in t && t[k] == done[k].models[0]
  }

  ghost predicate SameOutside(t: Table, u: Table, done: map<RuleKey, Pair>, i: nat, ok: Oracle)
  {
    forall k :: !(k in done && ok(i, k)) ==> (k in t <==> k in u) && (k in t ==> u[k] == t[k])
  }

  function Created(t: Table, m: Model, i: nat, ok: Oracle): Table
  {
    if ok(i, m.key) then t[m.key := m] else t
  }

  lemma CreatedHolds(done: map<RuleKey, Pair>, t: Table, m: Model, p: Pair, i: nat, ok: Oracle)
    requires HoldsAccepted(done, t, i, ok) && p.models == [m]
    ensures HoldsAccepted(done[m.key := p], Created(t, m, i, ok), i, ok)
  {
  }

  lemma CreatedOutside(t: Table, u: Table, m: Model, done: map<RuleKey, Pair>, i: nat, ok: Oracle)
    requires SameOutside(Created(t, m, i, ok), u, done, i, ok) && m.key in done
    ensures SameOutside(t, u, done, i, ok)
  {
  }

  // Whatever single calls fail: a client ends with the new model of each cached
  // rule it accepted, every other rule of its untouched, also when a pair that
  // cannot be built ends the install.
  lemma {:induction false} InstallAllTable(tables: seq<Table>, done: map<RuleKey, Pair>, todo: seq<SvcPair>, e: Entry, input: Inputs, ok: Oracle, i: nat)
    requires i < |tables| && HoldsAccepted(done, tables[i], i, ok)
    ensures var r := InstallAll(tables, done, todo, e, input, ok);
      && done.Keys <= r.pairs.Keys
      && HoldsAccepted(r.pairs, r.tables[i], i, ok)
      && SameOutside(tables[i], r.tables[i], r.pairs, i, ok)
    decreases |todo|
  {
    hide MakeModel, TargetPorts, HoldsAccepted, SameOutside;
    Untouched(tables[i], done, i, ok);
    if todo != [] {
      var sp, m, r := todo[0], MakeModel(e, input, todo[0]), InstallAll(tables, done, todo, e, input, ok);
      assert Install(tables, m, ok)[i] == Created(tables[i], m, i, ok);
      if TargetPorts(input.target, sp.port) != [] && !AllFail(|tables|, m.key, ok) {
        var p := Pair(sp.inRange, sp.staticIP, sp.ident, [m]);
        CreatedHolds(done, tables[i], m, p, i, ok);
        InstallAllTable(Install(tables, m, ok), done[m.key := p], todo[1..], e, input, ok, i);
        CreatedOutside(tables[i], r.tables[i], m, r.pairs, i, ok);
      }
    }
  }

  lemma Untouched(t: Table, done: map<RuleKey, Pair>, i: nat, ok: Oracle)
    ensures SameOutside(t, t, done, i, ok)
  {
  }

  // So a client that every call reaches holds exactly the rules accepted.
  lemma ReachedHolds(done: map<RuleKey, Pair>, t: Table, u: Table, i: nat, ok: Oracle)
    requires HoldsAccepted(done, u, i, ok) && SameOutside(t, u, done, i, ok) && Reaches(ok, i, done.Keys)
    ensures Holds(done, u) && SameElsewhere(t, u, done.Keys)
  {
  }

  lemma HeadKey(todo: seq<SvcPair>)
    requires todo != []
    ensures NewKeys(todo) == {KeyOf(todo[0])} + NewKeys(todo[1..])
  {
  }

  // A pair that cannot be built, or that every one of n clients refuses.
  ghost predicate Refused(n: nat, sp: SvcPair, target: Target, ok: Oracle)
  {
    TargetPorts(target, sp.port) == [] || AllFail(n, KeyOf(sp), ok)
  }

  // The pairs before the first that is refused.
  ghost function Accepted(n: nat, todo: seq<SvcPair>, target: Target, ok: Oracle): (k: nat)
    ensures k <= |todo| && forall j :: 0 <= j < k ==> !Refused(n, todo[j], target, ok)
    ensures k < |todo| ==> Refused(n, todo[k], target, ok)
  {
    if todo == [] || Refused(n, todo[0], target, ok) then 0
    else 1 + Accepted(n, todo[1..], target, ok)
  }

  // The entry an install leaves, whatever single clients answered.
  lemma {:induction false} InstallAllPairs(tables: seq<Table>, done: map<RuleKey, Pair>, todo: seq<SvcPair>, e: Entry, input: Inputs, ok: Oracle)
    requires WellFormed(e.(pairs := done))
    ensures var r := InstallAll(tables, done, todo, e, input, ok);
      var k := Accepted(|tables|, todo, input.target, ok);
      && WellFormed(e.(pairs := r.pairs)) && r.pairs.Keys == done.Keys + NewKeys(todo[..k])
      && (r.failed <==> k < |todo|)
    decreases |todo|
  {
    hide Product, TargetPorts, Install, AllFail, NewKeys, WellFormed;
    var k := Accepted(|tables|, todo, input.target, ok);
    if k == 0 {
      NoKeys(todo[..0]);
    } else {
      var sp, m, rest := todo[0], MakeModel(e, input, todo[0]), todo[1..];
      var next := done[m.key := Pair(sp.inRange, sp.staticIP, sp.ident, [m])];
      HeadKey(todo[..k]);
      assert todo[..k][1..] == rest[..k - 1];
      OneMoreWellFormed(e, done, m.key, next[m.key]);
      InstallAllPairs(Install(tables, m, ok), next, rest, e, input, ok);
    }
  }

  lemma OneMoreWellFormed(e: Entry, done: map<RuleKey, Pair>, k: RuleKey, p: Pair)
    requires WellFormed(e.(pairs := done)) && |p.models| == 1 && IsFor(p.models[0], k, e)
    ensures WellFormed(e.(pairs := done[k := p]))
  {
  }

  lemma NoKeys(sps: seq<SvcPair>)
    requires sps == []
    ensures NewKeys(sps) == {}
  {
  }

  // ---------- the machine ----------

  datatype Event =
    | Reconciles(name: string, input: Inputs, pairs: seq<SvcPair>, stale: bool, okDel: Oracle, okAdd: Oracle)
    | Removes(name: string, ok: Oracle)
    | Crashes(client: nat)
    | Joins(table: Table)
    | Purges(client: nat)
    | Alive(client: nat, ok: Oracle)

  function CachedKeys(cache: map<string, Entry>): (ks: set<RuleKey>)
  {
    set m | m in Cached(cache) :: m.key
  }

  ghost function RuleFor(cache: map<string, Entry>, k: RuleKey): Model
    requires k in CachedKeys(cache)
  {
    var m :| m in Cached(cache) && m.key == k; m
  }

  // The alive handler creates every cached rule on the client.
  ghost function Replayed(cache: map<string, Entry>, t: Table, i: nat, ok: Oracle): Table
  {
    t + map k | k in CachedKeys(cache) && ok(i, k) :: RuleFor(cache, k)
  }

  // Every rule with endpoints on the client has a key that is cached.
  ghost predicate Keyed(cache: map<string, Entry>, t: Table)
  {
    forall k :: k in t && t[k].endpoints != [] ==> k in CachedKeys(cache)
  }

  // No two services share a rule key. A client joins with the rules it holds: a
  // purged instance keeps its own.
  ghost predicate Allowed(p: Plane, ev: Event)
  {
    match ev
    case Reconciles(name, input, pairs, stale, okDel, okAdd) => OwnKeys(p.world.cache, name, NewKeys(pairs))
    case Removes(name, ok) => true
    case Crashes(i) => i < |p.world.tables|
    case Joins(t) => true
    case Purges(i) => i < |p.world.tables|
    case Alive(i, ok) => i < |p.world.tables|
  }

  ghost predicate OwnKeys(cache: map<string, Entry>, name: string, ks: set<RuleKey>)
  {
    forall n, k :: n in cache && n != name && k in cache[n].pairs ==> k !in ks
  }

  // Every cached rule with endpoints is among the keys.
  ghost predicate KeepsLive(e: Entry, ks: set<RuleKey>)
  {
    forall k, j :: k in e.pairs && 0 <= j < |e.pairs[k].models| && e.pairs[k].models[j].endpoints != [] ==> k in ks
  }

  // The clients an update leaves clean: those it reached, unless it dropped a
  // rule with endpoints without withdrawing.
  ghost predicate StaysClean(w: World, name: string, input: Inputs, pairs: seq<SvcPair>, okDel: Oracle, okAdd: Oracle, i: nat)
  {
    && Reaches(okAdd, i, NewKeys(pairs))
    && if Withdraws(w, name, input) then Reaches(okDel, i, Keys(w.cache[name]))
       else name in w.cache ==> KeepsLive(w.cache[name], NewKeys(pairs[..Accepted(|w.tables|, pairs, input.target, okAdd)]))
  }

  // Client indices after one client left.
  function Shift(s: set<nat>, i: nat): (r: set<nat>)
    ensures forall j :: j in r <==> if j < i then j in s else j + 1 in s
  {
    (set x | x in s && x < i) + (set x: nat | x in s && x > i :: (x - 1) as nat)
  }

  ghost function Torn(p: Plane, w: World, name: string, ok: Oracle): Plane
    requires name in p.world.cache
  {
    var clean := set i | i in p.clean && Reaches(ok, i, Keys(p.world.cache[name]));
    Plane(w, clean, p.ready * clean, p.torn + {name})
  }

  ghost function Next(p: Plane, ev: Event): Plane
    requires Allowed(p, ev)
  {
    var w := p.world;
    match ev
    case Reconciles(name, input, pairs, stale, okDel, okAdd) =>
      var r := Reconcile(w, name, input, pairs, stale, okDel, okAdd);
      (match r.outcome
       case WithdrawFailed => Torn(p, r.world, name, okDel)
       case Withdrawn => p.(world := r.world, torn := p.torn - {name})
       case Rejected => p
       case Unchanged => p
       case _ =>
         var clean := set i | i in p.clean && StaysClean(w, name, input, pairs, okDel, okAdd, i);
         Plane(r.world, clean, p.ready * clean, p.torn - {name}))
    case Removes(name, ok) =>
      var d := Delete(w, name, true, ok);
      if d.failed then Torn(p, d.world, name, ok) else p.(world := d.world, torn := p.torn - {name})
    case Crashes(i) =>
      Plane(w.(tables := w.tables[i := map[]]), p.clean + {i}, p.ready - {i}, p.torn)
    case Joins(t) =>
      var own := if WellCached(w.cache) && NoStray(w.cache, t) then {|w.tables|} else {};
      Plane(w.(tables := w.tables + [t]), p.clean + own, p.ready, p.torn)
    case Purges(i) =>
      Plane(w.(tables := w.tables[..i] + w.tables[i + 1..]), Shift(p.clean, i), Shift(p.ready, i), p.torn)
    case Alive(i, ok) =>
      var after := w.(tables := w.tables[i := Replayed(w.cache, w.tables[i], i, ok)]);
      if Reaches(ok, i, CachedKeys(w.cache))
      then
        var own := if Keyed(w.cache, w.tables[i]) then {i} else {};
        Plane(after, p.clean + own, p.ready + own, p.torn)
      else Plane(after, p.clean - {i}, p.ready - {i}, p.torn)
  }

  // ---------- one service changes ----------

  ghost predicate SameOthers(c: map<string, Entry>, d: map<string, Entry>, name: string)
  {
    c - {name} == d - {name}
  }

  lemma OtherEntry(c: map<string, Entry>, d: map<string, Entry>, name: string, n: string)
    requires SameOthers(c, d, name) && n != name
    ensures n in c <==> n in d
    ensures n in c ==> d[n] == c[n]
  {
    assert n in c - {name} <==> n in d - {name};
    assert n in c ==> (c - {name})[n] == c[n];
    assert n in d ==> (d - {name})[n] == d[n];
  }

  // From table t to u, only rules of one service changed: rules the table now
  // holds for it are those newly cached, and no other service lost a rule.
  ghost predicate Moves(c: map<string, Entry>, d: map<string, Entry>, name: string, t: Table, u: Table)
    requires WellCached(c) && WellCached(d)
  {
    && (forall k :: k in u && u[k].endpoints != [] ==>
          || (k in t && t[k] == u[k] && (c == d || name !in c || k !in c[name].pairs))
          || (name in d && k in d[name].pairs && Rule(d[name], k) == u[k]))
    && (forall n, k :: n in c && n != name && k in c[n].pairs && k in t ==> k in u && u[k] == t[k])
  }

  lemma MovesKeepStraysOut(c: map<string, Entry>, d: map<string, Entry>, name: string, t: Table, u: Table)
    requires WellCached(c) && WellCached(d) && SameOthers(c, d, name)
    requires NoStray(c, t) && Moves(c, d, name, t, u)
    ensures NoStray(d, u)
  {
    forall k | k in u && u[k].endpoints != []
      ensures exists n :: n in d && k in d[n].pairs && Rule(d[n], k) == u[k]
    {
      if !(name in d && k in d[name].pairs && Rule(d[name], k) == u[k]) {
        var n :| n in c && k in c[n].pairs && Rule(c[n], k) == t[k];
        if n != name { OtherEntry(c, d, name, n); }
      }
    }
  }

  lemma MovesServeOthers(c: map<string, Entry>, d: map<string, Entry>, name: string, t: Table, u: Table, n: string)
    requires WellCached(c) && WellCached(d) && SameOthers(c, d, name) && Moves(c, d, name, t, u)
    requires n in c && n != name && Serves(c[n], t)
    ensures n in d && Serves(d[n], u)
  {
    OtherEntry(c, d, name, n);
  }

  // A step about one service keeps agreement if each client that stays clean
  // moves, and each that stays ready serves the service unless it is torn.
  lemma StepAgrees(p: Plane, q: Plane, name: string)
    requires Agrees(p) && WellCached(q.world.cache) && SameOthers(p.world.cache, q.world.cache, name)
    requires q.clean <= p.clean && q.ready == p.ready * q.clean && p.torn - {name} <= q.torn
    requires |q.world.tables| == |p.world.tables|
    requires forall i :: i in q.clean ==> Moves(p.world.cache, q.world.cache, name, p.world.tables[i], q.world.tables[i])
    requires name in q.world.cache && name !in q.torn ==> forall i :: i in q.ready ==> Serves(q.world.cache[name], q.world.tables[i])
    ensures Agrees(q)
  {
    hide WellFormed, Disjoint, Moves, NoStray, Serves, SameOthers;
    var c, d := p.world.cache, q.world.cache;
    forall i | i in q.clean ensures NoStray(d, q.world.tables[i]) {
      MovesKeepStraysOut(c, d, name, p.world.tables[i], q.world.tables[i]);
    }
    forall i, n | i in q.ready && n in d && n !in q.torn ensures Serves(d[n], q.world.tables[i]) {
      if n != name {
        OtherEntry(c, d, name, n);
        MovesServeOthers(c, d, name, p.world.tables[i], q.world.tables[i], n);
      }
    }
  }

  lemma WithoutKeepsForm(e: Entry)
    requires WellFormed(e)
    ensures WellFormed(WithoutEndpoints(e))
    ensures WithoutEndpoints(e).pairs.Keys == e.pairs.Keys
    ensures forall k :: k in e.pairs ==> WithoutEndpoints(e).pairs[k] == e.pairs[k].(models := [Rule(e, k).(endpoints := [])])
  {
  }

  // Changing one service's entry keeps the cache well formed when its rules
  // are its own.
  lemma ChangedWellCached(c: map<string, Entry>, d: map<string, Entry>, name: string)
    requires WellCached(c) && SameOthers(c, d, name)
    requires name in d ==> WellFormed(d[name])
    requires name in d ==> forall n, k :: n in c && n != name && k in c[n].pairs ==> k !in d[name].pairs
    ensures WellCached(d)
  {
    forall n | n in d && n != name ensures n in c && d[n] == c[n] { OtherEntry(c, d, name, n); }
  }

  // A failed withdrawal: rules may be missing for that service, nothing else.
  lemma TornAgrees(p: Plane, name: string, ok: Oracle)
    requires Agrees(p) && name in p.world.cache
    ensures Agrees(Torn(p, World(p.world.cache, Withdraw(p.world.tables, Keys(p.world.cache[name]), ok)), name, ok))
  {
    var w, ks := p.world, Keys(p.world.cache[name]);
    KeysOfWellFormed(w.cache[name]);
    var q := Torn(p, World(w.cache, Withdraw(w.tables, ks, ok)), name, ok);
    StepAgrees(p, q, name);
  }

  lemma WithdrawnServesIff(e: Entry, t: Table)
    requires WellFormed(e)
    ensures Serves(e, t - e.pairs.Keys) <==> KeepsLive(e, {})
  {
    if !KeepsLive(e, {}) {
      var k, j :| k in e.pairs && 0 <= j < |e.pairs[k].models| && e.pairs[k].models[j].endpoints != [];
      assert Rule(e, k).endpoints != [];
    }
  }

  // A client that did acknowledge every delete of a withdrawal another client
  // refused still serves the service if and only if the service had no rule
  // with endpoints.
  lemma TornServesIff(p: Plane, name: string, ok: Oracle, i: nat)
    requires Agrees(p) && name in p.world.cache && i in p.ready && Reaches(ok, i, Keys(p.world.cache[name]))
    ensures var e := p.world.cache[name];
      Serves(e, Withdraw(p.world.tables, Keys(e), ok)[i]) <==> KeepsLive(e, {})
  {
    hide NoStray, Serves, KeepsLive, WellFormed, Disjoint, Keys, Withdraw;
    var e := p.world.cache[name];
    KeysOfWellFormed(e);
    WithdrawnTable(p.world.tables, Keys(e), ok, i);
    WithdrawnServesIff(e, p.world.tables[i]);
  }

  lemma WithdrawnMoves(c: map<string, Entry>, d: map<string, Entry>, name: string, t: Table)
    requires WellCached(c) && WellCached(d) && name in c
    ensures Moves(c, d, name, t, t - c[name].pairs.Keys)
  {
  }

  lemma EmptiedServes(e: Entry, t: Table)
    requires WellFormed(e)
    ensures WellFormed(WithoutEndpoints(e)) && Serves(WithoutEndpoints(e), t)
  {
  }

  // Dropping the entry of a service, or emptying its rules.
  lemma EmptiedWellCached(c: map<string, Entry>, d: map<string, Entry>, name: string)
    requires WellCached(c) && name in c
    requires d == c - {name} || d == c[name := WithoutEndpoints(c[name])]
    ensures SameOthers(c, d, name) && WellCached(d)
  {
    WithoutKeepsForm(c[name]);
    assert SameOthers(c, d, name);
    ChangedWellCached(c, d, name);
  }

  // A complete withdrawal, followed by either.
  lemma WithdrawnAgrees(p: Plane, name: string, ok: Oracle, cache: map<string, Entry>)
    requires Agrees(p) && name in p.world.cache && Acked(|p.world.tables|, Keys(p.world.cache[name]), ok)
    requires cache == p.world.cache - {name} || cache == p.world.cache[name := WithoutEndpoints(p.world.cache[name])]
    ensures Agrees(Plane(World(cache, Withdraw(p.world.tables, Keys(p.world.cache[name]), ok)), p.clean, p.ready, p.torn - {name}))
  {
    hide WellFormed, Disjoint, Moves, NoStray, Serves, SameOthers, Withdraw, WithoutEndpoints, Keys;
    var w, e := p.world, p.world.cache[name];
    KeysOfWellFormed(e);
    EmptiedWellCached(w.cache, cache, name);
    var q := Plane(World(cache, Withdraw(w.tables, Keys(e), ok)), p.clean, p.ready, p.torn - {name});
    forall i | i in q.clean ensures Moves(w.cache, cache, name, w.tables[i], q.world.tables[i]) {
      WithdrawnTable(w.tables, Keys(e), ok, i);
      WithdrawnMoves(w.cache, cache, name, w.tables[i]);
    }
    forall i | i in q.ready && name in cache ensures Serves(cache[name], q.world.tables[i]) {
      EmptiedServes(e, q.world.tables[i]);
    }
    StepAgrees(p, q, name);
  }

  // ---------- an update ----------

  lemma RefreshedKeys(sps: seq<SvcPair>, was: map<RuleKey, Pair>)
    ensures NewKeys(RefreshedAll(sps, was)) == NewKeys(sps)
  {
  }

  // Keeping pool records changes neither which pairs are accepted nor their keys.
  lemma RefreshedAccepted(n: nat, sps: seq<SvcPair>, was: map<RuleKey, Pair>, target: Target, ok: Oracle)
    ensures var k := Accepted(n, sps, target, ok);
      Accepted(n, RefreshedAll(sps, was), target, ok) == k && NewKeys(RefreshedAll(sps, was)[..k]) == NewKeys(sps[..k])
  {
    hide TargetPorts, AllFail;
    var k, rs := Accepted(n, sps, target, ok), RefreshedAll(sps, was);
    assert forall j :: 0 <= j < |sps| ==> (Refused(n, rs[j], target, ok) <==> Refused(n, sps[j], target, ok));
    assert rs[..k] == RefreshedAll(sps[..k], was);
    RefreshedKeys(sps[..k], was);
  }

  lemma PrefixKeys(sps: seq<SvcPair>, k: nat)
    requires k <= |sps|
    ensures NewKeys(sps[..k]) <= NewKeys(sps) && (k == |sps| ==> sps[..k] == sps)
  {
    assert forall j :: 0 <= j < k ==> sps[..k][j] == sps[j];
  }

  // A rule a service has in a table free of strays is the one it cached.
  lemma LiveIsCached(c: map<string, Entry>, t: Table, name: string, k: RuleKey)
    requires WellCached(c) && NoStray(c, t) && name in c && k in c[name].pairs && k in t && t[k].endpoints != []
    ensures Rule(c[name], k) == t[k]
  {
    var n :| n in c && k in c[n].pairs && Rule(c[n], k) == t[k];
    assert n == name;
  }

  // The table a client ends an update with, when every call reached it: the
  // new rules, what it held, less what was withdrawn.
  lemma UpdatedMoves(c: map<string, Entry>, d: map<string, Entry>, name: string, t: Table, mid: Table, u: Table, ks: set<RuleKey>)
    requires WellCached(c) && WellCached(d) && NoStray(c, t) && name in d && d[name].pairs.Keys == ks
    requires if name in c then mid == t - c[name].pairs.Keys || (mid == t && KeepsLive(c[name], ks)) else mid == t
    requires Holds(d[name].pairs, u) && SameElsewhere(mid, u, ks) && OwnKeys(c, name, ks)
    ensures Moves(c, d, name, t, u) && Serves(d[name], u)
  {
    forall k | k in u && u[k].endpoints != [] && k !in ks
      ensures k in t && t[k] == u[k] && (name !in c || k !in c[name].pairs)
    {
      SameAt(mid, u, ks, k);
      if name in c && k in c[name].pairs && mid == t { LiveIsCached(c, t, name, k); }
    }
    forall n, k | n in c && n != name && k in c[n].pairs && k in t ensures k in u && u[k] == t[k] {
      SameAt(mid, u, ks, k);
    }
  }

  lemma NothingHeld(t: Table, i: nat, ok: Oracle)
    ensures HoldsAccepted(map[], t, i, ok)
  {
  }

  lemma ReachesFewer(ok: Oracle, i: nat, fewer: set<RuleKey>, ks: set<RuleKey>)
    requires Reaches(ok, i, ks) && fewer <= ks
    ensures Reaches(ok, i, fewer)
  {
  }

  lemma ReachedTable(tables: seq<Table>, ks: set<RuleKey>, ok: Oracle, i: nat)
    requires i < |tables| && Reaches(ok, i, ks)
    ensures Withdraw(tables, ks, ok)[i] == tables[i] - ks
  {
    WithdrawnTable(tables, ks, ok, i);
  }

  // What an update leaves on client i when every call reached it.
  lemma UpdatedTable(w: World, name: string, input: Inputs, pairs: seq<SvcPair>, okDel: Oracle, okAdd: Oracle, i: nat)
    requires WellCached(w.cache) && i < |w.tables|
    requires Reaches(okAdd, i, NewKeys(pairs))
    requires Withdraws(w, name, input) ==> Reaches(okDel, i, Keys(w.cache[name]))
    ensures var r := Update(w, name, input, pairs, okDel, okAdd).world;
      && |r.tables| == |w.tables| && name in r.cache
      && Holds(r.cache[name].pairs, r.tables[i])
      && SameElsewhere(if Withdraws(w, name, input) then w.tables[i] - w.cache[name].pairs.Keys else w.tables[i],
                       r.tables[i], r.cache[name].pairs.Keys)
  {
    hide InstallAll, Withdraw, Keys, NewKeys, Stored, Refused, Accepted, RefreshedAll, WellFormed, Disjoint,
         Reaches, Holds, SameElsewhere, HoldsAccepted, SameOutside;
    var was := Current(w, name, input);
    var e := was.(settings := Stored(input.settings), pairs := map[]);
    var tables := if Withdraws(w, name, input) then Withdraw(w.tables, Keys(was), okDel) else w.tables;
    if Withdraws(w, name, input) {
      KeysOfWellFormed(was);
      ReachedTable(w.tables, Keys(was), okDel, i);
    }
    var r := InstallAll(tables, map[], RefreshedAll(pairs, was.pairs), e, input, okAdd);
    NothingHeld(tables[i], i, okAdd);
    InstallAllTable(tables, map[], RefreshedAll(pairs, was.pairs), e, input, okAdd, i);
    UpdatedPairs(w, name, input, pairs, okDel, okAdd);
    PrefixKeys(pairs, Accepted(|w.tables|, pairs, input.target, okAdd));
    ReachesFewer(okAdd, i, r.pairs.Keys, NewKeys(pairs));
    ReachedHolds(r.pairs, tables[i], r.tables[i], i, okAdd);
  }

  lemma NothingIsWellFormed(e: Entry)
    requires e.pairs == map[]
    ensures WellFormed(e)
  {
  }

  // The entry an update leaves, whatever single clients answered.
  lemma UpdatedPairs(w: World, name: string, input: Inputs, pairs: seq<SvcPair>, okDel: Oracle, okAdd: Oracle)
    ensures var r := Update(w, name, input, pairs, okDel, okAdd);
      var k := Accepted(|w.tables|, pairs, input.target, okAdd);
      && name in r.world.cache && WellFormed(r.world.cache[name]) && r.world.cache == w.cache[name := r.world.cache[name]]
      && r.world.cache[name].pairs.Keys == NewKeys(pairs[..k])
      && (r.outcome.Updated? <==> k == |pairs|)
  {
    hide InstallAll, Withdraw, Withdraws, Current, Keys, NewKeys, Stored, Refused, Accepted, RefreshedAll, WellFormed;
    var was := Current(w, name, input);
    var e := was.(settings := Stored(input.settings), pairs := map[]);
    var tables := if Withdraws(w, name, input) then Withdraw(w.tables, Keys(was), okDel) else w.tables;
    RefreshedAccepted(|w.tables|, pairs, was.pairs, input.target, okAdd);
    NothingIsWellFormed(e);
    InstallAllPairs(tables, map[], RefreshedAll(pairs, was.pairs), e, input, okAdd);
  }

  // The cache an update leaves.
  lemma UpdatedCache(w: World, name: string, input: Inputs, pairs: seq<SvcPair>, okDel: Oracle, okAdd: Oracle)
    requires WellCached(w.cache) && OwnKeys(w.cache, name, NewKeys(pairs))
    ensures var r := Update(w, name, input, pairs, okDel, okAdd);
      var d := r.world.cache;
      var k := Accepted(|w.tables|, pairs, input.target, okAdd);
      && WellCached(d) && SameOthers(w.cache, d, name) && name in d
      && d[name].pairs.Keys == NewKeys(pairs[..k]) <= NewKeys(pairs)
      && (r.outcome.Updated? <==> k == |pairs|)
      && (k == |pairs| ==> pairs[..k] == pairs)
  {
    hide Update, Accepted, NewKeys, WellFormed, Disjoint;
    UpdatedPairs(w, name, input, pairs, okDel, okAdd);
    PrefixKeys(pairs, Accepted(|w.tables|, pairs, input.target, okAdd));
    var d := Update(w, name, input, pairs, okDel, okAdd).world.cache;
    assert SameOthers(w.cache, d, name);
    ChangedWellCached(w.cache, d, name);
  }

  // Without the withdrawal, a rule no longer cached stays on every client that
  // holds it, and no service owns it any more.
  lemma DroppedRuleStays(w: World, name: string, input: Inputs, pairs: seq<SvcPair>, okDel: Oracle, okAdd: Oracle, i: nat, k: RuleKey)
    requires WellCached(w.cache) && i < |w.tables| && OwnKeys(w.cache, name, NewKeys(pairs))
    requires Reaches(okAdd, i, NewKeys(pairs)) && !Withdraws(w, name, input)
    requires var r := Update(w, name, input, pairs, okDel, okAdd).world;
      name in w.cache && k in w.cache[name].pairs && name in r.cache && k !in r.cache[name].pairs
    requires k in w.tables[i] && w.tables[i][k].endpoints != []
    ensures var r := Update(w, name, input, pairs, okDel, okAdd).world;
      && |r.tables| == |w.tables| && k in r.tables[i] && r.tables[i][k] == w.tables[i][k]
      && WellCached(r.cache) && !NoStray(r.cache, r.tables[i])
  {
    hide Update, Reaches, NewKeys, Holds, SameElsewhere;
    var r := Update(w, name, input, pairs, okDel, okAdd).world;
    UpdatedTable(w, name, input, pairs, okDel, okAdd, i);
    UpdatedCache(w, name, input, pairs, okDel, okAdd);
    SameAt(w.tables[i], r.tables[i], r.cache[name].pairs.Keys, k);
    forall n | n in r.cache && n != name ensures k !in r.cache[n].pairs { OtherEntry(w.cache, r.cache, name, n); }
  }

  // So on a client that agreed, a sync that updates without withdrawing leaves
  // no stray rule if and only if every rule with endpoints is among the pairs
  // before the first that cannot be built or that every client refuses.
  lemma UpdateStraysIff(w: World, name: string, input: Inputs, pairs: seq<SvcPair>, okDel: Oracle, okAdd: Oracle, i: nat)
    requires WellCached(w.cache) && i < |w.tables| && OwnKeys(w.cache, name, NewKeys(pairs))
    requires Reaches(okAdd, i, NewKeys(pairs)) && !Withdraws(w, name, input)
    requires NoStray(w.cache, w.tables[i]) && (name in w.cache ==> Serves(w.cache[name], w.tables[i]))
    ensures var r := Update(w, name, input, pairs, okDel, okAdd);
      && |r.world.tables| == |w.tables| && WellCached(r.world.cache) && name in r.world.cache
      && (NoStray(r.world.cache, r.world.tables[i]) <==>
            (name in w.cache ==> KeepsLive(w.cache[name], NewKeys(pairs[..Accepted(|w.tables|, pairs, input.target, okAdd)]))))
  {
    hide Update, Reaches, NewKeys, Holds, SameElsewhere, Moves, Disjoint, Accepted, NoStray, SameOthers;
    var r := Update(w, name, input, pairs, okDel, okAdd).world;
    UpdatedTable(w, name, input, pairs, okDel, okAdd, i);
    UpdatedCache(w, name, input, pairs, okDel, okAdd);
    var ks := r.cache[name].pairs.Keys;
    if name in w.cache && !KeepsLive(w.cache[name], ks) {
      var k, j :| k in w.cache[name].pairs && 0 <= j < |w.cache[name].pairs[k].models| &&
                  w.cache[name].pairs[k].models[j].endpoints != [] && k !in ks;
      assert w.cache[name].pairs[k].models[j] == Rule(w.cache[name], k);
      DroppedRuleStays(w, name, input, pairs, okDel, okAdd, i, k);
    } else {
      OwnKeysFewer(w.cache, name, NewKeys(pairs), ks);
      UpdatedMoves(w.cache, r.cache, name, w.tables[i], w.tables[i], r.tables[i], ks);
      MovesKeepStraysOut(w.cache, r.cache, name, w.tables[i], r.tables[i]);
    }
  }

  lemma OwnKeysFewer(cache: map<string, Entry>, name: string, ks: set<RuleKey>, fewer: set<RuleKey>)
    requires OwnKeys(cache, name, ks) && fewer <= ks
    ensures OwnKeys(cache, name, fewer)
  {
  }

  lemma UpdateOutcome(w: World, name: string, input: Inputs, pairs: seq<SvcPair>, okDel: Oracle, okAdd: Oracle)
    ensures var r := Update(w, name, input, pairs, okDel, okAdd);
      |r.world.tables| == |w.tables| && (r.outcome.Updated? || r.outcome.InstallFailed?)
  {
  }

  lemma UpdatedAgrees(p: Plane, name: string, input: Inputs, pairs: seq<SvcPair>, okDel: Oracle, okAdd: Oracle, q: Plane)
    requires Agrees(p) && OwnKeys(p.world.cache, name, NewKeys(pairs))
    requires q.world == Update(p.world, name, input, pairs, okDel, okAdd).world
    requires q.clean <= p.clean && q.ready == p.ready * q.clean && q.torn == p.torn - {name}
    requires forall i :: i in q.clean ==> StaysClean(p.world, name, input, pairs, okDel, okAdd, i)
    ensures Agrees(q)
  {
    hide WellFormed, Disjoint, Moves, NoStray, Serves, SameOthers, SameElsewhere, Holds, Keys, NewKeys, Update, Reaches, KeepsLive;
    var w := p.world;
    UpdatedCache(w, name, input, pairs, okDel, okAdd);
    var ks := q.world.cache[name].pairs.Keys;
    OwnKeysFewer(w.cache, name, NewKeys(pairs), ks);
    forall i | i in q.clean
      ensures |q.world.tables| == |w.tables| && Moves(w.cache, q.world.cache, name, w.tables[i], q.world.tables[i])
      ensures Serves(q.world.cache[name], q.world.tables[i])
    {
      UpdatedTable(w, name, input, pairs, okDel, okAdd, i);
      var mid := if Withdraws(w, name, input) then w.tables[i] - w.cache[name].pairs.Keys else w.tables[i];
      UpdatedMoves(w.cache, q.world.cache, name, w.tables[i], mid, q.world.tables[i], ks);
    }
    UpdateOutcome(w, name, input, pairs, okDel, okAdd);
    StepAgrees(p, q, name);
  }

  // ---------- crash and replay ----------

  lemma CrashAgrees(p: Plane, i: nat)
    requires Agrees(p) && i < |p.world.tables|
    ensures Agrees(Next(p, Crashes(i)))
  {
  }

  lemma JoinAgrees(p: Plane, t: Table)
    requires Agrees(p)
    ensures Agrees(Next(p, Joins(t)))
  {
    hide NoStray, Serves, WellFormed, Disjoint;
    var q := Next(p, Joins(t));
    assert forall j :: j in p.clean ==> q.world.tables[j] == p.world.tables[j];
  }

  lemma PurgeAgrees(p: Plane, i: nat)
    requires Agrees(p) && i < |p.world.tables|
    ensures Agrees(Next(p, Purges(i)))
  {
    hide NoStray, Serves, WellFormed, Disjoint;
    var q := Next(p, Purges(i));
    forall j | j in q.clean ensures j < |q.world.tables| && q.world.tables[j] == p.world.tables[if j < i then j else j + 1] {}
  }

  // A cached rule has one owner, so the replay sends that owner's model.
  lemma RuleForIsRule(cache: map<string, Entry>, n: string, k: RuleKey)
    requires WellCached(cache) && n in cache && k in cache[n].pairs
    ensures k in CachedKeys(cache) && RuleFor(cache, k) == Rule(cache[n], k)
  {
  }

  lemma CachedKeyOwned(cache: map<string, Entry>, k: RuleKey) returns (n: string)
    requires WellCached(cache) && k in CachedKeys(cache)
    ensures n in cache && k in cache[n].pairs
  {
    hide Disjoint;
    var m :| m in Cached(cache) && m.key == k;
    var l, j;
    n, l, j :| n in cache && l in cache[n].pairs && 0 <= j < |cache[n].pairs[l].models| && cache[n].pairs[l].models[j] == m;
    assert l == k;
  }

  lemma ReplayedServes(cache: map<string, Entry>, t: Table, i: nat, ok: Oracle, n: string)
    requires WellCached(cache) && n in cache && (Reaches(ok, i, CachedKeys(cache)) || Serves(cache[n], t))
    ensures Serves(cache[n], Replayed(cache, t, i, ok))
  {
    hide RuleFor, Cached, CachedKeys;
    forall k | k in cache[n].pairs ensures k in CachedKeys(cache) && RuleFor(cache, k) == Rule(cache[n], k) {
      RuleForIsRule(cache, n, k);
    }
  }

  lemma CachedIsOwned(cache: map<string, Entry>, k: RuleKey)
    requires WellCached(cache) && k in CachedKeys(cache)
    ensures exists n :: n in cache && k in cache[n].pairs && Rule(cache[n], k) == RuleFor(cache, k)
  {
    hide RuleFor, Cached, CachedKeys;
    var n := CachedKeyOwned(cache, k);
    RuleForIsRule(cache, n, k);
  }

  lemma ReplayedNoStray(cache: map<string, Entry>, t: Table, i: nat, ok: Oracle)
    requires WellCached(cache) && NoStray(cache, t)
    ensures NoStray(cache, Replayed(cache, t, i, ok))
  {
    hide RuleFor, Cached, CachedKeys, Disjoint, IsFor;
    var u := Replayed(cache, t, i, ok);
    forall k | k in u && u[k].endpoints != []
      ensures exists n :: n in cache && k in cache[n].pairs && Rule(cache[n], k) == u[k]
    {
      if k in CachedKeys(cache) && ok(i, k) { CachedIsOwned(cache, k); }
    }
  }

  // A whole replay leaves no stray rule, on a client that came with any table, if
  // and only if every rule with endpoints it came with has a key that is cached.
  lemma ReplayStraysIff(cache: map<string, Entry>, t: Table, i: nat, ok: Oracle)
    requires WellCached(cache) && Reaches(ok, i, CachedKeys(cache))
    ensures NoStray(cache, Replayed(cache, t, i, ok)) <==> Keyed(cache, t)
  {
    hide RuleFor, Cached, CachedKeys, Disjoint, IsFor;
    var u := Replayed(cache, t, i, ok);
    assert forall k :: k in u && k !in CachedKeys(cache) ==> k in t && u[k] == t[k];
    forall k | k in CachedKeys(cache)
      ensures exists n :: n in cache && k in cache[n].pairs && Rule(cache[n], k) == u[k]
    {
      CachedIsOwned(cache, k);
    }
    forall n, k | n in cache && k in cache[n].pairs ensures k in CachedKeys(cache) { RuleForIsRule(cache, n, k); }
  }

  lemma AliveAgrees(p: Plane, i: nat, ok: Oracle)
    requires Agrees(p) && i < |p.world.tables|
    ensures Agrees(Next(p, Alive(i, ok)))
  {
    hide Replayed, WellFormed, Disjoint, NoStray, Serves, Reaches, Keyed;
    var q, w := Next(p, Alive(i, ok)), p.world;
    if i in p.clean { ReplayedNoStray(w.cache, w.tables[i], i, ok); }
    if Reaches(ok, i, CachedKeys(w.cache)) { ReplayStraysIff(w.cache, w.tables[i], i, ok); }
    forall n | n in w.cache && (Reaches(ok, i, CachedKeys(w.cache)) || (i in p.ready && n !in p.torn))
      ensures Serves(w.cache[n], q.world.tables[i])
    {
      ReplayedServes(w.cache, w.tables[i], i, ok, n);
    }
    assert forall j :: j in q.clean && j != i ==> q.world.tables[j] == w.tables[j];
  }

  // ---------- every run ----------

  lemma NextAgrees(p: Plane, ev: Event)
    requires Agrees(p) && Allowed(p, ev)
    ensures Agrees(Next(p, ev))
  {
    hide Agrees, Withdraw, Update;
    var w := p.world;
    match ev
    case Crashes(i) => CrashAgrees(p, i);
    case Joins(t) => JoinAgrees(p, t);
    case Purges(i) => PurgeAgrees(p, i);
    case Alive(i, ok) => AliveAgrees(p, i, ok);
    case Removes(name, ok) =>
      if name in w.cache {
        if Delete(w, name, true, ok).failed { TornAgrees(p, name, ok); }
        else { WithdrawnAgrees(p, name, ok, w.cache - {name}); }
      } else {
        AbsentAgrees(p, name);
      }
    case Reconciles(name, input, pairs, stale, okDel, okAdd) =>
      var r := Reconcile(w, name, input, pairs, stale, okDel, okAdd);
      UpdateOutcome(w, name, input, pairs, okDel, okAdd);
      match r.outcome {
        case WithdrawFailed => TornAgrees(p, name, okDel);
        case Withdrawn => WithdrawnAgrees(p, name, okDel, r.world.cache);
        case Rejected =>
        case Unchanged =>
        case _ => UpdatedAgrees(p, name, input, pairs, okDel, okAdd, Next(p, ev));
      }
  }

  lemma AbsentAgrees(p: Plane, name: string)
    requires Agrees(p) && name !in p.world.cache
    ensures Agrees(p.(torn := p.torn - {name}))
  {
  }

  function AllClients(n: nat): (s: set<nat>)
    ensures forall i :: i in s <==> 0 <= i < n
  {
    if n == 0 then {} else AllClients(n - 1) + {n - 1}
  }

  // Every client has just started and the cache is empty.
  function Started(n: nat): Plane
  {
    Plane(World(map[], seq(n, _ => map[])), AllClients(n), {}, {})
  }

  ghost predicate IsRun(run: seq<Plane>, events: seq<Event>)
  {
    && |run| == |events| + 1
    && (exists n: nat :: run[0] == Started(n))
    && forall s :: 0 <= s < |events| ==> Allowed(run[s], events[s]) && run[s + 1] == Next(run[s], events[s])
  }

  // The rules that forward traffic.
  function Live(t: Table): set<Model>
  {
    set k | k in t && t[k].endpoints != [] :: t[k]
  }

  function LiveCached(cache: map<string, Entry>): set<Model>
  {
    set m | m in Cached(cache) && m.endpoints != []
  }

  lemma ExactTable(p: Plane, i: nat)
    requires Agrees(p) && i in p.ready && p.torn == {}
    ensures Live(p.world.tables[i]) == LiveCached(p.world.cache)
  {
  }

  // In every state of every run, whatever calls fail: a clean client holds only
  // cached rules; a ready one serves every service whose last withdrawal did not
  // fail, and with no such failure pending holds exactly the cached rules.
  lemma {:induction false} RunsAgree(run: seq<Plane>, events: seq<Event>, s: nat)
    requires IsRun(run, events) && s < |run|
    ensures Agrees(run[s])
    ensures forall i :: i in run[s].ready && run[s].torn == {} ==>
      Live(run[s].world.tables[i]) == LiveCached(run[s].world.cache)
  {
    if s == 0 {
      var n: nat :| run[0] == Started(n);
    } else {
      RunsAgree(run, events, s - 1);
      NextAgrees(run[s - 1], events[s - 1]);
    }
    forall i | i in run[s].ready && run[s].torn == {}
      ensures Live(run[s].world.tables[i]) == LiveCached(run[s].world.cache)
    {
      ExactTable(run[s], i);
    }
  }
}
