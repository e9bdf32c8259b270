// What a sync makes the loxilb instances do, in the inputs' own terms, and when
// it does which of its outcomes
// (pkg/agent/manager/loadbalancer/loadbalancer.go:825-1104, 1936-2039).

module Forwarding {
  import opened Basics
  import opened Rules
  import opened RuleAgreement
  import opened EndpointChanges
  import opened Idempotence
  import RuleManager

  // The ports traffic of a service port is sent to: its node port, the pod's
  // port, or each port of the endpoint slices. Pod mode wins over slices.
  ghost predicate SentTo(t: Target, p: SvcPort, ports: seq<nat>)
  {
    match t
    case NodePorts => ports == [p.nodePort]
    case PodPorts(resolved) => p in resolved && ports == [resolved[p]]
    case SlicePorts(slices) => ports == slices != []
    case PodAndSlices(resolved, _) => p in resolved && ports == [resolved[p]]
    case PodAndNoSlices(resolved) => p in resolved && ports == [resolved[p]]
    case NoSlices => false
  }

  // The endpoints are every address on every port, addresses outermost, ports cut
  // to 16 bits, each with weight 1.
  ghost predicate EachOnEach(eps: seq<Endpoint>, ips: seq<string>, ports: seq<nat>)
  {
    && |eps| == |ips| * |ports|
    && forall a, b :: 0 <= a < |ips| && 0 <= b < |ports| ==> EndpointAt(eps, a, b, |ports|, Endpoint(ips[a], ports[b] % 0x1_0000, 1))
  }

  predicate EndpointAt(eps: seq<Endpoint>, a: nat, b: nat, n: nat, x: Endpoint)
  {
    a * n + b < |eps| && eps[a * n + b] == x
  }

  lemma ProductIsEach(ips: seq<string>, ports: seq<nat>)
    ensures EachOnEach(Product(ips, ports), ips, ports)
  {
    hide Product;
    forall a, b | 0 <= a < |ips| && 0 <= b < |ports|
      ensures EndpointAt(Product(ips, ports), a, b, |ports|, Endpoint(ips[a], ports[b] % 0x1_0000, 1))
    {
      ProductAt(ips, ports, a, b);
    }
  }

  lemma TargetIsSent(t: Target, p: SvcPort)
    ensures TargetPorts(t, p) != [] ==> SentTo(t, p, TargetPorts(t, p))
    ensures TargetPorts(t, p) == [] ==> forall ports :: !SentTo(t, p, ports)
  {
  }

  // The table of a client after an update, for a rule it accepted.
  lemma AcceptedIsCached(w: World, name: string, input: Inputs, pairs: seq<SvcPair>, okDel: Oracle, okAdd: Oracle, i: nat, k: RuleKey)
    requires i < |w.tables|
    ensures var r := Update(w, name, input, pairs, okDel, okAdd).world;
      && |r.tables| == |w.tables| && name in r.cache && WellFormed(r.cache[name])
      && (k in r.cache[name].pairs && okAdd(i, k) ==> k in r.tables[i] && r.tables[i][k] == Rule(r.cache[name], k))
  {
    hide InstallAll, Withdraw, Keys, NewKeys, Stored, Accepted, RefreshedAll, SameOutside;
    var was := Current(w, name, input);
    var e := was.(settings := Stored(input.settings), pairs := map[]);
    var tables := if Withdraws(w, name, input) then Withdraw(w.tables, Keys(was), okDel) else w.tables;
    NothingHeld(tables[i], i, okAdd);
    InstallAllTable(tables, map[], RefreshedAll(pairs, was.pairs), e, input, okAdd, i);
    UpdatedPairs(w, name, input, pairs, okDel, okAdd);
  }

  // No other pair has the key and another port: a service's ports differ in
  // number or protocol.
  ghost predicate OnePort(pairs: seq<SvcPair>, j: nat)
    requires j < |pairs|
  {
    forall x :: 0 <= x < |pairs| && KeyOf(pairs[x]) == KeyOf(pairs[j]) ==> pairs[x].port == pairs[j].port
  }

  // After an update each client that accepted the rule of a pair forwards its
  // address and port to every endpoint on the ports of the target, with the
  // settings of now, the probe port cut to 16 bits; the cache says the same.
  lemma UpdatedForwards(w: World, name: string, input: Inputs, pairs: seq<SvcPair>, okDel: Oracle, okAdd: Oracle, i: nat, j: nat)
    returns (ports: seq<nat>)
    requires Update(w, name, input, pairs, okDel, okAdd).outcome.Updated?
    requires i < |w.tables| && j < |pairs| && okAdd(i, KeyOf(pairs[j])) && OnePort(pairs, j)
    ensures SentTo(input.target, pairs[j].port, ports)
    ensures var r := Update(w, name, input, pairs, okDel, okAdd).world;
      var k := RuleKey(pairs[j].ip, pairs[j].port.num, pairs[j].port.proto);
      && |r.tables| == |w.tables| && k in r.tables[i] && r.tables[i][k].key == k
      && EachOnEach(r.tables[i][k].endpoints, input.endpoints, ports)
      && r.tables[i][k].settings == input.settings.(probePort := input.settings.probePort % 0x1_0000)
      && r.tables[i][k].inst == (if name in w.cache then w.cache[name].inst else input.inst)
      && name in r.cache && k in r.cache[name].pairs && r.cache[name].pairs[k].models == [r.tables[i][k]]
  {
    hide Update, Product, TargetPorts, SentTo, EachOnEach;
    var k, r := KeyOf(pairs[j]), Update(w, name, input, pairs, okDel, okAdd).world;
    UpdatedEntry(w, name, input, pairs, okDel, okAdd);
    EntryKeeps(w, name, input, pairs, okDel, okAdd);
    assert k in NewKeys(pairs) && k in r.cache[name].pairs;
    AcceptedIsCached(w, name, input, pairs, okDel, okAdd, i, k);
    assert BuiltFrom(r.cache[name].pairs[k], k, pairs, input);
    var x :| 0 <= x < |pairs| && KeyOf(pairs[x]) == k && r.cache[name].pairs[k].models[0].endpoints == Built(input, pairs[x]);
    assert pairs[x].port == pairs[j].port;
    ports := TargetPorts(input.target, pairs[j].port);
    TargetIsSent(input.target, pairs[j].port);
    ProductIsEach(input.endpoints, ports);
  }

  lemma EntryKeeps(w: World, name: string, input: Inputs, pairs: seq<SvcPair>, okDel: Oracle, okAdd: Oracle)
    ensures var r := Update(w, name, input, pairs, okDel, okAdd).world;
      && name in r.cache && r.cache[name].inst == (if name in w.cache then w.cache[name].inst else input.inst)
      && r.cache[name].pool == (if name in w.cache then w.cache[name].pool else input.pool)
      && r.cache[name].settings == input.settings.(probePort := input.settings.probePort % 0x1_0000)
      && forall n :: n != name ==> (n in r.cache <==> n in w.cache) && (n in w.cache ==> r.cache[n] == w.cache[n])
  {
    hide InstallAll, Withdraw, Keys, RefreshedAll;
  }

  // On a client that every call reaches, a rule the service had and has no more is
  // gone after an update if and only if the settings changed: only then is it
  // withdrawn.
  lemma OldRuleGoesIff(w: World, name: string, input: Inputs, pairs: seq<SvcPair>, okDel: Oracle, okAdd: Oracle, i: nat, k: RuleKey)
    requires WellCached(w.cache) && i < |w.tables| && name in w.cache
    requires (forall x :: okDel(i, x)) && (forall x :: okAdd(i, x)) && k in w.cache[name].pairs && k in w.tables[i]
    requires forall j :: 0 <= j < |pairs| ==> KeyOf(pairs[j]) != k
    ensures var r := Update(w, name, input, pairs, okDel, okAdd).world;
      && |r.tables| == |w.tables| && (k !in r.tables[i] <==> input.settings != w.cache[name].settings)
      && (k in r.tables[i] ==> r.tables[i][k] == w.tables[i][k])
  {
    hide Update, Holds, SameElsewhere, Accepted;
    UpdatedTable(w, name, input, pairs, okDel, okAdd, i);
    UpdatedPairs(w, name, input, pairs, okDel, okAdd);
    PrefixKeys(pairs, Accepted(|w.tables|, pairs, input.target, okAdd));
    var r := Update(w, name, input, pairs, okDel, okAdd).world;
    assert k !in r.cache[name].pairs.Keys;
    SameAt(if Withdraws(w, name, input) then w.tables[i] - w.cache[name].pairs.Keys else w.tables[i], r.tables[i], r.cache[name].pairs.Keys, k);
  }

  // ---------- which outcome ----------

  // The service is cached as it is wanted: with a rule for each pair, the very
  // settings, and the endpoints of now in some order.
  ghost predicate AsWanted(e: Entry, input: Inputs)
  {
    && e.pairs != map[] && e.settings == input.settings && !input.target.Unreadable()
    && (forall k :: k in e.pairs ==> e.pairs[k].models != [])
    && forall k, j :: k in e.pairs && 0 <= j < |e.pairs[k].models| ==> Permutes(input, e.pairs[k].models[j].endpoints)
  }

  // A sync does nothing if and only if there is a client, an endpoint and an
  // entry that is as wanted and fully published. Nothing compared repeats.
  lemma UnchangedIff(w: World, name: string, input: Inputs, pairs: seq<SvcPair>, stale: bool, okDel: Oracle, okAdd: Oracle)
    requires Distinct(input.endpoints) && (input.target.ByPorts() ==> DistinctPorts(input.target.ports))
    ensures var r := Reconcile(w, name, input, pairs, stale, okDel, okAdd);
      && (r.outcome.Unchanged? <==>
            w.tables != [] && input.endpoints != [] && name in w.cache && !stale && AsWanted(w.cache[name], input))
      && (r.outcome.Unchanged? || r.outcome.Rejected? ==> r.world == w)
  {
    hide Update, Permutes, EndpointsChanged, Withdraw, Keys, Acked, WithoutEndpoints;
    UpdateOutcome(w, name, input, pairs, okDel, okAdd);
    if name in w.cache {
      if input.target.Unreadable() { UnreadableChanges(w.cache[name], input); }
      else { CheckIsExact(w.cache[name], input); }
    }
  }

  lemma UnreadableChanges(e: Entry, input: Inputs)
    requires input.target.Unreadable()
    ensures EndpointsChanged(e, input)
  {
  }

  // The other outcomes: rejected without a client, or for a new service without
  // endpoint; a cached service without endpoint is withdrawn, which fails when a
  // client refuses; an update fails when some pair cannot be built or every
  // client refuses it.
  lemma OutcomeIff(w: World, name: string, input: Inputs, pairs: seq<SvcPair>, stale: bool, okDel: Oracle, okAdd: Oracle)
    ensures var o := Reconcile(w, name, input, pairs, stale, okDel, okAdd).outcome;
      && (o.Rejected? <==> w.tables == [] || (name !in w.cache && input.endpoints == []))
      && (o.WithdrawFailed? <==> w.tables != [] && input.endpoints == [] && name in w.cache && RuleManager.Refuses(w.cache[name], |w.tables|, okDel))
      && (o.Withdrawn? <==> w.tables != [] && input.endpoints == [] && name in w.cache && !RuleManager.Refuses(w.cache[name], |w.tables|, okDel))
      && (o.Updated? || o.InstallFailed? ==>
            (o.InstallFailed? <==> exists j :: 0 <= j < |pairs| && Hopeless(w, pairs[j], input.target, okAdd)))
  {
    hide Update, EndpointsChanged, Withdraw, Keys, Acked, WithoutEndpoints, RuleManager.Refuses, Hopeless, Accepted, Incomplete;
    UpdateOutcome(w, name, input, pairs, okDel, okAdd);
    UpdatedPairs(w, name, input, pairs, okDel, okAdd);
    FailsIff(w, input, pairs, okAdd);
    if name in w.cache { RuleManager.RefusesIff(w.cache[name], |w.tables|, okDel); }
  }

  // There is no port to send the pair's traffic to, or no client takes its rule.
  ghost predicate Hopeless(w: World, sp: SvcPair, t: Target, ok: Oracle)
  {
    (forall ports :: !SentTo(t, sp.port, ports)) || forall i :: 0 <= i < |w.tables| ==> !ok(i, KeyOf(sp))
  }

  lemma HopelessIsRefused(w: World, sp: SvcPair, t: Target, ok: Oracle)
    ensures Refused(|w.tables|, sp, t, ok) <==> Hopeless(w, sp, t, ok)
  {
    hide TargetPorts, SentTo;
    TargetIsSent(t, sp.port);
  }

  lemma FailsIff(w: World, input: Inputs, pairs: seq<SvcPair>, ok: Oracle)
    ensures Accepted(|w.tables|, pairs, input.target, ok) < |pairs| <==> exists j :: 0 <= j < |pairs| && Hopeless(w, pairs[j], input.target, ok)
  {
    hide Hopeless, Refused;
    forall j | 0 <= j < |pairs| ensures Refused(|w.tables|, pairs[j], input.target, ok) <==> Hopeless(w, pairs[j], input.target, ok) {
      HopelessIsRefused(w, pairs[j], input.target, ok);
    }
  }
}
