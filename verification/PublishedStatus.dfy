// What a service's status says after it was published, and what of it can be
// read back (pkg/agent/manager/loadbalancer/loadbalancer.go:1119-1155,
// 1667-1701; pkg/agent/manager/common/util_extip.go:30-99).

module PublishedStatus {
  import opened Rules
  import opened ServiceAddresses
  import opened Text
  import opened IPText
  import opened ExtIPName

  // ---------- every pair has a name ----------

  ghost predicate Flagged(cached: map<RuleKey, Pair>)
  {
    forall k :: k in cached ==> cached[k].inRange || cached[k].staticIP
  }

  lemma {:induction false} ExistingAreNamed(todo: seq<Want>, cached: map<RuleKey, Pair>, pool: Pool)
    requires Flagged(cached)
    ensures forall i :: 0 <= i < |todo| ==> Named(ExistingPairs(todo, cached, pool).pairs[i])
  {
    if todo != [] { ExistingAreNamed(todo[..|todo| - 1], cached, pool); }
  }

  lemma FoundAreNamed(svc: Service, cached: map<RuleKey, Pair>, pool: Pool, naming: Naming, pairs: seq<SvcPair>, asked: nat)
    requires Finds(svc, cached, pool, naming, pairs, asked) && Flagged(cached)
    ensures forall i :: 0 <= i < |pairs| ==> Named(pairs[i]) && pairs[i].port in svc.ports
  {
    hide ServiceIPs, Wants;
    var todo := Wants(ServiceIPs(svc, naming), svc.ports);
    if todo != [] {
      ExistingAreNamed(todo, cached, pool);
      forall i | 0 <= i < |pairs| ensures pairs[i].port in svc.ports { assert todo[i] in todo; }
    } else {
      var got :| IsFresh(svc.ports, cached, pool.shared, got, pairs);
      forall i | 0 <= i < |pairs| ensures Named(pairs[i]) && pairs[i].port in svc.ports {
        assert FreshPair(svc.ports, cached, pool.shared, got, i, pairs[i]);
      }
    }
  }

  // ---------- publishing ----------

  lemma StillSays(a: seq<Ingress>, b: seq<Ingress>, name: string)
    requires a <= b && InStatus(a, name)
    ensures InStatus(b, name)
  {
    var i :| 0 <= i < |a| && Says(a[i], name);
    assert b[i] == a[i];
  }

  lemma {:induction false} NamesFrom(status: seq<Ingress>, names: seq<string>, i: nat) returns (h: nat)
    requires |status| <= i < |PublishNames(status, names)|
    ensures h < |names| && PublishNames(status, names)[i] == IngressFor(names[h])
  {
    var n := |names| - 1;
    if i < |PublishNames(status, names[..n])| { h := NamesFrom(status, names[..n], i); } else { h := n; }
  }

  lemma {:induction false} NamesAll(status: seq<Ingress>, names: seq<string>, h: nat)
    requires h < |names| && names[h] != ""
    ensures InStatus(PublishNames(status, names), names[h])
  {
    hide InStatus, IsLiteral;
    var n := |names| - 1;
    var before, after := PublishNames(status, names[..n]), PublishNames(status, names);
    if h < n {
      NamesAll(status, names[..n], h);
      StillSays(before, after, names[h]);
    } else if !InStatus(before, names[h]) {
      LastSays(before, names[h]);
    }
  }

  lemma LastSays(before: seq<Ingress>, name: string)
    requires name != ""
    ensures InStatus(before + [IngressFor(name)], name)
  {
    assert (before + [IngressFor(name)])[|before|] == IngressFor(name);
  }

  // A new entry is a name of some pair.
  lemma {:induction false} PublishedFrom(status: seq<Ingress>, pairs: seq<SvcPair>, naming: Naming, i: nat) returns (j: nat, h: nat)
    requires |status| <= i < |Publish(status, pairs, naming)|
    ensures j < |pairs| && h < |NamesOf(naming, pairs[j].ip)|
    ensures Publish(status, pairs, naming)[i] == IngressFor(NamesOf(naming, pairs[j].ip)[h])
  {
    hide NamesOf, PublishNames;
    var n := |pairs| - 1;
    var before := Publish(status, pairs[..n], naming);
    if i < |before| {
      j, h := PublishedFrom(status, pairs[..n], naming, i);
    } else {
      j := n;
      h := NamesFrom(before, NamesOf(naming, pairs[n].ip), i);
    }
  }

  // Every name of every pair is there.
  lemma {:induction false} PublishedAll(status: seq<Ingress>, pairs: seq<SvcPair>, naming: Naming, j: nat, h: nat)
    requires j < |pairs| && Named(pairs[j]) && h < |NamesOf(naming, pairs[j].ip)| && NamesOf(naming, pairs[j].ip)[h] != ""
    ensures InStatus(Publish(status, pairs, naming), NamesOf(naming, pairs[j].ip)[h])
  {
    hide NamesOf, PublishNames, InStatus;
    var n := |pairs| - 1;
    if j < n {
      PublishedAll(status, pairs[..n], naming, j, h);
      StillSays(Publish(status, pairs[..n], naming), Publish(status, pairs, naming), NamesOf(naming, pairs[j].ip)[h]);
    } else {
      NamesAll(Publish(status, pairs[..n], naming), NamesOf(naming, pairs[n].ip), h);
    }
  }

  // An entry added says, as an address if it is one, a name of a flagged pair that
  // nothing before it says.
  ghost predicate IsAddition(r: seq<Ingress>, pairs: seq<SvcPair>, naming: Naming, i: nat)
    requires i < |r|
  {
    exists j, h :: (0 <= j < |pairs| && Named(pairs[j]) && 0 <= h < |NamesOf(naming, pairs[j].ip)| &&
                    Adds(r, i, NamesOf(naming, pairs[j].ip)[h]))
  }

  ghost predicate Adds(r: seq<Ingress>, i: nat, name: string)
    requires i < |r|
  {
    && r[i] == (if IsLiteral(name) then Ingress(name, "") else Ingress("", name))
    && forall x :: 0 <= x < i ==> !(name != "" && (r[x].ip == name || r[x].hostname == name))
  }

  lemma {:induction false} NamesAdd(status: seq<Ingress>, names: seq<string>, i: nat) returns (h: nat)
    requires |status| <= i < |PublishNames(status, names)|
    ensures h < |names| && Adds(PublishNames(status, names), i, names[h])
  {
    hide IsLiteral;
    var n := |names| - 1;
    var before, after := PublishNames(status, names[..n]), PublishNames(status, names);
    assert forall x :: 0 <= x < |before| ==> after[x] == before[x];
    if i < |before| {
      h := NamesAdd(status, names[..n], i);
    } else {
      h := n;
      NotSaid(before, names[n]);
    }
  }

  lemma NotSaid(status: seq<Ingress>, name: string)
    requires !InStatus(status, name)
    ensures forall x :: 0 <= x < |status| ==> !(name != "" && (status[x].ip == name || status[x].hostname == name))
  {
    assert forall x :: 0 <= x < |status| ==> !Says(status[x], name);
  }

  // The status keeps what it says; what is added is missing names only.
  lemma {:induction false} PublishAdds(status: seq<Ingress>, pairs: seq<SvcPair>, naming: Naming, i: nat)
    requires |status| <= i < |Publish(status, pairs, naming)|
    ensures status <= Publish(status, pairs, naming) && IsAddition(Publish(status, pairs, naming), pairs, naming, i)
  {
    hide NamesOf, PublishNames, IsLiteral;
    var n := |pairs| - 1;
    var before, after := Publish(status, pairs[..n], naming), Publish(status, pairs, naming);
    assert forall x :: 0 <= x < |before| ==> after[x] == before[x];
    if i < |before| {
      PublishAdds(status, pairs[..n], naming, i);
      var j, h :| (0 <= j < |pairs[..n]| && Named(pairs[..n][j]) && 0 <= h < |NamesOf(naming, pairs[..n][j].ip)| &&
                   Adds(before, i, NamesOf(naming, pairs[..n][j].ip)[h]));
      assert pairs[j] == pairs[..n][j] && Adds(after, i, NamesOf(naming, pairs[j].ip)[h]);
    } else {
      var h := NamesAdd(before, NamesOf(naming, pairs[n].ip), i);
      assert Adds(after, i, NamesOf(naming, pairs[n].ip)[h]);
    }
  }

  lemma {:induction false} NoNamesMissing(status: seq<Ingress>, names: seq<string>)
    ensures PublishNames(status, names) == status <==> AllInStatus(status, names)
  {
    hide InStatus;
    if names != [] {
      var n := |names| - 1;
      NoNamesMissing(status, names[..n]);
      assert forall h :: 0 <= h < n ==> names[..n][h] == names[h];
    }
  }

  // The check finds the status stale if and only if the update would change it.
  lemma {:induction false} StaleIff(status: seq<Ingress>, pairs: seq<SvcPair>, naming: Naming)
    ensures Stale(status, pairs, naming) <==> Publish(status, pairs, naming) != status
  {
    hide NamesOf, PublishNames, InStatus;
    if pairs != [] {
      var n := |pairs| - 1;
      StaleIff(status, pairs[..n], naming);
      NoNamesMissing(Publish(status, pairs[..n], naming), NamesOf(naming, pairs[n].ip));
      assert forall i :: 0 <= i < n ==> pairs[..n][i] == pairs[i];
    }
  }

  // ---------- reading back ----------

  ghost predicate Nameable(naming: Naming, ip: string)
  {
    forall h :: 0 <= h < |NamesOf(naming, ip)| ==> NamesOf(naming, ip)[h] != ""
  }

  // Each name of the address reads back as the address.
  ghost predicate Readable(naming: Naming, ip: string)
  {
    && ip != "" && Nameable(naming, ip)
    && forall h :: 0 <= h < |NamesOf(naming, ip)| ==> AddressOf(IngressFor(NamesOf(naming, ip)[h]), naming) == ip
  }

  lemma NameableWhen(naming: Naming, ip: string)
    requires ip != "" && forall h :: 0 <= h < |naming.instAddrs| ==> naming.instAddrs[h] != ""
    ensures Nameable(naming, ip)
  {
    JoinSplit(ip, ':', '-');
  }

  // The one name of an ordinary address, read back outside the zero block.
  lemma ZoneNameReads(naming: Naming, ip: string)
    requires IsLiteral(ip) && !naming.zero
    ensures AddressOf(IngressFor(ZoneName(naming.zone, ip, naming.isV6(ip))), naming) == ip <==>
      RoundTrips(naming.zone, ip, naming.isV6(ip))
  {
    hide IsLiteral, ParseIngressHostname, ZoneName;
    var zone, isV6 := naming.zone, naming.isV6(ip);
    var name := ZoneName(zone, ip, isV6);
    assert name != "" by { NameShape(zone, ip, isV6); LiteralChars(ip); }
    if IsLiteral(name) {
      UnspecifiedNames(zone, name);
    }
  }

  lemma LiteralReads(naming: Naming, a: string)
    requires IsLiteral(a) && !naming.zero
    ensures AddressOf(IngressFor(a), naming) == a
  {
    LiteralChars(a);
  }

  lemma ZeroReads(naming: Naming, name: string)
    requires naming.zero && name != ""
    ensures AddressOf(IngressFor(name), naming) == ANY_IP
  {
  }

  lemma StandInReads(naming: Naming)
    requires !naming.zero
    ensures AddressOf(IngressFor(ANY_EXT_IP), naming) == ANY_IP
  {
    assert ANY_EXT_IP[0] == 'l' && !LiteralChar('l');
    if IsLiteral(ANY_EXT_IP) { LiteralChars(ANY_EXT_IP); }
  }

  // Exactly which addresses read back: with a zero block 0.0.0.0 alone;
  // otherwise an ordinary address if the zone's first dash, if any, follows that
  // very address, and an unspecified one if it is 0.0.0.0 and no instance
  // address stands for it, or is the only instance address.
  lemma ReadableIff(naming: Naming, ip: string)
    requires IsLiteral(ip) && forall h :: 0 <= h < |naming.instAddrs| ==> IsLiteral(naming.instAddrs[h])
    ensures Readable(naming, ip) <==>
      if naming.zero then ip == ANY_IP
      else if !IsUnspecified(ip) then '-' !in naming.zone || Split(naming.zone, '-')[0] == ip
      else if naming.instAddrs == [] then ip == ANY_IP
      else forall h :: 0 <= h < |naming.instAddrs| ==> naming.instAddrs[h] == ip
  {
    hide IsLiteral, IsUnspecified, AddressOf, IngressFor, ZoneName, RoundTrips, Split;
    LiteralChars(ip);
    forall h | 0 <= h < |naming.instAddrs| ensures naming.instAddrs[h] != "" { LiteralChars(naming.instAddrs[h]); }
    NameableWhen(naming, ip);
    var names := NamesOf(naming, ip);
    if naming.zero {
      ZeroReads(naming, names[0]);
      forall h | 0 <= h < |names| ensures AddressOf(IngressFor(names[h]), naming) == ANY_IP { ZeroReads(naming, names[h]); }
    } else if !IsUnspecified(ip) {
      ZoneNameReads(naming, ip);
      RoundTripIff(naming.zone, ip, naming.isV6(ip));
      assert names[0] == ZoneName(naming.zone, ip, naming.isV6(ip));
    } else if naming.instAddrs == [] {
      StandInReads(naming);
      assert names[0] == ANY_EXT_IP;
    } else {
      forall h | 0 <= h < |names| ensures AddressOf(IngressFor(names[h]), naming) == names[h] { LiteralReads(naming, names[h]); }
    }
  }

  // ---------- the addresses the next sync sees ----------

  ghost predicate Carries(pairs: seq<SvcPair>, ip: string)
  {
    exists i :: 0 <= i < |pairs| && pairs[i].ip == ip
  }

  ghost predicate AllReadable(pairs: seq<SvcPair>, naming: Naming)
  {
    forall i :: 0 <= i < |pairs| ==> Readable(naming, pairs[i].ip)
  }

  function Published(svc: Service, pairs: seq<SvcPair>, naming: Naming): Service
  {
    svc.(status := Publish(svc.status, pairs, naming))
  }

  // Pairs of a service that has addresses carry exactly those.
  lemma ExistingCarry(svc: Service, cached: map<RuleKey, Pair>, pool: Pool, naming: Naming, ip: string)
    requires svc.ports != []
    ensures ip in ServiceIPs(svc, naming) <==> Carries(ExistingPairs(Wants(ServiceIPs(svc, naming), svc.ports), cached, pool).pairs, ip)
  {
    hide ServiceIPs;
    var todo := Wants(ServiceIPs(svc, naming), svc.ports);
    var pairs := ExistingPairs(todo, cached, pool).pairs;
    if ip in ServiceIPs(svc, naming) {
      assert Want(ip, svc.ports[0]) in todo;
      var i :| 0 <= i < |todo| && todo[i] == Want(ip, svc.ports[0]);
      assert KeyOf(pairs[i]) == WantKey(todo[i]);
    }
    if Carries(pairs, ip) {
      var i :| 0 <= i < |pairs| && pairs[i].ip == ip;
      assert KeyOf(pairs[i]) == WantKey(todo[i]) && todo[i] in todo;
    }
  }

  lemma OldStatusKept(svc: Service, pairs: seq<SvcPair>, naming: Naming, ip: string)
    requires ip in ServiceIPs(svc, naming)
    ensures ip in ServiceIPs(Published(svc, pairs, naming), naming)
  {
    hide AddressOf, Publish;
    var after := Publish(svc.status, pairs, naming);
    if ip in IngressIPs(svc.status, naming) {
      var i :| 0 <= i < |svc.status| && AddressOf(svc.status[i], naming) == ip;
      assert after[i] == svc.status[i];
    }
  }

  // An address seen after publishing was seen before or is carried by a pair.
  lemma NewAddress(svc: Service, pairs: seq<SvcPair>, naming: Naming, ip: string)
    requires AllReadable(pairs, naming) && ip in ServiceIPs(Published(svc, pairs, naming), naming)
    ensures ip in ServiceIPs(svc, naming) || Carries(pairs, ip)
  {
    hide AddressOf, Publish, NamesOf, IngressFor, IsLiteral;
    var after := Publish(svc.status, pairs, naming);
    if ip in IngressIPs(after, naming) {
      var i: nat :| i < |after| && AddressOf(after[i], naming) == ip;
      if i < |svc.status| {
        assert after[i] == svc.status[i];
      } else {
        var j, h := PublishedFrom(svc.status, pairs, naming, i);
        assert Readable(naming, pairs[j].ip);
      }
    }
  }

  // An entry that says a readable name is not skipped.
  lemma SaidIsRead(g: Ingress, name: string, naming: Naming)
    requires Says(g, name) && AddressOf(IngressFor(name), naming) != ""
    ensures AddressOf(g, naming) != ""
  {
    hide ParseIngressHostname;
    if IsLiteral(name) { UnspecifiedNames(naming.zone, name); }
  }

  lemma NothingRead(svc: Service, naming: Naming, i: nat)
    requires ServiceIPs(svc, naming) == [] && i < |svc.status|
    ensures AddressOf(svc.status[i], naming) == ""
  {
    hide AddressOf;
    assert IngressIPs(svc.status, naming) == [];
    assert AddressOf(svc.status[i], naming) !in IngressIPs(svc.status, naming);
  }

  // When the status gave no address, a carried address is read from it now.
  lemma CarriedIsSeen(svc: Service, pairs: seq<SvcPair>, naming: Naming, j: nat)
    requires AllReadable(pairs, naming) && ServiceIPs(svc, naming) == []
    requires j < |pairs| && Named(pairs[j])
    ensures pairs[j].ip in ServiceIPs(Published(svc, pairs, naming), naming)
  {
    hide AddressOf, Publish, NamesOf, IsLiteral;
    var ip, after := pairs[j].ip, Publish(svc.status, pairs, naming);
    var name := NamesOf(naming, ip)[0];
    assert Readable(naming, ip);
    PublishedAll(svc.status, pairs, naming, j, 0);
    forall x | 0 <= x < |svc.status| ensures AddressOf(after[x], naming) == "" {
      assert after[x] == svc.status[x];
      NothingRead(svc, naming, x);
    }
    var i: nat :| i < |after| && Says(after[i], name);
    SaidIsRead(after[i], name, naming);
    var k, h := PublishedFrom(svc.status, pairs, naming, i);
    assert after[i] == IngressFor(name);
    assert ip in IngressIPs(after, naming);
  }

  lemma WantsSome(ips: seq<string>, ports: seq<SvcPort>)
    requires ports != []
    ensures Wants(ips, ports) == [] <==> ips == []
  {
  }

  // The next sync sees exactly the addresses of this sync's pairs.
  lemma SameAddresses(svc: Service, cached: map<RuleKey, Pair>, pool: Pool, naming: Naming, pairs: seq<SvcPair>, asked: nat, ip: string)
    requires svc.ports != [] && AllReadable(pairs, naming) && Flagged(cached)
    requires Finds(svc, cached, pool, naming, pairs, asked)
    ensures ip in ServiceIPs(Published(svc, pairs, naming), naming) <==> Carries(pairs, ip)
  {
    hide ServiceIPs, Wants, ExistingPairs, IsFresh, Publish, AllReadable, Flagged, Named;
    var ips := ServiceIPs(svc, naming);
    FoundAreNamed(svc, cached, pool, naming, pairs, asked);
    WantsSome(ips, svc.ports);
    if ips != [] { ExistingCarry(svc, cached, pool, naming, ip); }
    if ip in ServiceIPs(Published(svc, pairs, naming), naming) { NewAddress(svc, pairs, naming, ip); }
    if Carries(pairs, ip) {
      if ips != [] { OldStatusKept(svc, pairs, naming, ip); }
      else {
        var j :| 0 <= j < |pairs| && pairs[j].ip == ip;
        CarriedIsSeen(svc, pairs, naming, j);
      }
    }
  }
}
