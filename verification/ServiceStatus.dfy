// The loops over a service's status (pkg/agent/manager/loadbalancer/
// loadbalancer.go:1119-1155, 1515-1529, 1613-1628, 1667-1701, 1733-1770).

module ServiceStatus {
  import opened Rules
  import opened IPText
  import opened ExtIPName
  import opened ServiceAddresses

  method GetServiceIngressIPs(status: seq<Ingress>, naming: Naming) returns (ips: seq<string>)
    ensures ips == IngressIPs(status, naming)
  {
    hide ParseIngressHostname;
    ips := [];
    for n := 0 to |status|
      invariant ips == IngressIPs(status[..n], naming)
    {
      assert status[..n + 1][..n] == status[..n];
      var g := status[n];
      var ip := "";
      if g.ip != "" {
        ip := if naming.zero then ANY_IP else g.ip;
      } else if g.hostname != "" {
        ip := if naming.zero then ANY_IP else ParseIngressHostname(g.hostname, naming.zone);
      }
      if ip != "" { ips := ips + [ip]; }
    }
    assert status[..|status|] == status;
  }

  lemma WantsNone(ports: seq<SvcPort>)
    ensures Wants([], ports) == []
  {
  }

  lemma WantsStep(ips: seq<string>, n: nat, ports: seq<SvcPort>)
    requires n < |ips|
    ensures Wants(ips[..n + 1], ports) == Wants(ips[..n], ports) + OnEachPort(ips[n], ports)
  {
    assert ips[..n + 1][..n] == ips[..n];
  }

  method OnPorts(ip: string, ports: seq<SvcPort>) returns (todo: seq<Want>)
    ensures todo == OnEachPort(ip, ports)
  {
    todo := [];
    for j := 0 to |ports|
      invariant todo == OnEachPort(ip, ports)[..j]
    {
      todo := todo + [Want(ip, ports[j])];
    }
  }

  method GetLBIngressSvcPairs(svc: Service, naming: Naming) returns (todo: seq<Want>)
    ensures todo == Wants(ServiceIPs(svc, naming), svc.ports)
  {
    hide IsLiteral, Wants, IngressIPs, OnEachPort;
    var ingress := GetServiceIngressIPs(svc.status, naming);
    var ips := ingress + svc.externalIPs;
    if IsLiteral(svc.staticIP) { ips := ips + [svc.staticIP]; }
    assert ips == ServiceIPs(svc, naming);
    todo := [];
    assert Wants(ips[..0], svc.ports) == [] by { WantsNone(svc.ports); }
    for n := 0 to |ips|
      invariant todo == Wants(ips[..n], svc.ports)
    {
      WantsStep(ips, n, svc.ports);
      var more := OnPorts(ips[n], svc.ports);
      todo := todo + more;
    }
    assert ips[..|ips|] == ips;
  }

  method CheckServiceIngressIPExists(status: seq<Ingress>, name: string) returns (found: bool)
    ensures found == InStatus(status, name)
  {
    found := false;
    for n := 0 to |status|
      invariant !found && !InStatus(status[..n], name)
    {
      if status[n].ip != "" && status[n].ip == name { return true; }
      if status[n].hostname != "" && status[n].hostname == name { return true; }
    }
    assert status[..|status|] == status;
  }

  method CheckUpdateExternalIP(status: seq<Ingress>, pairs: seq<SvcPair>, naming: Naming) returns (stale: bool)
    ensures stale == Stale(status, pairs, naming)
  {
    hide NamesOf, InStatus;
    for n := 0 to |pairs|
      invariant forall i :: 0 <= i < n && Named(pairs[i]) ==> AllInStatus(status, NamesOf(naming, pairs[i].ip))
    {
      if pairs[n].inRange || pairs[n].staticIP {
        var names := NamesOf(naming, pairs[n].ip);
        for h := 0 to |names|
          invariant forall x :: 0 <= x < h ==> InStatus(status, names[x])
        {
          var found := CheckServiceIngressIPExists(status, names[h]);
          if !found { return true; }
        }
      }
    }
    stale := false;
  }

  method AppendNames(status: seq<Ingress>, names: seq<string>) returns (after: seq<Ingress>)
    ensures after == PublishNames(status, names)
  {
    hide InStatus, IsLiteral;
    after := status;
    for h := 0 to |names|
      invariant after == PublishNames(status, names[..h])
    {
      assert names[..h + 1][..h] == names[..h];
      var found := CheckServiceIngressIPExists(after, names[h]);
      if !found {
        after := after + [if IsLiteral(names[h]) then Ingress(names[h], "") else Ingress("", names[h])];
      }
    }
    assert names[..|names|] == names;
  }

  // Names missing from the status are appended, as an address if they parse as
  // one.
  method UpdateService(status: seq<Ingress>, pairs: seq<SvcPair>, naming: Naming) returns (after: seq<Ingress>)
    ensures after == Publish(status, pairs, naming)
  {
    hide NamesOf, PublishNames;
    after := status;
    for n := 0 to |pairs|
      invariant after == Publish(status, pairs[..n], naming)
    {
      assert pairs[..n + 1][..n] == pairs[..n];
      if pairs[n].inRange || pairs[n].staticIP {
        after := AppendNames(after, NamesOf(naming, pairs[n].ip));
      }
    }
    assert pairs[..|pairs|] == pairs;
  }
}
