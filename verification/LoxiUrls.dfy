// The LoxiURL resource handlers as they work on the client objects
// (pkg/agent/manager/loxiurl/loxiurl.go:222-421). Creating a client and parsing
// a URL are the environment's: site.creatable, parses and hostOf.

module LoxiUrls {
  import opened Clients
  import opened RoleManager
  import M = Membership
  import Discovery

  datatype Kind = Default | CidrPool | HostCidr | Unknown

  datatype Resource = Resource(name: string, zone: string, kind: Kind, urls: seq<string>)

  // Handled here, passed to the pool and address tables, or ignored.
  predicate Handled(r: Resource, zone: string, external: bool)
  {
    (r.zone == "" || r.zone == zone) && r.kind.Default? && external
  }

  function SameName(name: string): LoxiClient -> bool
  {
    (v: LoxiClient) => v.name == name
  }

  function OtherName(name: string): LoxiClient -> bool
  {
    (v: LoxiClient) => v.name != name
  }

  // The objects have these values.
  ghost predicate Are(objs: seq<LoxiClient>, cs: seq<Client>)
    reads objs
  {
    |objs| == |cs| && forall i :: 0 <= i < |objs| ==> objs[i].Value() == cs[i]
  }

  lemma AreBoth(a: seq<LoxiClient>, x: seq<Client>, b: seq<LoxiClient>, y: seq<Client>)
    requires Are(a, x) && Are(b, y)
    ensures Are(a + b, x + y)
  {
  }

  class Handler {
    const mgr: Manager
    const site: M.Site
    // Whether the agent was configured with client URLs.
    const external: bool
    const parses: string -> bool
    const hostOf: string -> string
    var crdControlOn: bool

    constructor (mgr: Manager, site: M.Site, external: bool, parses: string -> bool, hostOf: string -> string)
      ensures this.mgr == mgr && this.site == site && this.external == external
      ensures this.parses == parses && this.hostOf == hostOf && !crdControlOn
    {
      this.mgr, this.site, this.external := mgr, site, external;
      this.parses, this.hostOf, crdControlOn := parses, hostOf, false;
    }

    method AllParse(urls: seq<string>) returns (ok: bool)
      ensures ok == !(exists i :: 0 <= i < |urls| && !parses(urls[i]))
    {
      for i := 0 to |urls|
        invariant forall k :: 0 <= k < i ==> parses(urls[k])
      {
        if !parses(urls[i]) { return false; }
      }
      return true;
    }

    // The URLs no current client has.
    method NewUrls(urls: seq<string>) returns (added: seq<string>)
      ensures added == M.Filter(urls, M.NotIn(M.Urls(mgr.View())))
    {
      added := [];
      for j := 0 to |urls|
        invariant added == M.Filter(urls[..j], M.NotIn(M.Urls(mgr.View())))
      {
        assert urls[..j + 1][..j] == urls[..j] && urls[..j + 1][j] == urls[j];
        var known := false;
        for i := 0 to |mgr.clients|
          invariant known == (urls[j] in M.Urls(mgr.View())[..i])
        {
          assert M.Urls(mgr.View())[i] == mgr.clients[i].Value().url;
          if mgr.clients[i].url == urls[j] { known := true; }
        }
        assert M.Urls(mgr.View())[..|mgr.clients|] == M.Urls(mgr.View());
        if !known { added := added + [urls[j]]; }
      }
      assert urls[..|urls|] == urls;
    }

    // deleteSingleLoxiClientsWithName, as the lists it builds.
    method SplitByName(name: string) returns (kept: seq<LoxiClient>, purged: seq<LoxiClient>)
      ensures kept == M.Filter(mgr.clients, OtherName(name))
      ensures purged == M.Filter(mgr.clients, SameName(name))
    {
      var objs := mgr.clients;
      kept, purged := [], [];
      for i := 0 to |objs|
        invariant kept == M.Filter(objs[..i], OtherName(name))
        invariant purged == M.Filter(objs[..i], SameName(name))
      {
        assert objs[..i + 1][..i] == objs[..i] && objs[..i + 1][i] == objs[i];
        if objs[i].name == name { purged := purged + [objs[i]]; } else { kept := kept + [objs[i]]; }
      }
      assert objs[..|objs|] == objs;
    }

    // NewLoxiClient for each URL, skipping failures.
    method Create(urls: seq<string>, name: string) returns (made: seq<LoxiClient>)
      ensures forall i :: 0 <= i < |made| ==> fresh(made[i])
      ensures forall i, j :: 0 <= i < j < |made| ==> made[i] != made[j]
      ensures var spec := M.Created(urls, name, hostOf, site);
        |made| == |spec| && forall i :: 0 <= i < |made| ==> made[i].Value() == spec[i]
    {
      made := [];
      for j := 0 to |urls|
        invariant forall i :: 0 <= i < |made| ==> fresh(made[i])
        invariant forall i, k :: 0 <= i < k < |made| ==> made[i] != made[k]
        invariant var spec := M.Created(urls[..j], name, hostOf, site);
          |made| == |spec| && forall i :: 0 <= i < |made| ==> made[i].Value() == spec[i]
      {
        assert urls[..j + 1][..j] == urls[..j] && urls[..j + 1][j] == urls[j];
        if urls[j] in site.creatable {
          var client := new LoxiClient(urls[j], hostOf(urls[j]), name, false, site.zone, site.num);
          made := made + [client];
        }
      }
      assert urls[..|urls|] == urls;
    }

    // addLoxiLBURL.
    method Add(r: Resource) returns (purged: seq<LoxiClient>)
      requires mgr.Valid()
      modifies this`crdControlOn, mgr`clients
      ensures mgr.Valid()
      ensures var c := M.AddUrls(old(mgr.View()), old(crdControlOn), r.name, r.urls, parses, hostOf, site);
        if Handled(r, mgr.zone, external)
        then mgr.View() == c.clients && crdControlOn && Are(purged, c.purged)
        else mgr.View() == old(mgr.View()) && crdControlOn == old(crdControlOn) && purged == []
      ensures !external || !r.kind.Default? || (r.zone != "" && r.zone != mgr.zone) ==>
        mgr.clients == old(mgr.clients) && crdControlOn == old(crdControlOn) && purged == []
      ensures external && r.kind.Default? && (r.zone == "" || r.zone == mgr.zone) ==> crdControlOn
      ensures forall v :: v in mgr.clients ==> v in old(mgr.clients) || fresh(v)
    {
      hide M.Filter, M.Created, Are, mgr.View, mgr.Valid;
      purged := [];
      if (r.zone != "" && r.zone != mgr.zone) || !r.kind.Default? || !external {
        return;
      }
      purged := TakeOver();
      ghost var dropped, cur := if old(crdControlOn) then [] else old(mgr.View()), mgr.View();
      var ok := AllParse(r.urls);
      if !ok {
        return;
      }
      var added := NewUrls(r.urls);
      if added != [] {
        var gone := Replace(added, r.name);
        AreBoth(purged, dropped, gone, M.Filter(cur, M.Named(r.name)));
        purged := purged + gone;
      }
    }

    // The first resource drops the configured clients.
    method TakeOver() returns (purged: seq<LoxiClient>)
      requires mgr.Valid()
      modifies this`crdControlOn, mgr`clients
      ensures mgr.Valid() && crdControlOn
      ensures mgr.View() == if old(crdControlOn) then old(mgr.View()) else []
      ensures mgr.clients == if old(crdControlOn) then old(mgr.clients) else []
      ensures Are(purged, if old(crdControlOn) then [] else old(mgr.View()))
    {
      purged := [];
      if !crdControlOn {
        purged := mgr.clients;
        mgr.clients := [];
        crdControlOn := true;
      }
    }

    // The tail of addLoxiLBURL: the resource's old clients make way for the new.
    method Replace(added: seq<string>, name: string) returns (purged: seq<LoxiClient>)
      requires mgr.Valid()
      modifies mgr`clients
      ensures mgr.Valid()
      ensures mgr.View() == M.Filter(old(mgr.View()), M.NotNamed(name)) + M.Created(added, name, hostOf, site)
      ensures purged == M.Filter(old(mgr.clients), SameName(name)) && Are(purged, M.Filter(old(mgr.View()), M.Named(name)))
      ensures M.Filter(old(mgr.clients), OtherName(name)) <= mgr.clients
      ensures forall v :: v in mgr.clients ==> v in old(mgr.clients) || fresh(v)
    {
      hide M.Filter, M.Created;
      ghost var cs, objs := mgr.View(), mgr.clients;
      var kept;
      kept, purged := SplitByName(name);
      var made := Create(added, name);
      Discovery.FilterValues(objs, cs, OtherName(name), M.NotNamed(name));
      Discovery.FilterValues(objs, cs, SameName(name), M.Named(name));
      Discovery.FilterValid(objs, OtherName(name));
      mgr.clients := kept + made;
      forall i | 0 <= i < |kept| ensures kept[i] !in made { assert kept[i] in kept && kept[i] in objs; }
      Discovery.Renewed(kept, made, M.Filter(cs, M.NotNamed(name)), M.Created(added, name, hostOf, site));
    }

    method Has(url: string, name: string) returns (b: bool)
      ensures b == M.Holds(mgr.View(), url, name)
    {
      for i := 0 to |mgr.clients|
        invariant forall k :: 0 <= k < i ==> !(mgr.clients[k].url == url && mgr.clients[k].name == name)
      {
        if mgr.clients[i].url == url && mgr.clients[i].name == name {
          assert mgr.View()[i].url == url;
          return true;
        }
      }
      return false;
    }

    // deleteLoxiLBURL: counts how many of the named pairs are present, and only
    // if all are drops every client and creates the others anew.
    method Delete(r: Resource) returns (purged: seq<LoxiClient>)
      requires mgr.Valid()
      modifies mgr`clients
      ensures mgr.Valid()
      ensures var d := M.DeleteUrls(old(mgr.View()), r.name, r.urls, parses, hostOf, site);
        if Handled(r, mgr.zone, external)
        then mgr.View() == d.clients && |purged| == |d.purged|
        else mgr.View() == old(mgr.View()) && purged == []
      ensures purged == [] || purged == old(mgr.clients)
      ensures !external || !r.kind.Default? || (r.zone != "" && r.zone != mgr.zone) ==> mgr.clients == old(mgr.clients) && purged == []
    {
      hide M.Filter, M.Recreated, M.Holds;
      purged := [];
      if (r.zone != "" && r.zone != mgr.zone) || !r.kind.Default? || !external {
        return;
      }
      var ok := AllParse(r.urls);
      if !ok {
        return;
      }
      var matchCount := CountHeld(r.name, r.urls);
      if matchCount == |r.urls| {
        var rest := Remaining(r.name, r.urls);
        purged := mgr.clients;
        var made := Recreate(rest);
        mgr.clients := made;
        assert mgr.View() == M.Recreated(rest, hostOf, site);
      }
    }

    method CountHeld(name: string, urls: seq<string>) returns (n: nat)
      ensures n == |urls| <==> forall k :: 0 <= k < |urls| ==> M.Holds(mgr.View(), urls[k], name)
    {
      n := 0;
      for j := 0 to |urls|
        invariant n <= j
        invariant n == j <==> forall k :: 0 <= k < j ==> M.Holds(mgr.View(), urls[k], name)
      {
        var b := Has(urls[j], name);
        if b { n := n + 1; }
      }
    }

    method Remaining(name: string, urls: seq<string>) returns (rest: seq<Client>)
      ensures rest == M.Filter(mgr.View(), M.Spared(name, urls))
    {
      rest := [];
      for i := 0 to |mgr.clients|
        invariant rest == M.Filter(mgr.View()[..i], M.Spared(name, urls))
      {
        var v := mgr.clients[i];
        ghost var cs := mgr.View();
        assert cs[..i + 1][..i] == cs[..i] && cs[..i + 1][i] == cs[i];
        if !(v.name == name && v.url in urls) { rest := rest + [Client(v.url, v.host, v.name, v.isAlive, v.noRole, v.instRoles)]; }
      }
      assert mgr.View()[..|mgr.clients|] == mgr.View();
    }

    method Recreate(rest: seq<Client>) returns (made: seq<LoxiClient>)
      ensures forall i :: 0 <= i < |made| ==> fresh(made[i])
      ensures forall i, j :: 0 <= i < j < |made| ==> made[i] != made[j]
      ensures var spec := M.Recreated(rest, hostOf, site);
        |made| == |spec| && forall i :: 0 <= i < |made| ==> made[i].Value() == spec[i]
    {
      made := [];
      for j := 0 to |rest|
        invariant forall i :: 0 <= i < |made| ==> fresh(made[i])
        invariant forall i, k :: 0 <= i < k < |made| ==> made[i] != made[k]
        invariant var spec := M.Recreated(rest[..j], hostOf, site);
          |made| == |spec| && forall i :: 0 <= i < |made| ==> made[i].Value() == spec[i]
      {
        assert rest[..j + 1][..j] == rest[..j] && rest[..j + 1][j] == rest[j];
        var c := rest[j];
        if c.url in site.creatable {
          var client := new LoxiClient(c.url, hostOf(c.url), c.name, false, site.zone, site.num);
          made := made + [client];
        }
      }
      assert rest[..|rest|] == rest;
    }
  }
}
