// How clients join and leave: discovery of in-cluster instances
// (pkg/agent/manager/loadbalancer/loadbalancer.go:2096-2165) and the LoxiURL
// resource (pkg/agent/manager/loxiurl/loxiurl.go:222-252, 259-421), and the
// whole machine of membership, health and arbitration steps.

module Membership {
  import opened Basics
  import opened Names
  import opened Clients
  import opened Election
  import opened ElectionProperties

  // Agent-wide settings, and which addresses a client can be created for.
  datatype Site = Site(zone: string, num: nat, creatable: set<string>)

  datatype Change = Change(clients: seq<Client>, purged: seq<Client>)

  function Filter<T>(s: seq<T>, keep: T -> bool): (r: seq<T>)
    ensures forall x :: x in r ==> x in s && keep(x)
    ensures forall x :: x in s && keep(x) ==> x in r
  {
    if s == [] then [] else
      var r := Filter(s[..|s| - 1], keep);
      if keep(s[|s| - 1]) then r + [s[|s| - 1]] else r
  }

  lemma {:induction false} FilterConcat<T>(a: seq<T>, b: seq<T>, keep: T -> bool)
    ensures Filter(a + b, keep) == Filter(a, keep) + Filter(b, keep)
    decreases |b|
  {
    if b == [] {
      assert a + b == a;
    } else {
      var k := |b| - 1;
      assert (a + b)[..|a| + k] == a + b[..k];
      FilterConcat(a, b[..k], keep);
    }
  }

  lemma {:induction false} FilterAll<T>(s: seq<T>, keep: T -> bool)
    requires forall x :: x in s ==> keep(x)
    ensures Filter(s, keep) == s
  {
    if s != [] {
      var k := |s| - 1;
      assert s[..k] + [s[k]] == s && forall x :: x in s[..k] ==> x in s;
      FilterAll(s[..k], keep);
    }
  }

  // at: where each kept element came from.
  ghost predicate Picks<T>(s: seq<T>, keep: T -> bool, r: seq<T>, at: seq<nat>)
  {
    && |at| == |r| && Increasing(at)
    && (forall i :: 0 <= i < |at| ==> at[i] < |s| && r[i] == s[at[i]])
    && forall n: nat :: n in at <==> n < |s| && keep(s[n])
  }

  lemma PicksMore<T>(s: seq<T>, keep: T -> bool, r: seq<T>, at: seq<nat>)
    requires s != [] && Picks(s[..|s| - 1], keep, r, at)
    ensures var k := |s| - 1; if keep(s[k]) then Picks(s, keep, r + [s[k]], at + [k]) else Picks(s, keep, r, at)
  {
    var k := |s| - 1;
    assert forall n :: 0 <= n < k ==> s[..k][n] == s[n];
    assert (at + [k])[|at|] == k;
    assert forall n :: n in at + [k] <==> n in at || n == k;
  }

  // Filtering is order-preserving.
  lemma {:induction false} FilterOrder<T>(s: seq<T>, keep: T -> bool) returns (at: seq<nat>)
    ensures Picks(s, keep, Filter(s, keep), at)
    decreases |s|
  {
    hide Picks;
    at := [];
    if s == [] {
      PicksNone(s, keep);
    } else {
      var k := |s| - 1;
      at := FilterOrder(s[..k], keep);
      PicksMore(s, keep, Filter(s[..k], keep), at);
      if keep(s[k]) { at := at + [k]; }
    }
  }

  lemma PicksNone<T>(s: seq<T>, keep: T -> bool)
    requires s == []
    ensures Picks(s, keep, [], [])
  {
  }

  predicate Increasing(at: seq<nat>)
  {
    forall i, j :: 0 <= i < j < |at| ==> at[i] < at[j]
  }

  function Hosts(cs: seq<Client>): (h: seq<string>)
    ensures |h| == |cs|
  {
    seq(|cs|, i requires 0 <= i < |cs| => cs[i].host)
  }

  function Urls(cs: seq<Client>): (u: seq<string>)
    ensures |u| == |cs|
  {
    seq(|cs|, i requires 0 <= i < |cs| => cs[i].url)
  }

  // ---------- discovery ----------

  function ServiceUrl(ip: string): string
  {
    "http://" + ip + ":11111"
  }

  function Joined(cs: seq<Client>, ips: seq<string>, exclude: set<string>, site: Site): (new_: seq<Client>)
  {
    if ips == [] then [] else
      var ip, before := ips[|ips| - 1], Joined(cs, ips[..|ips| - 1], exclude, site);
      if ip in Hosts(cs) || ip !in site.creatable then before
      else before + [NewClient(ServiceUrl(ip), ip, "", ip in exclude, site.zone, site.num)]
  }

  function Listed(ips: seq<string>): Client -> bool
  {
    (c: Client) => c.host in ips
  }

  function Unlisted(ips: seq<string>): Client -> bool
  {
    (c: Client) => c.host !in ips
  }

  // DiscoverLoxiLBServices, given the addresses the lister returned.
  function Discover(cs: seq<Client>, ips: seq<string>, exclude: set<string>, site: Site): (c: Change)
  {
    Change(Filter(cs, Listed(ips)) + Joined(cs, ips, exclude, site), Filter(cs, Unlisted(ips)))
  }

  // What the purge channel holds.
  const PURGE_QUEUE: nat := 5

  // Discovery sends each departed client to a channel only it reads: it comes to
  // an end if and only if they all fit.
  predicate Completes(cs: seq<Client>, ips: seq<string>, queued: nat)
  {
    queued + |Filter(cs, Unlisted(ips))| <= PURGE_QUEUE
  }

  // ---------- the LoxiURL resource ----------

  // NewLoxiClient for a LoxiURL; hostOf is the host part of the URL.
  function FromUrl(url: string, name: string, hostOf: string -> string, site: Site): Client
  {
    NewClient(url, hostOf(url), name, false, site.zone, site.num)
  }

  function Created(urls: seq<string>, name: string, hostOf: string -> string, site: Site): (cs: seq<Client>)
  {
    if urls == [] then [] else
      var u, before := urls[|urls| - 1], Created(urls[..|urls| - 1], name, hostOf, site);
      if u in site.creatable then before + [FromUrl(u, name, hostOf, site)] else before
  }

  function NotIn(old_: seq<string>): string -> bool
  {
    (u: string) => u !in old_
  }

  function Named(name: string): Client -> bool
  {
    (c: Client) => c.name == name
  }

  function NotNamed(name: string): Client -> bool
  {
    (c: Client) => c.name != name
  }

  function Spared(name: string, urls: seq<string>): Client -> bool
  {
    (c: Client) => !(c.name == name && c.url in urls)
  }

  // addLoxiLBURL past its early returns. The first such resource takes over
  // from the configured URLs. A URL list that does not parse is refused, but
  // only after that take-over.
  function AddUrls(cs: seq<Client>, crdOn: bool, name: string, urls: seq<string>, parses: string -> bool,
                   hostOf: string -> string, site: Site): (c: Change)
  {
    var cur := if crdOn then cs else [];
    var gone := if crdOn then [] else cs;
    var added := Filter(urls, NotIn(Urls(cur)));
    if (exists i :: 0 <= i < |urls| && !parses(urls[i])) || added == [] then Change(cur, gone)
    else Change(Filter(cur, NotNamed(name)) + Created(added, name, hostOf, site),
                gone + Filter(cur, Named(name)))
  }

  predicate Holds(cs: seq<Client>, url: string, name: string)
  {
    exists i :: 0 <= i < |cs| && cs[i].url == url && cs[i].name == name
  }

  function Recreated(cs: seq<Client>, hostOf: string -> string, site: Site): (r: seq<Client>)
  {
    if cs == [] then [] else
      var c, before := cs[|cs| - 1], Recreated(cs[..|cs| - 1], hostOf, site);
      if c.url in site.creatable then before + [FromUrl(c.url, c.name, hostOf, site)] else before
  }

  // deleteLoxiLBURL past its early returns: all or nothing, and on success every
  // remaining client is dropped and created anew.
  function DeleteUrls(cs: seq<Client>, name: string, urls: seq<string>, parses: string -> bool,
                      hostOf: string -> string, site: Site): (c: Change)
  {
    if exists i :: 0 <= i < |urls| && (!parses(urls[i]) || !Holds(cs, urls[i], name)) then Change(cs, [])
    else Change(Recreated(Filter(cs, Spared(name, urls)), hostOf, site), cs)
  }

  // ---------- discovery is exact ----------

  lemma {:induction false} JoinedHosts(cs: seq<Client>, ips: seq<string>, exclude: set<string>, site: Site)
    requires Distinct(ips)
    ensures var h := Hosts(Joined(cs, ips, exclude, site));
      && Distinct(h)
      && forall ip :: ip in h <==> ip in ips && ip !in Hosts(cs) && ip in site.creatable
    decreases |ips|
  {
    if ips != [] {
      var k := |ips| - 1;
      var before := Joined(cs, ips[..k], exclude, site);
      JoinedHosts(cs, ips[..k], exclude, site);
      assert ips == ips[..k] + [ips[k]];
      DistinctSnoc(ips[..k], ips[k]);
      DistinctSnoc(Hosts(before), ips[k]);
      var now := Joined(cs, ips, exclude, site);
      assert now != before ==> Hosts(now) == Hosts(before) + [ips[k]];
    }
  }

  lemma {:induction false} FilterSplits<T>(s: seq<T>, keep: T -> bool, drop: T -> bool)
    requires forall x :: x in s ==> drop(x) == !keep(x)
    ensures multiset(s) == multiset(Filter(s, keep)) + multiset(Filter(s, drop))
    decreases |s|
  {
    if s != [] {
      var k := |s| - 1;
      assert s == s[..k] + [s[k]] && forall x :: x in s[..k] ==> x in s;
      FilterSplits(s[..k], keep, drop);
    }
  }

  lemma {:induction false} FilterDistinctHosts(cs: seq<Client>, keep: Client -> bool)
    requires Distinct(Hosts(cs))
    ensures Distinct(Hosts(Filter(cs, keep)))
  {
    var at := FilterOrder(cs, keep);
    var r := Filter(cs, keep);
    forall i, j | 0 <= i < |r| && 0 <= j < |r| && Hosts(r)[i] == Hosts(r)[j] ensures i == j {
      assert Hosts(cs)[at[i]] == Hosts(cs)[at[j]];
    }
  }

  // The hosts in the resulting list: the discovered addresses that were known
  // or could be created.
  lemma DiscoveredHosts(cs: seq<Client>, ips: seq<string>, exclude: set<string>, site: Site, ip: string)
    requires Distinct(ips)
    ensures ip in Hosts(Discover(cs, ips, exclude, site).clients) <==>
      ip in ips && (ip in Hosts(cs) || ip in site.creatable)
    ensures ip in Hosts(Filter(cs, Listed(ips))) <==> ip in ips && ip in Hosts(cs)
  {
    var kept, joined := Filter(cs, Listed(ips)), Joined(cs, ips, exclude, site);
    JoinedHosts(cs, ips, exclude, site);
    assert Hosts(kept + joined) == Hosts(kept) + Hosts(joined);
    HostsOf(cs, Listed(ips), ip);
    HostsOf(cs, (c: Client) => true, ip);
    FilterAll(cs, (c: Client) => true);
  }

  // The list ends with one client per discovered address that was known or
  // could be created, no host twice, survivors first and in order; whoever left
  // was purged exactly once.
  lemma DiscoveryIsExact(cs: seq<Client>, ips: seq<string>, exclude: set<string>, site: Site)
    requires Distinct(ips) && Distinct(Hosts(cs))
    ensures var c := Discover(cs, ips, exclude, site);
      && Distinct(Hosts(c.clients))
      && (forall ip :: ip in Hosts(c.clients) <==> ip in ips && (ip in Hosts(cs) || ip in site.creatable))
      && multiset(cs) == multiset(Filter(cs, Listed(ips))) + multiset(c.purged)
      && Filter(cs, Listed(ips)) <= c.clients
  {
    hide Filter, Joined;
    var c, kept, joined := Discover(cs, ips, exclude, site), Filter(cs, Listed(ips)), Joined(cs, ips, exclude, site);
    FilterSplits(cs, Listed(ips), Unlisted(ips));
    JoinedHosts(cs, ips, exclude, site);
    FilterDistinctHosts(cs, Listed(ips));
    forall ip ensures ip in Hosts(c.clients) <==> ip in ips && (ip in Hosts(cs) || ip in site.creatable)
      ensures ip in Hosts(kept) ==> ip !in Hosts(joined)
    {
      DiscoveredHosts(cs, ips, exclude, site, ip);
    }
    assert Hosts(c.clients) == Hosts(kept) + Hosts(joined);
    DistinctConcat(Hosts(kept), Hosts(joined));
  }

  // When the lister fails every client departs, so six are too many whatever the
  // channel holds; up to five fit an empty one.
  lemma LostListing(cs: seq<Client>, queued: nat)
    ensures Completes(cs, [], queued) <==> queued + |cs| <= PURGE_QUEUE
    ensures |cs| >= 6 ==> !Completes(cs, [], queued)
  {
    FilterAll(cs, Unlisted([]));
  }

  lemma HostsOf(cs: seq<Client>, keep: Client -> bool, h: string)
    ensures h in Hosts(Filter(cs, keep)) <==> exists i :: 0 <= i < |cs| && cs[i].host == h && keep(cs[i])
  {
    var kept := Filter(cs, keep);
    if h in Hosts(kept) {
      var i :| 0 <= i < |kept| && Hosts(kept)[i] == h;
      assert kept[i] in cs;
    }
    if i :| 0 <= i < |cs| && cs[i].host == h && keep(cs[i]) {
      var j :| 0 <= j < |kept| && kept[j] == cs[i];
      assert Hosts(kept)[j] == h;
    }
  }

  // A client as it is created: not alive, master of nothing, its name the host's
  // unless it is given one.
  ghost predicate IsNew(c: Client, url: string, host: string, name: string, noRole: bool, site: Site)
  {
    && c.url == url && c.host == host && c.name == (if name == "" then host else name) && c.noRole == noRole && !c.alive
    && c.roles.Keys == InstNames(site.zone, site.num) && forall inst :: inst in c.roles ==> !c.roles[inst]
  }

  // The newcomers of a discovery are clients for exactly the addresses that are
  // unknown and creatable, in order, without a role exactly where excluded.
  lemma {:induction false} JoinedAre(cs: seq<Client>, ips: seq<string>, exclude: set<string>, site: Site) returns (at: seq<nat>)
    ensures var made := Joined(cs, ips, exclude, site);
      && Increasing(at) && |made| == |at|
      && (forall n: nat :: n in at <==> n < |ips| && (forall i :: 0 <= i < |cs| ==> cs[i].host != ips[n]) && ips[n] in site.creatable)
      && forall i :: 0 <= i < |at| ==>
           at[i] < |ips| && IsNew(made[i], "http://" + ips[at[i]] + ":11111", ips[at[i]], "", ips[at[i]] in exclude, site)
    decreases |ips|
  {
    hide InstNames;
    at := [];
    if ips != [] {
      var k := |ips| - 1;
      at := JoinedAre(cs, ips[..k], exclude, site);
      assert forall n :: 0 <= n < k ==> ips[..k][n] == ips[n];
      HostKnown(cs, ips[k]);
      if ips[k] !in Hosts(cs) && ips[k] in site.creatable {
        assert (at + [k])[|at|] == k;
        at := at + [k];
      }
    }
  }

  lemma HostKnown(cs: seq<Client>, ip: string)
    ensures ip in Hosts(cs) <==> exists i :: 0 <= i < |cs| && cs[i].host == ip
  {
    assert forall i :: 0 <= i < |cs| ==> Hosts(cs)[i] == cs[i].host;
  }

  lemma UrlKnown(cs: seq<Client>, url: string)
    ensures url in Urls(cs) <==> exists i :: 0 <= i < |cs| && cs[i].url == url
  {
    assert forall i :: 0 <= i < |cs| ==> Urls(cs)[i] == cs[i].url;
  }

  lemma {:induction false} CreatedAre(urls: seq<string>, name: string, hostOf: string -> string, site: Site) returns (at: seq<nat>)
    ensures var made := Created(urls, name, hostOf, site);
      && Increasing(at) && |made| == |at|
      && (forall n: nat :: n in at <==> n < |urls| && urls[n] in site.creatable)
      && forall i :: 0 <= i < |at| ==> at[i] < |urls| && IsNew(made[i], urls[at[i]], hostOf(urls[at[i]]), name, false, site)
    decreases |urls|
  {
    hide InstNames;
    at := [];
    if urls != [] {
      var k := |urls| - 1;
      at := CreatedAre(urls[..k], name, hostOf, site);
      assert forall n :: 0 <= n < k ==> urls[..k][n] == urls[n];
      if urls[k] in site.creatable {
        assert (at + [k])[|at|] == k;
        at := at + [k];
      }
    }
  }

  // ---------- the LoxiURL client list ----------

  lemma {:induction false} CreatedUrls(urls: seq<string>, name: string, hostOf: string -> string, site: Site)
    requires Distinct(urls)
    ensures Distinct(Urls(Created(urls, name, hostOf, site)))
    ensures forall u :: u in Urls(Created(urls, name, hostOf, site)) ==> u in urls
    decreases |urls|
  {
    if urls != [] {
      var k := |urls| - 1;
      var before, now := Created(urls[..k], name, hostOf, site), Created(urls, name, hostOf, site);
      CreatedUrls(urls[..k], name, hostOf, site);
      assert urls == urls[..k] + [urls[k]];
      DistinctSnoc(urls[..k], urls[k]);
      DistinctSnoc(Urls(before), urls[k]);
      assert now != before ==> Urls(now) == Urls(before) + [urls[k]];
    }
  }

  lemma FilterDistinctUrls(cs: seq<Client>, keep: Client -> bool)
    requires Distinct(Urls(cs))
    ensures Distinct(Urls(Filter(cs, keep))) && forall u :: u in Urls(Filter(cs, keep)) ==> u in Urls(cs)
  {
    var at := FilterOrder(cs, keep);
    var r := Filter(cs, keep);
    assert forall i :: 0 <= i < |r| ==> Urls(r)[i] == Urls(cs)[at[i]];
  }

  lemma FilterDistinct<T>(s: seq<T>, keep: T -> bool)
    requires Distinct(s)
    ensures Distinct(Filter(s, keep))
  {
  }

  lemma {:induction false} RecreatedUrls(cs: seq<Client>, hostOf: string -> string, site: Site)
    requires Distinct(Urls(cs))
    ensures Distinct(Urls(Recreated(cs, hostOf, site)))
    ensures forall u :: u in Urls(Recreated(cs, hostOf, site)) ==> u in Urls(cs)
    decreases |cs|
  {
    if cs != [] {
      var k := |cs| - 1;
      var before, now := Recreated(cs[..k], hostOf, site), Recreated(cs, hostOf, site);
      assert Urls(cs) == Urls(cs[..k]) + [cs[k].url];
      DistinctSnoc(Urls(cs[..k]), cs[k].url);
      RecreatedUrls(cs[..k], hostOf, site);
      DistinctSnoc(Urls(before), cs[k].url);
      assert now != before ==> Urls(now) == Urls(before) + [cs[k].url];
    }
  }

  // Recreation makes a client for each URL that is creatable, in order, with the
  // name it had.
  lemma {:induction false} RecreatedAre(cs: seq<Client>, hostOf: string -> string, site: Site) returns (at: seq<nat>)
    ensures var made := Recreated(cs, hostOf, site);
      && Increasing(at) && |made| == |at|
      && (forall n: nat :: n in at <==> n < |cs| && cs[n].url in site.creatable)
      && forall i :: 0 <= i < |at| ==> at[i] < |cs| && IsNew(made[i], cs[at[i]].url, hostOf(cs[at[i]].url), cs[at[i]].name, false, site)
    decreases |cs|
  {
    hide InstNames;
    at := [];
    if cs != [] {
      var k := |cs| - 1;
      at := RecreatedAre(cs[..k], hostOf, site);
      assert forall n :: 0 <= n < k ==> cs[..k][n] == cs[n];
      if cs[k].url in site.creatable {
        assert (at + [k])[|at|] == k;
        at := at + [k];
      }
    }
  }

  // Adding a resource with a duplicate-free URL list keeps URLs distinct.
  lemma AddKeepsUrlsDistinct(cs: seq<Client>, crdOn: bool, name: string, urls: seq<string>, parses: string -> bool,
                             hostOf: string -> string, site: Site)
    requires Distinct(Urls(cs)) && Distinct(urls)
    ensures Distinct(Urls(AddUrls(cs, crdOn, name, urls, parses, hostOf, site).clients))
  {
    var cur := if crdOn then cs else [];
    var isNew, other := NotIn(Urls(cur)), NotNamed(name);
    var added := Filter(urls, isNew);
    FilterDistinct(urls, isNew);
    CreatedUrls(added, name, hostOf, site);
    FilterDistinctUrls(cur, other);
    var kept, made := Filter(cur, other), Created(added, name, hostOf, site);
    assert Urls(kept + made) == Urls(kept) + Urls(made);
    DistinctConcat(Urls(kept), Urls(made));
  }

  predicate AllParse(urls: seq<string>, parses: string -> bool)
  {
    forall i :: 0 <= i < |urls| ==> parses(urls[i])
  }

  // Some URL of the list is no client's.
  predicate BringsNew(cs: seq<Client>, urls: seq<string>)
  {
    exists n :: 0 <= n < |urls| && NewUrl(cs, urls[n])
  }

  predicate NewUrl(cs: seq<Client>, url: string)
  {
    forall i :: 0 <= i < |cs| ==> cs[i].url != url
  }

  lemma BringsNewIff(cs: seq<Client>, urls: seq<string>)
    ensures BringsNew(cs, urls) <==> Filter(urls, NotIn(Urls(cs))) != []
  {
    var added := Filter(urls, NotIn(Urls(cs)));
    forall n | 0 <= n < |urls| ensures NewUrl(cs, urls[n]) <==> urls[n] !in Urls(cs) { UrlKnown(cs, urls[n]); }
    if BringsNew(cs, urls) {
      var n :| 0 <= n < |urls| && NewUrl(cs, urls[n]);
      assert urls[n] in added;
    }
    if added != [] { assert added[0] in added && added[0] in urls; }
  }

  // What an add does: nothing past the take-over when a URL does not parse or all
  // are known; otherwise the clients of other resources stay, in order, followed
  // by one for each URL that is new and creatable, in order. Purged are the
  // clients taken over and the resource's own, in order.
  lemma AddIsExact(cs: seq<Client>, crdOn: bool, name: string, urls: seq<string>, parses: string -> bool,
                   hostOf: string -> string, site: Site) returns (kept: seq<nat>, made: seq<nat>, gone: seq<nat>)
    ensures var cur, away := if crdOn then cs else [], if crdOn then [] else cs;
      var purged := AddUrls(cs, crdOn, name, urls, parses, hostOf, site).purged;
      && Increasing(gone) && |purged| == |away| + |gone| && purged[..|away|] == away
      && (if !AllParse(urls, parses) || !BringsNew(cur, urls) then gone == []
          else && (forall n: nat :: n in gone <==> n < |cur| && cur[n].name == name)
               && forall i :: 0 <= i < |gone| ==> gone[i] < |cur| && purged[|away| + i] == cur[gone[i]])
    ensures var c := AddUrls(cs, crdOn, name, urls, parses, hostOf, site).clients;
      var cur := if crdOn then cs else [];
      && Increasing(kept) && Increasing(made) && |c| == |kept| + |made|
      && (if !AllParse(urls, parses) || !BringsNew(cur, urls) then c == cur && made == []
          else && (forall n: nat :: n in kept <==> n < |cur| && cur[n].name != name)
               && (forall n: nat :: n in made <==> n < |urls| && NewUrl(cur, urls[n]) && urls[n] in site.creatable)
               && (forall i :: 0 <= i < |kept| ==> kept[i] < |cur| && c[i] == cur[kept[i]])
               && (forall i :: 0 <= i < |made| ==>
                     made[i] < |urls| && IsNew(c[|kept| + i], urls[made[i]], hostOf(urls[made[i]]), name, false, site)))
  {
    hide InstNames, IsNew, Created, Filter, Urls;
    var cur := if crdOn then cs else [];
    kept, made, gone := seq(|cur|, i => i), [], [];
    BringsNewIff(cur, urls);
    if AllParse(urls, parses) && BringsNew(cur, urls) {
      kept := FilterOrder(cur, NotNamed(name));
      gone := FilterOrder(cur, Named(name));
      var added := Filter(urls, NotIn(Urls(cur)));
      var news := FilterOrder(urls, NotIn(Urls(cur)));
      var at := CreatedAre(added, name, hostOf, site);
      made := Compose(news, at);
      forall n: nat ensures n in made <==> n < |urls| && NewUrl(cur, urls[n]) && urls[n] in site.creatable {
        MadeOf(cur, urls, added, news, at, site, n);
      }
    }
  }

  lemma MadeOf(cur: seq<Client>, urls: seq<string>, added: seq<string>, news: seq<nat>, at: seq<nat>, site: Site, n: nat)
    requires Picks(urls, NotIn(Urls(cur)), added, news) && forall x: nat :: x in at <==> x < |added| && added[x] in site.creatable
    requires forall i :: 0 <= i < |at| ==> at[i] < |added|
    ensures n in Compose(news, at) <==> n < |urls| && NewUrl(cur, urls[n]) && urls[n] in site.creatable
  {
    if n < |urls| { UrlKnown(cur, urls[n]); }
    ComposedMembers(news, at, n);
    if n in news {
      var x :| 0 <= x < |news| && news[x] == n;
      ComposedAt(news, at, x);
    }
  }

  function Compose(outer: seq<nat>, at: seq<nat>): (r: seq<nat>)
    requires forall i :: 0 <= i < |at| ==> at[i] < |outer|
    ensures |r| == |at| && forall i :: 0 <= i < |at| ==> r[i] == outer[at[i]]
    ensures Increasing(outer) && Increasing(at) ==> Increasing(r)
  {
    seq(|at|, i requires 0 <= i < |at| => outer[at[i]])
  }

  lemma ComposedMembers(outer: seq<nat>, at: seq<nat>, n: nat)
    requires forall i :: 0 <= i < |at| ==> at[i] < |outer|
    ensures n in Compose(outer, at) ==> n in outer
  {
  }

  lemma ComposedAt(outer: seq<nat>, at: seq<nat>, x: nat)
    requires (forall i :: 0 <= i < |at| ==> at[i] < |outer|) && Increasing(outer) && x < |outer|
    ensures outer[x] in Compose(outer, at) <==> x in at
  {
    var r := Compose(outer, at);
    if outer[x] in r {
      var i :| 0 <= i < |r| && r[i] == outer[x];
      assert at[i] < x || at[i] > x || at[i] == x;
    }
    if x in at {
      var i :| 0 <= i < |at| && at[i] == x;
      assert r[i] == outer[x];
    }
  }

  // So after an add every URL of the resource has a client if and only if each
  // new one parses and is creatable and, when there is a new one, no other is
  // only the resource's own: an update that adds a URL drops those it keeps.
  lemma AddServesIff(cs: seq<Client>, crdOn: bool, name: string, urls: seq<string>, parses: string -> bool,
                     hostOf: string -> string, site: Site)
    ensures var c := AddUrls(cs, crdOn, name, urls, parses, hostOf, site).clients;
      var cur := if crdOn then cs else [];
      (forall n :: 0 <= n < |urls| ==> !NewUrl(c, urls[n])) <==>
        || !BringsNew(cur, urls)
        || (AllParse(urls, parses) && forall n :: 0 <= n < |urls| ==>
              if NewUrl(cur, urls[n]) then urls[n] in site.creatable else OthersHave(cur, name, urls[n]))
  {
    hide AddUrls, IsNew;
    var c := AddUrls(cs, crdOn, name, urls, parses, hostOf, site).clients;
    var cur := if crdOn then cs else [];
    var kept, made, _ := AddIsExact(cs, crdOn, name, urls, parses, hostOf, site);
    if AllParse(urls, parses) && BringsNew(cur, urls) {
      forall n | 0 <= n < |urls|
        ensures !NewUrl(c, urls[n]) <==> if NewUrl(cur, urls[n]) then urls[n] in site.creatable else OthersHave(cur, name, urls[n])
      {
        ServedIff(cur, c, kept, made, name, urls, n, hostOf, site);
      }
    }
  }

  // A resource's one URL is joined by another: it loses the one it had.
  lemma KeptUrlIsDropped(c: Client, other: string, parses: string -> bool, hostOf: string -> string, site: Site)
    requires other != c.url && parses(c.url) && parses(other)
    ensures NewUrl(AddUrls([c], true, c.name, [c.url, other], parses, hostOf, site).clients, c.url)
  {
    hide AddUrls, IsNew;
    var urls, now := [c.url, other], AddUrls([c], true, c.name, [c.url, other], parses, hostOf, site).clients;
    var kept, made, _ := AddIsExact([c], true, c.name, urls, parses, hostOf, site);
    assert [c][0] == c && forall i :: 0 <= i < |[c]| ==> [c][i] == c;
    assert NewUrl([c], urls[1]) && !NewUrl([c], urls[0]) && !OthersHave([c], c.name, urls[0]);
    assert AllParse(urls, parses) && BringsNew([c], urls);
    ServedIff([c], now, kept, made, c.name, urls, 0, hostOf, site);
  }

  predicate OthersHave(cs: seq<Client>, name: string, url: string)
  {
    exists i :: 0 <= i < |cs| && cs[i].url == url && cs[i].name != name
  }

  lemma ServedIff(cur: seq<Client>, c: seq<Client>, kept: seq<nat>, made: seq<nat>, name: string, urls: seq<string>, n: nat,
                  hostOf: string -> string, site: Site)
    requires n < |urls| && |c| == |kept| + |made|
    requires forall x: nat :: x in kept <==> x < |cur| && cur[x].name != name
    requires forall x: nat :: x in made <==> x < |urls| && NewUrl(cur, urls[x]) && urls[x] in site.creatable
    requires forall i :: 0 <= i < |kept| ==> kept[i] < |cur| && c[i] == cur[kept[i]]
    requires forall i :: 0 <= i < |made| ==> made[i] < |urls| && IsNew(c[|kept| + i], urls[made[i]], hostOf(urls[made[i]]), name, false, site)
    ensures !NewUrl(c, urls[n]) <==> if NewUrl(cur, urls[n]) then urls[n] in site.creatable else OthersHave(cur, name, urls[n])
  {
    hide InstNames;
    if !NewUrl(c, urls[n]) {
      var i :| 0 <= i < |c| && c[i].url == urls[n];
      if i < |kept| { assert kept[i] in kept; }
      else { assert made[i - |kept|] in made && c[|kept| + (i - |kept|)] == c[i]; }
    }
    if NewUrl(cur, urls[n]) && urls[n] in site.creatable {
      assert n in made;
      var i :| 0 <= i < |made| && made[i] == n;
      assert c[|kept| + i].url == urls[n];
    }
    if OthersHave(cur, name, urls[n]) {
      var x :| 0 <= x < |cur| && cur[x].url == urls[n] && cur[x].name != name;
      assert x in kept;
      var i :| 0 <= i < |kept| && kept[i] == x;
      assert c[i].url == urls[n];
    }
  }

  // A client without a name has a URL without a host.
  ghost predicate NamedByHost(cs: seq<Client>, hostOf: string -> string)
  {
    forall i :: 0 <= i < |cs| && cs[i].name == "" ==> hostOf(cs[i].url) == ""
  }

  // The resource's URLs all parse and are all clients of that name.
  predicate AllHeld(cs: seq<Client>, name: string, urls: seq<string>, parses: string -> bool)
  {
    forall n :: 0 <= n < |urls| ==> parses(urls[n]) && OwnHas(cs, name, urls[n])
  }

  predicate OwnHas(cs: seq<Client>, name: string, url: string)
  {
    exists i :: 0 <= i < |cs| && cs[i].url == url && cs[i].name == name
  }

  lemma AllHeldIff(cs: seq<Client>, name: string, urls: seq<string>, parses: string -> bool)
    ensures AllHeld(cs, name, urls, parses) <==> !exists i :: 0 <= i < |urls| && (!parses(urls[i]) || !Holds(cs, urls[i], name))
  {
    assert forall n :: 0 <= n < |urls| ==> (Holds(cs, urls[n], name) <==> OwnHas(cs, name, urls[n]));
  }

  // A delete whose URLs are all held leaves exactly the other clients that can be
  // created again, in order and with their names, an empty one becoming the host;
  // any other delete changes nothing.
  lemma DeleteIsExact(cs: seq<Client>, name: string, urls: seq<string>, parses: string -> bool,
                      hostOf: string -> string, site: Site) returns (at: seq<nat>)
    ensures var d := DeleteUrls(cs, name, urls, parses, hostOf, site);
      if !AllHeld(cs, name, urls, parses) then d == Change(cs, [])
      else
        && d.purged == cs && Increasing(at) && |d.clients| == |at|
        && (forall n: nat :: n in at <==> n < |cs| && !(cs[n].name == name && cs[n].url in urls) && cs[n].url in site.creatable)
        && forall i :: 0 <= i < |at| ==>
             && at[i] < |cs| && IsNew(d.clients[i], cs[at[i]].url, hostOf(cs[at[i]].url), cs[at[i]].name, false, site)
             && (NamedByHost(cs, hostOf) ==> d.clients[i].name == cs[at[i]].name)
  {
    hide InstNames, Recreated, Filter, AllHeld, Holds;
    AllHeldIff(cs, name, urls, parses);
    var rest := Filter(cs, Spared(name, urls));
    var outer := FilterOrder(cs, Spared(name, urls));
    var inner := RecreatedAre(rest, hostOf, site);
    at := Compose(outer, inner);
    forall n: nat ensures n in at <==> n < |cs| && !(cs[n].name == name && cs[n].url in urls) && cs[n].url in site.creatable {
      ComposedMembers(outer, inner, n);
      if n in outer {
        var x :| 0 <= x < |outer| && outer[x] == n;
        assert n in at <==> x in inner by { ComposedAt(outer, inner, x); }
      }
    }
  }

  // ---------- every reachable state is safe ----------

  datatype State = State(clients: seq<Client>, crdOn: bool)

  datatype Step =
    | Health(live: seq<bool>)
    | Arbitrate(rounds: seq<Round>)
    | Discovery(ips: seq<string>, exclude: set<string>, creatable: set<string>, queued: nat)
    | AddResource(name: string, urls: seq<string>, creatable: set<string>)
    | DeleteResource(name: string, urls: seq<string>, creatable: set<string>)

  // The agent's fixed settings and its URL parser.
  datatype Agent = Agent(zone: string, cfg: Config, parses: string -> bool, hostOf: string -> string)

  predicate Enabled(st: State, step: Step)
  {
    match step
    case Health(live) => |live| == |st.clients|
    case Arbitrate(rounds) => AllFit(|st.clients|, rounds)
    case Discovery(ips, exclude, ok, queued) => Completes(st.clients, ips, queued)
    case _ => true
  }

  function Next(a: Agent, st: State, step: Step): State
    requires Enabled(st, step)
  {
    match step
    case Health(live) => st.(clients := WithLive(st.clients, live))
    case Arbitrate(rounds) => st.(clients := Pass(st.clients, a.cfg, rounds).clients)
    case Discovery(ips, exclude, ok, queued) =>
      st.(clients := Discover(st.clients, ips, exclude, Site(a.zone, a.cfg.numInst, ok)).clients)
    case AddResource(name, urls, ok) =>
      State(AddUrls(st.clients, st.crdOn, name, urls, a.parses, a.hostOf, Site(a.zone, a.cfg.numInst, ok)).clients, true)
    case DeleteResource(name, urls, ok) =>
      st.(clients := DeleteUrls(st.clients, name, urls, a.parses, a.hostOf, Site(a.zone, a.cfg.numInst, ok)).clients)
  }

  ghost predicate IsRun(a: Agent, states: seq<State>, steps: seq<Step>)
  {
    |states| == |steps| + 1 &&
    forall k :: 0 <= k < |steps| ==> Enabled(states[k], steps[k]) && states[k + 1] == Next(a, states[k], steps[k])
  }

  ghost predicate Good(cs: seq<Client>, zone: string, num: nat)
  {
    Safe(cs) && RolesFor(cs, zone, num)
  }

  ghost predicate Blameless(cs: seq<Client>, zone: string, num: nat)
  {
    RolesFor(cs, zone, num) && forall i, inst :: 0 <= i < |cs| ==> !IsMaster(cs[i], inst)
  }

  lemma FilterKeepsGood(cs: seq<Client>, keep: Client -> bool, zone: string, num: nat)
    requires Good(cs, zone, num)
    ensures Good(Filter(cs, keep), zone, num)
  {
    var at := FilterOrder(cs, keep);
    var r := Filter(cs, keep);
    forall inst ensures AtMostOne(r, inst) {
      assert AtMostOne(cs, inst);
    }
  }

  lemma ConcatKeepsGood(cs: seq<Client>, ds: seq<Client>, zone: string, num: nat)
    requires Good(cs, zone, num) && Blameless(ds, zone, num)
    ensures Good(cs + ds, zone, num)
  {
    assert forall i :: |cs| <= i < |cs + ds| ==> (cs + ds)[i] == ds[i - |cs|];
    forall inst ensures AtMostOne(cs + ds, inst) {
      assert AtMostOne(cs, inst);
    }
  }

  lemma {:induction false} JoinedBlameless(cs: seq<Client>, ips: seq<string>, exclude: set<string>, site: Site)
    ensures Blameless(Joined(cs, ips, exclude, site), site.zone, site.num)
    decreases |ips|
  {
    if ips != [] { JoinedBlameless(cs, ips[..|ips| - 1], exclude, site); }
  }

  lemma {:induction false} CreatedBlameless(urls: seq<string>, name: string, hostOf: string -> string, site: Site)
    ensures Blameless(Created(urls, name, hostOf, site), site.zone, site.num)
    decreases |urls|
  {
    if urls != [] { CreatedBlameless(urls[..|urls| - 1], name, hostOf, site); }
  }

  lemma {:induction false} RecreatedBlameless(cs: seq<Client>, hostOf: string -> string, site: Site)
    ensures Blameless(Recreated(cs, hostOf, site), site.zone, site.num)
    decreases |cs|
  {
    if cs != [] { RecreatedBlameless(cs[..|cs| - 1], hostOf, site); }
  }

  lemma HealthKeepsGood(cs: seq<Client>, live: seq<bool>, zone: string, num: nat)
    requires |live| == |cs| && Good(cs, zone, num)
    ensures Good(WithLive(cs, live), zone, num)
  {
    var ds := WithLive(cs, live);
    assert forall i, inst :: 0 <= i < |cs| ==> IsMaster(ds[i], inst) == IsMaster(cs[i], inst);
    forall inst ensures AtMostOne(ds, inst) {
      assert AtMostOne(cs, inst);
    }
  }

  lemma NextKeepsGood(a: Agent, st: State, step: Step)
    requires Enabled(st, step) && Good(st.clients, a.zone, a.cfg.numInst)
    ensures Good(Next(a, st, step).clients, a.zone, a.cfg.numInst)
  {
    hide Pass;
    var zone, num, cs := a.zone, a.cfg.numInst, st.clients;
    match step
    case Health(live) =>
      HealthKeepsGood(cs, live, zone, num);
    case Arbitrate(rounds) =>
      PassKeepsSafe(cs, a.cfg, rounds);
    case Discovery(ips, exclude, ok, queued) =>
      var site := Site(zone, num, ok);
      FilterKeepsGood(cs, Listed(ips), zone, num);
      JoinedBlameless(cs, ips, exclude, site);
      ConcatKeepsGood(Filter(cs, Listed(ips)), Joined(cs, ips, exclude, site), zone, num);
    case AddResource(name, urls, ok) =>
      var site := Site(zone, num, ok);
      var cur := if st.crdOn then cs else [];
      var added := Filter(urls, NotIn(Urls(cur)));
      FilterKeepsGood(cur, NotNamed(name), zone, num);
      CreatedBlameless(added, name, a.hostOf, site);
      ConcatKeepsGood(Filter(cur, NotNamed(name)), Created(added, name, a.hostOf, site), zone, num);
    case DeleteResource(name, urls, ok) =>
      RecreatedBlameless(Filter(cs, Spared(name, urls)), a.hostOf, Site(zone, num, ok));
  }

  // In every state of every run of health flips (also inside a pass), passes,
  // discoveries and resource changes, each instance has at most one master and
  // no excluded client is one.
  lemma {:induction false} RunsAreSafe(a: Agent, states: seq<State>, steps: seq<Step>, k: nat)
    requires IsRun(a, states, steps) && k < |states|
    requires Good(states[0].clients, a.zone, a.cfg.numInst)
    ensures Good(states[k].clients, a.zone, a.cfg.numInst)
    decreases k
  {
    if k > 0 {
      RunsAreSafe(a, states, steps, k - 1);
      NextKeepsGood(a, states[k - 1], steps[k - 1]);
    }
  }

  lemma DeleteKeepsUrlsDistinct(cs: seq<Client>, name: string, urls: seq<string>, parses: string -> bool,
                                hostOf: string -> string, site: Site)
    requires Distinct(Urls(cs))
    ensures Distinct(Urls(DeleteUrls(cs, name, urls, parses, hostOf, site).clients))
  {
    FilterDistinctUrls(cs, Spared(name, urls));
    RecreatedUrls(Filter(cs, Spared(name, urls)), hostOf, site);
  }

  lemma HealthKeepsUrls(cs: seq<Client>, live: seq<bool>)
    requires |live| == |cs|
    ensures Urls(WithLive(cs, live)) == Urls(cs)
  {
  }

  lemma SameMembersSameUrls(cs: seq<Client>, ds: seq<Client>)
    requires SameMembers(cs, ds)
    ensures Urls(ds) == Urls(cs)
  {
  }

  // Over any run of resource changes with duplicate-free URL lists, health flips
  // and passes, no two clients share a URL.
  lemma {:induction false} UrlsStayDistinct(a: Agent, states: seq<State>, steps: seq<Step>, k: nat)
    requires IsRun(a, states, steps) && k < |states|
    requires Good(states[0].clients, a.zone, a.cfg.numInst) && Distinct(Urls(states[0].clients))
    requires forall j :: 0 <= j < |steps| ==> !steps[j].Discovery? && (steps[j].AddResource? ==> Distinct(steps[j].urls))
    ensures Distinct(Urls(states[k].clients))
    decreases k
  {
    hide Good, Distinct, AddUrls, DeleteUrls, Pass, WithLive;
    if k > 0 {
      UrlsStayDistinct(a, states, steps, k - 1);
      var st, cs := states[k - 1], states[k - 1].clients;
      match steps[k - 1]
      case Health(live) =>
        HealthKeepsUrls(cs, live);
      case Arbitrate(rounds) =>
        RunsAreSafe(a, states, steps, k - 1);
        GoodIsSafe(cs, a.zone, a.cfg.numInst);
        PassKeepsSafe(cs, a.cfg, rounds);
        SameMembersSameUrls(cs, Pass(cs, a.cfg, rounds).clients);
      case AddResource(name, urls, ok) =>
        AddKeepsUrlsDistinct(cs, st.crdOn, name, urls, a.parses, a.hostOf, Site(a.zone, a.cfg.numInst, ok));
      case DeleteResource(name, urls, ok) =>
        DeleteKeepsUrlsDistinct(cs, name, urls, a.parses, a.hostOf, Site(a.zone, a.cfg.numInst, ok));
      case Discovery(_, _, _, _) => assert false;
    }
  }

  lemma {:induction false} CreatedNamed(urls: seq<string>, name: string, hostOf: string -> string, site: Site)
    ensures NamedByHost(Created(urls, name, hostOf, site), hostOf)
    decreases |urls|
  {
    if urls != [] { CreatedNamed(urls[..|urls| - 1], name, hostOf, site); }
  }

  lemma {:induction false} RecreatedNamed(cs: seq<Client>, hostOf: string -> string, site: Site)
    ensures NamedByHost(Recreated(cs, hostOf, site), hostOf)
    decreases |cs|
  {
    if cs != [] { RecreatedNamed(cs[..|cs| - 1], hostOf, site); }
  }

  lemma FilterNamed(cs: seq<Client>, keep: Client -> bool, hostOf: string -> string)
    requires NamedByHost(cs, hostOf)
    ensures NamedByHost(Filter(cs, keep), hostOf)
  {
    forall i | 0 <= i < |Filter(cs, keep)| ensures Filter(cs, keep)[i] in cs {}
  }

  lemma SameMembersNamed(cs: seq<Client>, ds: seq<Client>, hostOf: string -> string)
    requires SameMembers(cs, ds) && NamedByHost(cs, hostOf)
    ensures NamedByHost(ds, hostOf)
  {
  }

  lemma HealthKeepsNamed(cs: seq<Client>, live: seq<bool>, hostOf: string -> string)
    requires |live| == |cs| && NamedByHost(cs, hostOf)
    ensures NamedByHost(WithLive(cs, live), hostOf)
  {
  }

  lemma AddKeepsNamed(cs: seq<Client>, crdOn: bool, name: string, urls: seq<string>, parses: string -> bool, hostOf: string -> string, site: Site)
    requires NamedByHost(cs, hostOf)
    ensures NamedByHost(AddUrls(cs, crdOn, name, urls, parses, hostOf, site).clients, hostOf)
  {
    var cur := if crdOn then cs else [];
    var added := Filter(urls, NotIn(Urls(cur)));
    FilterNamed(cur, NotNamed(name), hostOf);
    CreatedNamed(added, name, hostOf, site);
  }

  // Over the same runs that holds of every client, so a delete keeps the names
  // of the clients it recreates.
  lemma {:induction false} NamesStay(a: Agent, states: seq<State>, steps: seq<Step>, k: nat)
    requires IsRun(a, states, steps) && k < |states|
    requires Good(states[0].clients, a.zone, a.cfg.numInst) && NamedByHost(states[0].clients, a.hostOf)
    requires forall j :: 0 <= j < |steps| ==> !steps[j].Discovery?
    ensures NamedByHost(states[k].clients, a.hostOf)
    decreases k
  {
    hide Good, NamedByHost, AddUrls, Pass, WithLive, Recreated, Filter;
    if k > 0 {
      NamesStay(a, states, steps, k - 1);
      var st, cs := states[k - 1], states[k - 1].clients;
      match steps[k - 1]
      case Health(live) => HealthKeepsNamed(cs, live, a.hostOf);
      case Arbitrate(rounds) =>
        RunsAreSafe(a, states, steps, k - 1);
        GoodIsSafe(cs, a.zone, a.cfg.numInst);
        PassKeepsSafe(cs, a.cfg, rounds);
        SameMembersNamed(cs, Pass(cs, a.cfg, rounds).clients, a.hostOf);
      case AddResource(name, urls, ok) =>
        AddKeepsNamed(cs, st.crdOn, name, urls, a.parses, a.hostOf, Site(a.zone, a.cfg.numInst, ok));
      case DeleteResource(name, urls, ok) =>
        RecreatedNamed(Filter(cs, Spared(name, urls)), a.hostOf, Site(a.zone, a.cfg.numInst, ok));
      case Discovery(_, _, _, _) => assert false;
    }
  }

  lemma GoodIsSafe(cs: seq<Client>, zone: string, num: nat)
    requires Good(cs, zone, num)
    ensures Safe(cs)
  {
  }
}
