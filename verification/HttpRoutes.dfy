// Translating an HTTPRoute into an Ingress
// (pkg/agent/manager/gatewayapi/httproute.go:304-312, 327-385).

module HttpRoutes {
  import opened Basics

  datatype PathKind = Exact | PathPrefix | RegularExpression

  datatype PathMatch = PathMatch(value: Option<string>, kind: Option<PathKind>)

  // other: the match also asks for headers, query parameters or a method.
  datatype Match = Match(path: Option<PathMatch>, other: bool)

  datatype Backend = Backend(name: string, port: Option<nat>)

  datatype Rule = Rule(matches: seq<Match>, backends: seq<Backend>)

  datatype Route = Route(hostnames: seq<string>, rules: seq<Rule>)

  // exact is absent when the route named no type.
  datatype IngressPath = IngressPath(path: string, exact: Option<bool>, service: string, port: nat)

  datatype IngressRule = IngressRule(host: string, paths: seq<IngressPath>)

  // ---------- the translation ----------

  // A listener's hostname takes precedence over the route's.
  function Hostnames(listener: Option<string>, route: Route): seq<string>
  {
    if listener.Some? then [listener.value] else route.hostnames
  }

  // Anything but Exact becomes a prefix; no port becomes 0.
  function PathFor(m: Match, b: Backend): IngressPath
  {
    IngressPath(
      if m.path.Some? && m.path.value.value.Some? then m.path.value.value.value else "",
      if m.path.Some? && m.path.value.kind.Some? then Some(m.path.value.kind.value.Exact?) else None,
      b.name,
      if b.port.Some? then b.port.value else 0)
  }

  function MatchPaths(m: Match, bs: seq<Backend>): (r: seq<IngressPath>)
    ensures |r| == |bs| && forall i :: 0 <= i < |bs| ==> r[i] == PathFor(m, bs[i])
  {
    seq(|bs|, i requires 0 <= i < |bs| => PathFor(m, bs[i]))
  }

  // Every match with every backend, matches outermost.
  function Paths(ms: seq<Match>, bs: seq<Backend>): (r: seq<IngressPath>)
  {
    if ms == [] then [] else Paths(ms[..|ms| - 1], bs) + MatchPaths(ms[|ms| - 1], bs)
  }

  function HostRules(hosts: seq<string>, paths: seq<IngressPath>): (r: seq<IngressRule>)
    ensures |r| == |hosts| && forall i :: 0 <= i < |hosts| ==> r[i] == IngressRule(hosts[i], paths)
  {
    seq(|hosts|, i requires 0 <= i < |hosts| => IngressRule(hosts[i], paths))
  }

  function Translate(hosts: seq<string>, rules: seq<Rule>): (r: seq<IngressRule>)
  {
    if rules == [] then []
    else
      var last := rules[|rules| - 1];
      Translate(hosts, rules[..|rules| - 1]) + HostRules(hosts, Paths(last.matches, last.backends))
  }

  // ---------- where each rule and path goes ----------

  predicate RuleAt(r: seq<IngressRule>, a: nat, b: nat, n: nat, x: IngressRule)
  {
    a * n + b < |r| && r[a * n + b] == x
  }

  predicate PathAt(r: seq<IngressPath>, a: nat, b: nat, n: nat, x: IngressPath)
  {
    a * n + b < |r| && r[a * n + b] == x
  }

  lemma OneMore(a: nat, n: nat)
    ensures (a + 1) * n == a * n + n
  {
  }

  lemma {:induction false} RuleCount(hosts: seq<string>, rules: seq<Rule>)
    ensures |Translate(hosts, rules)| == |rules| * |hosts|
  {
    if rules != [] {
      RuleCount(hosts, rules[..|rules| - 1]);
      OneMore(|rules| - 1, |hosts|);
    }
  }

  lemma {:induction false} PathCount(ms: seq<Match>, bs: seq<Backend>)
    ensures |Paths(ms, bs)| == |ms| * |bs|
  {
    if ms != [] {
      PathCount(ms[..|ms| - 1], bs);
      OneMore(|ms| - 1, |bs|);
    }
  }

  // One Ingress rule per route rule and host, rules outermost.
  lemma {:induction false} RuleIsAt(hosts: seq<string>, rules: seq<Rule>, a: nat, h: nat)
    requires a < |rules| && h < |hosts|
    ensures RuleAt(Translate(hosts, rules), a, h, |hosts|, IngressRule(hosts[h], Paths(rules[a].matches, rules[a].backends)))
    decreases |rules|
  {
    hide Paths;
    var n := |rules| - 1;
    RuleCount(hosts, rules[..n]);
    if a < n { RuleIsAt(hosts, rules[..n], a, h); }
  }

  // One path per match and backend, matches outermost: the match's value or
  // nothing, exact if it says so, a prefix for any other type, and the backend's
  // name and port, 0 if it has none.
  lemma {:induction false} PathIsAt(ms: seq<Match>, bs: seq<Backend>, a: nat, b: nat) returns (p: IngressPath)
    requires a < |ms| && b < |bs|
    ensures PathAt(Paths(ms, bs), a, b, |bs|, p)
    ensures p.service == bs[b].name && p.port == match bs[b].port { case Some(n) => n case None => 0 }
    ensures match ms[a].path
      case None => p.path == "" && p.exact == None
      case Some(m) =>
        && p.path == (match m.value { case Some(v) => v case None => "" })
        && p.exact == match m.kind { case Some(k) => Some(k == Exact) case None => None }
    decreases |ms|
  {
    var n := |ms| - 1;
    PathCount(ms[..n], bs);
    if a < n { p := PathIsAt(ms[..n], bs, a, b); } else { p := PathFor(ms[a], bs[b]); }
  }

  // ---------- what each side routes ----------

  // What a regular expression covers is left to the gateway.
  datatype Semantics = Semantics(regex: (string, string) -> bool)

  predicate IsWild(p: string)
  {
    "*." <= p
  }

  predicate EndsWith(h: string, s: string)
  {
    |s| <= |h| && h[|h| - |s|..] == s
  }

  // Gateway API: a name, or "*." and a suffix that one or more labels precede.
  predicate RouteReads(p: string, h: string)
  {
    if IsWild(p) then |h| > |p| - 1 && EndsWith(h, p[1..]) else h == p
  }

  // networking/v1 Ingress: a name, or "*." and a suffix that exactly one label
  // precedes.
  predicate IngressReads(p: string, h: string)
  {
    if IsWild(p) then RouteReads(p, h) && '.' !in h[..|h| - (|p| - 1)] else h == p
  }

  // Both: a path prefix covers by whole elements, a trailing slash ignored.
  function Trimmed(v: string): string
  {
    if v != "" && v[|v| - 1] == '/' then v[..|v| - 1] else v
  }

  predicate Covers(v: string, p: string)
  {
    p == Trimmed(v) || Trimmed(v) + "/" <= p
  }

  // The path of a request starts with a slash.
  datatype Request = Request(host: string, path: string)
  {
    predicate Valid()
    {
      "/" <= path
    }
  }

  datatype Target = Target(service: string, port: nat)

  function TargetOf(b: Backend): Target
  {
    Target(b.name, if b.port.Some? then b.port.value else 0)
  }

  // A match without a path, or without value or type, means the prefix "/".
  predicate Accepts(sem: Semantics, m: Match, q: Request)
  {
    var value := if m.path.Some? && m.path.value.value.Some? then m.path.value.value.value else "/";
    var kind := if m.path.Some? && m.path.value.kind.Some? then m.path.value.kind.value else PathPrefix;
    match kind
    case Exact => q.path == value
    case PathPrefix => Covers(value, q.path)
    case RegularExpression => sem.regex(value, q.path)
  }

  // A rule without matches accepts every path below "/".
  ghost predicate RuleAccepts(sem: Semantics, r: Rule, q: Request)
  {
    if r.matches == [] then Covers("/", q.path)
    else exists i :: 0 <= i < |r.matches| && Accepts(sem, r.matches[i], q)
  }

  // Some listed host is read as the request's.
  ghost predicate RouteLists(hosts: seq<string>, h: string)
  {
    exists i :: 0 <= i < |hosts| && RouteReads(hosts[i], h)
  }

  ghost predicate IngressLists(hosts: seq<string>, h: string)
  {
    exists i :: 0 <= i < |hosts| && IngressReads(hosts[i], h)
  }

  ghost predicate Listed(bs: seq<Backend>, t: Target)
  {
    exists j :: 0 <= j < |bs| && TargetOf(bs[j]) == t
  }

  // A route answers a host its listener answers and, if it names any, one it
  // names; a listener without a hostname answers every host.
  ghost predicate RouteAnswers(listener: Option<string>, hostnames: seq<string>, h: string)
  {
    && (listener.Some? ==> RouteReads(listener.value, h))
    && (hostnames == [] || RouteLists(hostnames, h))
  }

  ghost predicate RuleOffers(sem: Semantics, r: Rule, q: Request, t: Target)
  {
    RuleAccepts(sem, r, q) && Listed(r.backends, t)
  }

  ghost predicate RouteOffers(sem: Semantics, listener: Option<string>, route: Route, q: Request, t: Target)
  {
    && RouteAnswers(listener, route.hostnames, q.host)
    && exists i :: 0 <= i < |route.rules| && RuleOffers(sem, route.rules[i], q, t)
  }

  predicate PathOffers(sem: Semantics, p: IngressPath, q: Request, t: Target)
  {
    && p.service == t.service && p.port == t.port && p.exact.Some?
    && if p.exact.value then q.path == p.path else Covers(p.path, q.path)
  }

  ghost predicate PathsOffer(sem: Semantics, ps: seq<IngressPath>, q: Request, t: Target)
  {
    exists i :: 0 <= i < |ps| && PathOffers(sem, ps[i], q, t)
  }

  ghost predicate IngressOffers(sem: Semantics, rules: seq<IngressRule>, q: Request, t: Target)
  {
    exists i :: 0 <= i < |rules| && IngressReads(rules[i].host, q.host) && PathsOffer(sem, rules[i].paths, q, t)
  }

  // ---------- routing is preserved ----------

  // Path-only matches with an explicit value and a type Ingress can express.
  predicate Plain(m: Match)
  {
    && !m.other && m.path.Some? && m.path.value.value.Some?
    && m.path.value.kind.Some? && !m.path.value.kind.value.RegularExpression?
  }

  predicate PlainRules(rules: seq<Rule>)
  {
    forall i, j :: 0 <= i < |rules| && 0 <= j < |rules[i].matches| ==> Plain(rules[i].matches[j])
  }

  lemma ConcatOffers(sem: Semantics, a: seq<IngressPath>, b: seq<IngressPath>, q: Request, t: Target)
    ensures PathsOffer(sem, a + b, q, t) <==> PathsOffer(sem, a, q, t) || PathsOffer(sem, b, q, t)
  {
    hide PathOffers;
    forall i | 0 <= i < |a| ensures (a + b)[i] == a[i] {}
    forall i | 0 <= i < |b| ensures (a + b)[|a| + i] == b[i] {}
    if PathsOffer(sem, b, q, t) {
      var i :| 0 <= i < |b| && PathOffers(sem, b[i], q, t);
      assert PathOffers(sem, (a + b)[|a| + i], q, t);
    }
  }

  lemma MatchOffers(sem: Semantics, m: Match, bs: seq<Backend>, q: Request, t: Target)
    requires Plain(m)
    ensures PathsOffer(sem, MatchPaths(m, bs), q, t) <==> Accepts(sem, m, q) && Listed(bs, t)
  {
  }

  lemma {:induction false} RulePaths(sem: Semantics, ms: seq<Match>, bs: seq<Backend>, q: Request, t: Target)
    requires forall i :: 0 <= i < |ms| ==> Plain(ms[i])
    ensures PathsOffer(sem, Paths(ms, bs), q, t) <==> (exists i :: 0 <= i < |ms| && Accepts(sem, ms[i], q)) && Listed(bs, t)
  {
    hide Accepts, Listed, Plain, PathOffers;
    if ms != [] {
      var n := |ms| - 1;
      RulePaths(sem, ms[..n], bs, q, t);
      MatchOffers(sem, ms[n], bs, q, t);
      ConcatOffers(sem, Paths(ms[..n], bs), MatchPaths(ms[n], bs), q, t);
      assert forall i :: 0 <= i < n ==> ms[..n][i] == ms[i];
      assert (exists i :: 0 <= i < |ms| && Accepts(sem, ms[i], q)) <==>
             (exists i :: 0 <= i < n && Accepts(sem, ms[..n][i], q)) || Accepts(sem, ms[n], q);
    }
  }

  lemma ConcatRules(sem: Semantics, a: seq<IngressRule>, b: seq<IngressRule>, q: Request, t: Target)
    ensures IngressOffers(sem, a + b, q, t) <==> IngressOffers(sem, a, q, t) || IngressOffers(sem, b, q, t)
  {
    hide PathsOffer;
    assert forall i :: 0 <= i < |a| ==> (a + b)[i] == a[i];
    if IngressOffers(sem, b, q, t) {
      var i :| 0 <= i < |b| && IngressReads(b[i].host, q.host) && PathsOffer(sem, b[i].paths, q, t);
      assert (a + b)[|a| + i] == b[i];
    }
  }

  lemma HostsOffer(sem: Semantics, hosts: seq<string>, ps: seq<IngressPath>, q: Request, t: Target)
    ensures IngressOffers(sem, HostRules(hosts, ps), q, t) <==> IngressLists(hosts, q.host) && PathsOffer(sem, ps, q, t)
  {
  }

  // What the Ingress offers: the hosts it was given, and the rules that have a
  // match.
  ghost predicate MatchedOffer(sem: Semantics, rules: seq<Rule>, q: Request, t: Target)
  {
    exists i :: 0 <= i < |rules| && rules[i].matches != [] && RuleOffers(sem, rules[i], q, t)
  }

  lemma {:induction false} IngressOffersIff(sem: Semantics, hosts: seq<string>, rules: seq<Rule>, q: Request, t: Target)
    requires PlainRules(rules)
    ensures IngressOffers(sem, Translate(hosts, rules), q, t) <==> IngressLists(hosts, q.host) && MatchedOffer(sem, rules, q, t)
  {
    hide Paths, PathsOffer, IngressOffers, IngressLists, Accepts, Plain;
    if rules == [] {
      NothingOffered(sem, q, t);
    } else {
      var n := |rules| - 1;
      var last := rules[n];
      IngressOffersIff(sem, hosts, rules[..n], q, t);
      RulePaths(sem, last.matches, last.backends, q, t);
      HostsOffer(sem, hosts, Paths(last.matches, last.backends), q, t);
      ConcatRules(sem, Translate(hosts, rules[..n]), HostRules(hosts, Paths(last.matches, last.backends)), q, t);
      MoreRules(sem, rules, q, t);
    }
  }

  lemma NothingOffered(sem: Semantics, q: Request, t: Target)
    ensures !IngressOffers(sem, [], q, t)
  {
  }

  lemma MoreRules(sem: Semantics, rules: seq<Rule>, q: Request, t: Target)
    requires rules != []
    ensures var n := |rules| - 1;
      MatchedOffer(sem, rules, q, t) <==>
        MatchedOffer(sem, rules[..n], q, t) || (rules[n].matches != [] && RuleOffers(sem, rules[n], q, t))
  {
    hide RuleOffers;
    var n := |rules| - 1;
    assert forall i :: 0 <= i < n ==> rules[..n][i] == rules[i];
    if MatchedOffer(sem, rules[..n], q, t) {
      var i :| 0 <= i < n && rules[..n][i].matches != [] && RuleOffers(sem, rules[..n][i], q, t);
      assert RuleOffers(sem, rules[i], q, t);
    }
  }

  // ---------- which hosts each side answers ----------

  // Hosts are named (the Gateway API asks for one character or more).
  predicate Named(listener: Option<string>, hostnames: seq<string>)
  {
    (listener.Some? ==> listener.value != "") && forall i :: 0 <= i < |hostnames| ==> hostnames[i] != ""
  }

  // The Ingress answers exactly the hosts the route answers: no host it lists is
  // a wildcard, some host is listed, and a listener's host is one the route
  // covers.
  ghost predicate SameHosts(listener: Option<string>, hostnames: seq<string>)
  {
    if listener.Some? then !IsWild(listener.value) && (hostnames == [] || RouteLists(hostnames, listener.value))
    else hostnames != [] && forall i :: 0 <= i < |hostnames| ==> !IsWild(hostnames[i])
  }

  lemma SameHostsAnswer(listener: Option<string>, route: Route, h: string)
    requires SameHosts(listener, route.hostnames)
    ensures IngressLists(Hostnames(listener, route), h) <==> RouteAnswers(listener, route.hostnames, h)
  {
    if listener.Some? {
      assert [listener.value][0] == listener.value;
    } else {
      assert forall i :: 0 <= i < |route.hostnames| ==>
        (IngressReads(route.hostnames[i], h) <==> RouteReads(route.hostnames[i], h));
    }
  }

  function Longest(hosts: seq<string>): (n: nat)
    ensures forall i :: 0 <= i < |hosts| ==> |hosts[i]| <= n
  {
    if hosts == [] then 0
    else
      var n, last := Longest(hosts[..|hosts| - 1]), |hosts[|hosts| - 1]|;
      if last > n then last else n
  }

  // A label longer than every listed host, before a suffix; and a label more.
  function OneLabel(n: nat, s: string): (h: string)
    ensures |h| == n + |s| && EndsWith(h, s) && '.' !in h[..n] && h[n..] == s
  {
    var z := seq(n, _ => 'z');
    assert (z + s)[n..] == s && (z + s)[..n] == z;
    z + s
  }

  function TwoLabels(n: nat, s: string): (h: string)
    ensures |h| == n + 2 + |s| && h[1] == '.' && h[2..] == OneLabel(n, s)
  {
    "x." + OneLabel(n, s)
  }

  lemma LongerEnds(h: string, s: string)
    requires EndsWith(h, s) && |h| >= 2
    ensures EndsWith("x." + h, s)
  {
    var g := "x." + h;
    assert g[2..] == h && g[|g| - |s|..] == h[|h| - |s|..];
  }

  // No Ingress host reads two labels before the suffix when the second is longer
  // than all of them.
  lemma IngressSkips(hosts: seq<string>, n: nat, s: string)
    requires n > Longest(hosts)
    ensures !IngressLists(hosts, TwoLabels(n, s))
  {
    var h := TwoLabels(n, s);
    forall i | 0 <= i < |hosts| ensures !IngressReads(hosts[i], h) {
      var p := hosts[i];
      assert |p| < n < |h|;
      if IsWild(p) { assert h[..|h| - (|p| - 1)][1] == '.'; }
    }
  }

  lemma WildReads(p: string, n: nat)
    requires IsWild(p) && n > 0
    ensures RouteReads(p, OneLabel(n, p[1..])) && IngressReads(p, OneLabel(n, p[1..])) && RouteReads(p, TwoLabels(n, p[1..]))
  {
    LongerEnds(OneLabel(n, p[1..]), p[1..]);
    assert TwoLabels(n, p[1..]) == "x." + OneLabel(n, p[1..]);
  }

  // Without a listener's host, a wildcard the route names is narrowed: two
  // labels before its suffix reach the route and not the Ingress.
  lemma WildcardNarrows(hostnames: seq<string>, i: nat) returns (h: string)
    requires i < |hostnames| && IsWild(hostnames[i])
    ensures RouteAnswers(None, hostnames, h) && !IngressLists(hostnames, h)
  {
    var n := Longest(hostnames) + 1;
    h := TwoLabels(n, hostnames[i][1..]);
    WildReads(hostnames[i], n);
    IngressSkips(hostnames, n, hostnames[i][1..]);
  }

  // A listener's wildcard never comes out right: one label too few or one too
  // many.
  lemma WildListener(l: string, hostnames: seq<string>) returns (h: string)
    requires IsWild(l)
    ensures RouteAnswers(Some(l), hostnames, h) != IngressLists([l], h)
  {
    var n := Longest(hostnames + [l]) + 1;
    assert forall i :: 0 <= i < |hostnames| ==> (hostnames + [l])[i] == hostnames[i];
    assert (hostnames + [l])[|hostnames|] == l && [l][0] == l;
    WildReads(l, n);
    var one, two := OneLabel(n, l[1..]), TwoLabels(n, l[1..]);
    assert two == "x." + one;
    LongestOf(hostnames, l);
    IngressSkips([l], n, l[1..]);
    if hostnames != [] && !RouteLists(hostnames, one) {
      h := one;
    } else {
      if hostnames != [] {
        var i :| 0 <= i < |hostnames| && RouteReads(hostnames[i], one);
        LongerEnds(one, hostnames[i][1..]);
        assert RouteReads(hostnames[i], two);
      }
      h := two;
    }
  }

  lemma LongestOf(hostnames: seq<string>, l: string)
    ensures Longest([l]) <= Longest(hostnames + [l])
  {
    assert [l][..0] == [] && Longest([l]) == |l|;
    assert (hostnames + [l])[|hostnames|] == l;
  }

  // A route that does not cover its listener's host is offered on it.
  lemma ListenerHostWidens(l: string, hostnames: seq<string>)
    requires !IsWild(l) && hostnames != [] && !RouteLists(hostnames, l)
    ensures IngressLists([l], l) && !RouteAnswers(Some(l), hostnames, l)
  {
    assert [l][0] == l;
  }

  // So the condition is exact.
  lemma HostsDiffer(listener: Option<string>, route: Route) returns (h: string)
    requires !SameHosts(listener, route.hostnames)
    ensures RouteAnswers(listener, route.hostnames, h) != IngressLists(Hostnames(listener, route), h)
  {
    if listener.Some? {
      if IsWild(listener.value) { h := WildListener(listener.value, route.hostnames); }
      else { h := listener.value; ListenerHostWidens(h, route.hostnames); }
    } else if route.hostnames == [] {
      h := "";
    } else {
      var i :| 0 <= i < |route.hostnames| && IsWild(route.hostnames[i]);
      h := WildcardNarrows(route.hostnames, i);
    }
  }

  // ---------- a route no host reaches ----------

  // Some host is read by both.
  predicate Overlap(l: string, p: string)
  {
    if !IsWild(l) then RouteReads(p, l)
    else if !IsWild(p) then RouteReads(l, p)
    else EndsWith(l[1..], p[1..]) || EndsWith(p[1..], l[1..])
  }

  // The listener answers no host the route names.
  predicate Silent(listener: Option<string>, hostnames: seq<string>)
  {
    listener.Some? && hostnames != [] && forall i :: 0 <= i < |hostnames| ==> !Overlap(listener.value, hostnames[i])
  }

  lemma EndsChain(h: string, s: string, t: string)
    requires EndsWith(h, s) && EndsWith(h, t) && |t| <= |s|
    ensures EndsWith(s, t)
  {
    assert s == h[|h| - |s|..];
    assert s[|s| - |t|..] == h[|h| - |t|..];
  }

  lemma EndsThrough(h: string, s: string, t: string)
    requires EndsWith(h, s) && EndsWith(s, t)
    ensures EndsWith(h, t)
  {
    assert h[|h| - |t|..] == s[|s| - |t|..];
  }

  lemma SharedOverlaps(l: string, p: string, h: string)
    requires RouteReads(l, h) && RouteReads(p, h)
    ensures Overlap(l, p)
  {
    if IsWild(l) && IsWild(p) {
      if |p| <= |l| { EndsChain(h, l[1..], p[1..]); } else { EndsChain(h, p[1..], l[1..]); }
    }
  }

  lemma OverlapShares(l: string, p: string) returns (h: string)
    requires Overlap(l, p)
    ensures RouteReads(l, h) && RouteReads(p, h)
  {
    if !IsWild(l) { h := l; }
    else if !IsWild(p) { h := p; }
    else if EndsWith(l[1..], p[1..]) {
      h := OneLabel(1, l[1..]);
      EndsThrough(h, l[1..], p[1..]);
    } else {
      h := OneLabel(1, p[1..]);
      EndsThrough(h, p[1..], l[1..]);
    }
  }

  lemma SilentIff(listener: Option<string>, hostnames: seq<string>)
    ensures Silent(listener, hostnames) <==> forall h :: !RouteAnswers(listener, hostnames, h)
  {
    if Silent(listener, hostnames) {
      forall h ensures !RouteAnswers(listener, hostnames, h) {
        if RouteAnswers(listener, hostnames, h) {
          var i :| 0 <= i < |hostnames| && RouteReads(hostnames[i], h);
          SharedOverlaps(listener.value, hostnames[i], h);
        }
      }
    } else {
      var h := Reached(listener, hostnames);
    }
  }

  lemma Reached(listener: Option<string>, hostnames: seq<string>) returns (h: string)
    requires !Silent(listener, hostnames)
    ensures RouteAnswers(listener, hostnames, h)
  {
    if listener.Some? && hostnames != [] {
      var i :| 0 <= i < |hostnames| && Overlap(listener.value, hostnames[i]);
      h := OverlapShares(listener.value, hostnames[i]);
    } else if listener.Some? || hostnames != [] {
      var p := if listener.Some? then listener.value else hostnames[0];
      h := if IsWild(p) then OneLabel(1, p[1..]) else p;
      if IsWild(p) { WildReads(p, 1); }
      assert RouteReads(p, h);
    } else {
      h := "";
    }
  }

  // ---------- which rules each side has ----------

  // A prefix match that covers every request.
  predicate Rooted(m: Match)
  {
    m.path.Some? && m.path.value.value.Some? && Trimmed(m.path.value.value.value) == "" && m.path.value.kind == Some(PathPrefix)
  }

  ghost predicate AlsoRooted(rules: seq<Rule>, t: Target)
  {
    exists i, j :: 0 <= i < |rules| && Listed(rules[i].backends, t) && 0 <= j < |rules[i].matches| && Rooted(rules[i].matches[j])
  }

  // Every backend of a rule without matches is also sent every request by a rule
  // with matches.
  ghost predicate MatchlessCovered(rules: seq<Rule>)
  {
    forall i, t :: 0 <= i < |rules| && rules[i].matches == [] && Listed(rules[i].backends, t) ==> AlsoRooted(rules, t)
  }

  predicate NoBackends(rules: seq<Rule>)
  {
    forall i :: 0 <= i < |rules| ==> rules[i].backends == []
  }

  // No rule with matches has a backend, so the Ingress offers nothing.
  predicate NothingMatched(rules: seq<Rule>)
  {
    forall i :: 0 <= i < |rules| && rules[i].matches != [] ==> rules[i].backends == []
  }

  ghost predicate RulesOffer(sem: Semantics, rules: seq<Rule>, q: Request, t: Target)
  {
    exists i :: 0 <= i < |rules| && RuleOffers(sem, rules[i], q, t)
  }

  lemma RootCovers(p: string)
    requires "/" <= p
    ensures Covers("/", p)
  {
    assert Trimmed("/") == "";
  }

  lemma RootedAccepts(sem: Semantics, rules: seq<Rule>, q: Request, t: Target)
    requires AlsoRooted(rules, t) && q.Valid()
    ensures MatchedOffer(sem, rules, q, t)
  {
    var i, j :| 0 <= i < |rules| && Listed(rules[i].backends, t) && 0 <= j < |rules[i].matches| && Rooted(rules[i].matches[j]);
    assert Accepts(sem, rules[i].matches[j], q);
    assert RuleOffers(sem, rules[i], q, t);
  }

  lemma CoveredOffers(sem: Semantics, rules: seq<Rule>, q: Request, t: Target)
    requires MatchlessCovered(rules) && q.Valid()
    ensures RulesOffer(sem, rules, q, t) <==> MatchedOffer(sem, rules, q, t)
  {
    hide AlsoRooted, RuleAccepts;
    if RulesOffer(sem, rules, q, t) {
      var i :| 0 <= i < |rules| && RuleOffers(sem, rules[i], q, t);
      if rules[i].matches == [] { RootedAccepts(sem, rules, q, t); }
    }
  }

  function ValueLength(m: Match): nat
  {
    if m.path.Some? && m.path.value.value.Some? then |m.path.value.value.value| else 0
  }

  // Longer than every path value of the rules.
  function PastAll(rules: seq<Rule>): (n: nat)
    ensures forall i, j :: 0 <= i < |rules| && 0 <= j < |rules[i].matches| ==> ValueLength(rules[i].matches[j]) < n
  {
    if rules == [] then 0
    else
      var k := |rules| - 1;
      assert forall i :: 0 <= i < k ==> rules[..k][i] == rules[i];
      var a, b := PastAll(rules[..k]), PastMatches(rules[k].matches);
      if a > b then a else b
  }

  function PastMatches(ms: seq<Match>): (n: nat)
    ensures forall j :: 0 <= j < |ms| ==> ValueLength(ms[j]) < n
  {
    if ms == [] then 0
    else
      var k := |ms| - 1;
      assert forall j :: 0 <= j < k ==> ms[..k][j] == ms[j];
      var a, b := PastMatches(ms[..k]), ValueLength(ms[k]) + 1;
      if a > b then a else b
  }

  // One path element longer than every value.
  function LongPath(rules: seq<Rule>): (p: string)
    ensures |p| == PastAll(rules) + 1 && p[0] == '/' && forall i :: 0 < i < |p| ==> p[i] != '/'
  {
    "/" + seq(PastAll(rules), _ => 'x')
  }

  lemma OnlyRootedCover(v: string, p: string)
    requires Covers(v, p) && |v| < |p| && forall i :: 0 < i < |p| ==> p[i] != '/'
    ensures Trimmed(v) == ""
  {
    var w := Trimmed(v);
    assert w + "/" <= p ==> p[|w|] == (w + "/")[|w|] == '/';
  }

  lemma RootOnly(sem: Semantics, rules: seq<Rule>, q: Request, t: Target)
    requires PlainRules(rules) && q.path == LongPath(rules) && MatchedOffer(sem, rules, q, t)
    ensures AlsoRooted(rules, t)
  {
    hide PastAll, Listed, Covers, Trimmed;
    var i :| 0 <= i < |rules| && rules[i].matches != [] && RuleOffers(sem, rules[i], q, t);
    var j :| 0 <= j < |rules[i].matches| && Accepts(sem, rules[i].matches[j], q);
    var m := rules[i].matches[j];
    assert Plain(m) && ValueLength(m) < |q.path|;
    OnlyRootedCover(m.path.value.value.value, q.path);
    assert Rooted(m);
  }

  // A rule without matches takes every request, and its Ingress none: on a host
  // the route answers its backend is lost unless a rule with matches sends every
  // request there too.
  lemma MatchlessRuleIsLost(sem: Semantics, listener: Option<string>, route: Route, i: nat, t: Target, host: string) returns (q: Request)
    requires PlainRules(route.rules) && i < |route.rules| && route.rules[i].matches == []
    requires Listed(route.rules[i].backends, t) && !AlsoRooted(route.rules, t) && RouteAnswers(listener, route.hostnames, host)
    ensures q.Valid() && RouteOffers(sem, listener, route, q, t)
    ensures !IngressOffers(sem, Translate(Hostnames(listener, route), route.rules), q, t)
  {
    hide RouteAnswers, AlsoRooted, Listed, PlainRules, Translate, IngressOffers;
    q := Request(host, LongPath(route.rules));
    RootCovers(q.path);
    assert RuleOffers(sem, route.rules[i], q, t);
    if MatchedOffer(sem, route.rules, q, t) { RootOnly(sem, route.rules, q, t); }
    IngressOffersIff(sem, Hostnames(listener, route), route.rules, q, t);
  }

  // ---------- exactly when routing is preserved ----------

  ghost predicate SameAt(sem: Semantics, listener: Option<string>, route: Route, q: Request, t: Target)
  {
    IngressOffers(sem, Translate(Hostnames(listener, route), route.rules), q, t) <==> RouteOffers(sem, listener, route, q, t)
  }

  ghost predicate Preserved(listener: Option<string>, route: Route)
  {
    || NoBackends(route.rules)
    || (SameHosts(listener, route.hostnames) && MatchlessCovered(route.rules))
    || (Silent(listener, route.hostnames) && NothingMatched(route.rules))
  }

  lemma PreservedWhen(sem: Semantics, listener: Option<string>, route: Route, q: Request, t: Target)
    requires PlainRules(route.rules) && q.Valid() && Preserved(listener, route)
    ensures SameAt(sem, listener, route, q, t)
  {
    hide Accepts, PlainRules, Translate, IngressOffers, SameHosts, IngressLists, RouteAnswers, MatchlessCovered, RuleAccepts, Silent;
    var rules := route.rules;
    IngressOffersIff(sem, Hostnames(listener, route), rules, q, t);
    assert RouteOffers(sem, listener, route, q, t) <==> RouteAnswers(listener, route.hostnames, q.host) && RulesOffer(sem, rules, q, t);
    if SameHosts(listener, route.hostnames) && MatchlessCovered(rules) {
      SameHostsAnswer(listener, route, q.host);
      CoveredOffers(sem, rules, q, t);
    } else if Silent(listener, route.hostnames) {
      SilentIff(listener, route.hostnames);
    }
  }

  // Values of path matches start with a slash, as both APIs ask.
  predicate Rootward(rules: seq<Rule>)
  {
    forall i, j :: 0 <= i < |rules| && 0 <= j < |rules[i].matches| && rules[i].matches[j].path.Some? && rules[i].matches[j].path.value.value.Some? ==>
      "/" <= rules[i].matches[j].path.value.value.value
  }

  // A path the rule accepts.
  function OwnPath(r: Rule): string
  {
    if r.matches == [] || !Plain(r.matches[0]) then "/"
    else
      var v := r.matches[0].path.value.value.value;
      if r.matches[0].path.value.kind.value.Exact? then v else Trimmed(v) + "/"
  }

  lemma AcceptsOwnPath(sem: Semantics, rules: seq<Rule>, i: nat, host: string)
    requires PlainRules(rules) && Rootward(rules) && i < |rules|
    ensures Request(host, OwnPath(rules[i])).Valid() && RuleAccepts(sem, rules[i], Request(host, OwnPath(rules[i])))
  {
    var r, q := rules[i], Request(host, OwnPath(rules[i]));
    if r.matches == [] {
      RootCovers("/");
    } else {
      var m := r.matches[0];
      assert Plain(m) && "/" <= m.path.value.value.value;
      assert Accepts(sem, m, q);
    }
  }

  lemma FirstBackend(r: Rule) returns (t: Target)
    requires r.backends != []
    ensures Listed(r.backends, t)
  {
    t := TargetOf(r.backends[0]);
  }

  // A rule with a backend, where only one side answers the host.
  lemma HostTells(sem: Semantics, listener: Option<string>, route: Route, i: nat, host: string) returns (q: Request, t: Target)
    requires PlainRules(route.rules) && Rootward(route.rules) && i < |route.rules| && route.rules[i].backends != []
    requires RouteAnswers(listener, route.hostnames, host) != IngressLists(Hostnames(listener, route), host)
    requires IngressLists(Hostnames(listener, route), host) ==> route.rules[i].matches != []
    ensures q.Valid() && q.host == host && !SameAt(sem, listener, route, q, t)
  {
    hide RouteAnswers, IngressLists, PlainRules, Rootward, Translate, IngressOffers, RuleAccepts, OwnPath, Listed;
    t := FirstBackend(route.rules[i]);
    q := Request(host, OwnPath(route.rules[i]));
    AcceptsOwnPath(sem, route.rules, i, host);
    assert RuleOffers(sem, route.rules[i], q, t);
    IngressOffersIff(sem, Hostnames(listener, route), route.rules, q, t);
  }

  // A route that names no host, on a listener that names none, answers every
  // host; its Ingress has no rule.
  lemma HostlessRouteIsLost(sem: Semantics, route: Route, i: nat, host: string) returns (q: Request, t: Target)
    requires PlainRules(route.rules) && Rootward(route.rules) && i < |route.rules| && route.rules[i].backends != [] && route.hostnames == []
    ensures Translate(Hostnames(None, route), route.rules) == [] && q.Valid() && q.host == host && !SameAt(sem, None, route, q, t)
  {
    NoHostsNoRules(route.rules);
    q, t := HostTells(sem, None, route, i, host);
  }

  lemma {:induction false} NoHostsNoRules(rules: seq<Rule>)
    ensures Translate([], rules) == []
  {
    if rules != [] { NoHostsNoRules(rules[..|rules| - 1]); }
  }

  // Routing is preserved, for every request, if and only if the route has no
  // backend, or both sides answer the same hosts and no rule without matches
  // loses a backend, or no host reaches the route and the Ingress has no backend.
  lemma RoutingIsPreservedIff(sem: Semantics, listener: Option<string>, route: Route)
    requires PlainRules(route.rules) && Rootward(route.rules) && Named(listener, route.hostnames)
    ensures (forall q: Request, t :: q.Valid() ==> SameAt(sem, listener, route, q, t)) <==> Preserved(listener, route)
  {
    hide SameAt, Preserved, PlainRules, Rootward;
    if Preserved(listener, route) {
      forall q: Request, t | q.Valid() ensures SameAt(sem, listener, route, q, t) { PreservedWhen(sem, listener, route, q, t); }
    } else {
      var q, t := NotPreserved(sem, listener, route);
    }
  }

  lemma NotPreserved(sem: Semantics, listener: Option<string>, route: Route) returns (q: Request, t: Target)
    requires PlainRules(route.rules) && Rootward(route.rules) && !Preserved(listener, route)
    ensures q.Valid() && !SameAt(sem, listener, route, q, t)
  {
    hide RouteOffers, IngressOffers, Translate, PlainRules, Rootward, AlsoRooted, Listed, SameHosts, RouteAnswers, IngressLists, Silent, SameAt;
    var rules := route.rules;
    if SameHosts(listener, route.hostnames) {
      var i, x :| 0 <= i < |rules| && rules[i].matches == [] && Listed(rules[i].backends, x) && !AlsoRooted(rules, x);
      SameHostsReached(listener, route.hostnames);
      var h := Reached(listener, route.hostnames);
      q := MatchlessRuleIsLost(sem, listener, route, i, x, h);
      t := x;
      Unlike(sem, listener, route, q, t);
    } else if !NothingMatched(rules) {
      var i :| 0 <= i < |rules| && rules[i].matches != [] && rules[i].backends != [];
      var h := HostsDiffer(listener, route);
      q, t := HostTells(sem, listener, route, i, h);
    } else {
      var i :| 0 <= i < |rules| && rules[i].backends != [];
      var h := Reached(listener, route.hostnames);
      q, t := OnlyRouteOffers(sem, listener, route, i, h);
    }
  }

  lemma Unlike(sem: Semantics, listener: Option<string>, route: Route, q: Request, t: Target)
    requires RouteOffers(sem, listener, route, q, t) && !IngressOffers(sem, Translate(Hostnames(listener, route), route.rules), q, t)
    ensures !SameAt(sem, listener, route, q, t)
  {
  }

  lemma SameHostsReached(listener: Option<string>, hostnames: seq<string>)
    requires SameHosts(listener, hostnames)
    ensures !Silent(listener, hostnames)
  {
    if listener.Some? && hostnames != [] {
      var i :| 0 <= i < |hostnames| && RouteReads(hostnames[i], listener.value);
      assert Overlap(listener.value, hostnames[i]);
    }
  }

  // When no rule with matches has a backend the Ingress offers nothing.
  lemma OnlyRouteOffers(sem: Semantics, listener: Option<string>, route: Route, i: nat, host: string) returns (q: Request, t: Target)
    requires PlainRules(route.rules) && Rootward(route.rules) && NothingMatched(route.rules) && i < |route.rules| && route.rules[i].backends != []
    requires RouteAnswers(listener, route.hostnames, host)
    ensures q.Valid() && !SameAt(sem, listener, route, q, t)
  {
    hide RouteAnswers, IngressLists, PlainRules, Rootward, Translate, IngressOffers, RuleAccepts, OwnPath;
    t := FirstBackend(route.rules[i]);
    q := Request(host, OwnPath(route.rules[i]));
    AcceptsOwnPath(sem, route.rules, i, host);
    assert RuleOffers(sem, route.rules[i], q, t);
    IngressOffersIff(sem, Hostnames(listener, route), route.rules, q, t);
    assert !MatchedOffer(sem, route.rules, q, t);
  }

  // ---------- at concrete hosts ----------

  // A wildcard route without listener host: a.b.example.com reaches the route
  // only.
  lemma WildcardExample()
    ensures var hosts := ["*.example.com"];
      RouteAnswers(None, hosts, "a.b.example.com") && !IngressLists(hosts, "a.b.example.com") && !SameHosts(None, hosts)
  {
    var p, h := "*.example.com", "a.b.example.com";
    assert h[|h| - 12..] == p[1..] == ".example.com";
    assert RouteReads([p][0], h);
    assert h[..3] == "a.b" && h[..3][1] == '.';
  }

  // A listener's name that a wildcard of the route covers is preserved.
  lemma CoveredListenerExample()
    ensures SameHosts(Some("www.example.com"), ["*.example.com"])
  {
    var p, h := "*.example.com", "www.example.com";
    assert h[0] == 'w';
    assert h[|h| - 12..] == p[1..] == ".example.com";
    assert RouteReads([p][0], h);
  }

  // ---------- the loops ----------

  method CreatePaths(r: Rule) returns (paths: seq<IngressPath>)
    ensures paths == Paths(r.matches, r.backends)
  {
    paths := [];
    for n := 0 to |r.matches|
      invariant paths == Paths(r.matches[..n], r.backends)
    {
      assert r.matches[..n + 1][..n] == r.matches[..n];
      var m := r.matches[n];
      ghost var before := paths;
      for j := 0 to |r.backends|
        invariant paths == before + MatchPaths(m, r.backends)[..j]
      {
        paths := paths + [PathFor(m, r.backends[j])];
      }
    }
    assert r.matches[..|r.matches|] == r.matches;
  }

  method CreateIngress(listener: Option<string>, route: Route) returns (rules: seq<IngressRule>)
    ensures rules == Translate(Hostnames(listener, route), route.rules)
  {
    var hosts := if listener.Some? then [listener.value] else route.hostnames;
    rules := [];
    for n := 0 to |route.rules|
      invariant rules == Translate(hosts, route.rules[..n])
    {
      assert route.rules[..n + 1][..n] == route.rules[..n];
      var paths := CreatePaths(route.rules[n]);
      ghost var before := rules;
      for j := 0 to |hosts|
        invariant rules == before + HostRules(hosts, paths)[..j]
      {
        rules := rules + [IngressRule(hosts[j], paths)];
      }
    }
    assert route.rules[..|route.rules|] == route.rules;
  }
}
