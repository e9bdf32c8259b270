// Has the endpoint list changed? The loops of checkUpdateEndpoints and what
// their answer means (pkg/agent/manager/loadbalancer/loadbalancer.go:1531-1611).

module EndpointChanges {
  import opened Basics
  import opened Rules

  // The check asks for equal lengths and that every new element is an old one.
  predicate Covers<T(==)>(wanted: seq<T>, cached: seq<T>)
  {
    |wanted| == |cached| && forall i :: 0 <= i < |wanted| ==> wanted[i] in cached
  }

  function Addresses(eps: seq<Endpoint>): (r: seq<string>)
    ensures |r| == |eps| && forall i :: 0 <= i < |eps| ==> r[i] == eps[i].ip
  {
    seq(|eps|, i requires 0 <= i < |eps| => eps[i].ip)
  }

  datatype Socket = Socket(ip: string, port: Port16)

  function Sockets(eps: seq<Endpoint>): (r: seq<Socket>)
    ensures |r| == |eps| && forall i :: 0 <= i < |eps| ==> r[i] == Socket(eps[i].ip, eps[i].port)
  {
    seq(|eps|, i requires 0 <= i < |eps| => Socket(eps[i].ip, eps[i].port))
  }

  // ---------- pigeonhole ----------

  lemma {:induction false} DistinctCounts<T>(s: seq<T>, x: T)
    requires Distinct(s)
    ensures multiset(s)[x] == if x in s then 1 else 0
  {
    if s != [] {
      var n := |s| - 1;
      assert s == s[..n] + [s[n]];
      DistinctCounts(s[..n], x);
      assert x in s <==> x in s[..n] || x == s[n];
      assert s[n] !in s[..n];
    }
  }

  lemma SameSize<T>(a: multiset<T>, b: multiset<T>)
    requires a <= b && |a| == |b|
    ensures a == b
  {
    assert b == a + (b - a);
    assert |b - a| == 0;
    assert b - a == multiset{};
  }

  // Distinct elements cover a list of the same length only by permuting it.
  lemma CoversIsPermutation<T>(s: seq<T>, cached: seq<T>)
    requires Distinct(s)
    ensures Covers(s, cached) <==> multiset(s) == multiset(cached)
  {
    if Covers(s, cached) {
      forall x ensures multiset(s)[x] <= multiset(cached)[x] {
        DistinctCounts(s, x);
        assert x in s ==> x in multiset(cached);
      }
      SameSize(multiset(s), multiset(cached));
    }
    if multiset(s) == multiset(cached) {
      assert |multiset(s)| == |s| && |multiset(cached)| == |cached|;
      forall i | 0 <= i < |s| ensures s[i] in cached {
        assert s[i] in multiset(s);
      }
    }
  }

  // A repeated element can stand in for one that is gone.
  lemma RepeatHidesChange<T>(s: seq<T>, i: nat, j: nat, other: T) returns (cached: seq<T>)
    requires i < j < |s| && s[i] == s[j] && other !in s
    ensures Covers(s, cached) && multiset(s) != multiset(cached) && cached == s[j := other]
  {
    cached := s[j := other];
    forall x | 0 <= x < |s| ensures s[x] in cached {
      if x == j { assert cached[i] == s[x]; } else { assert cached[x] == s[x]; }
    }
    assert cached[j] == other && other in multiset(cached);
    assert other !in multiset(s);
  }

  // ---------- the two modes ----------

  lemma DiffersIsCover(input: Inputs, eps: seq<Endpoint>)
    ensures Differs(input, eps) == !(
      if input.target.ByPorts()
      then Covers(Sockets(Product(input.endpoints, input.target.ports)), Sockets(eps))
      else Covers(input.endpoints, Addresses(eps)))
  {
  }

  // Endpoint a * |ports| + b of the product is address a on port b.
  lemma {:induction false} ProductAt(ips: seq<string>, ports: seq<nat>, a: nat, b: nat)
    requires a < |ips| && b < |ports|
    ensures 0 <= a * |ports| + b < |ips| * |ports|
    ensures Product(ips, ports)[a * |ports| + b] == Endpoint(ips[a], ports[b] % 0x1_0000, 1)
  {
    var n, m := |ips| - 1, |ports|;
    Steps(a + 1, |ips|, m);
    Next(a, m);
    Next(n, m);
    var before, last := Product(ips[..n], ports), OnPorts(ips[n], ports);
    assert Product(ips, ports) == before + last && |before| == n * m;
    if a < n {
      ProductAt(ips[..n], ports, a, b);
    }
  }

  lemma Next(a: nat, n: nat)
    ensures (a + 1) * n == a * n + n
  {
  }

  lemma Steps(a: nat, b: nat, n: nat)
    requires a <= b
    ensures a * n <= b * n
  {
  }

  predicate DistinctPorts(ports: seq<nat>)
  {
    forall i, j :: 0 <= i < j < |ports| ==> ports[i] % 0x1_0000 != ports[j] % 0x1_0000
  }

  lemma Quotient(i: nat, n: nat, m: nat) returns (a: nat, b: nat)
    requires i < n * m
    ensures a < n && b < m && i == a * m + b
  {
    a, b := i / m, i % m;
    if a >= n { Steps(n, a, m); }
  }

  lemma ProductIsDistinct(ips: seq<string>, ports: seq<nat>)
    requires Distinct(ips) && DistinctPorts(ports)
    ensures Distinct(Sockets(Product(ips, ports)))
  {
    var eps := Product(ips, ports);
    forall i, j | 0 <= i < j < |eps| ensures Sockets(eps)[i] != Sockets(eps)[j] {
      var a, b := Quotient(i, |ips|, |ports|);
      var c, d := Quotient(j, |ips|, |ports|);
      ProductAt(ips, ports, a, b);
      ProductAt(ips, ports, c, d);
    }
  }

  // What the check should find: the cached endpoints are the new ones in some
  // order. Without slices only addresses are compared.
  ghost predicate Permutes(input: Inputs, eps: seq<Endpoint>)
  {
    if input.target.ByPorts()
    then multiset(Sockets(eps)) == multiset(Sockets(Product(input.endpoints, input.target.ports)))
    else multiset(Addresses(eps)) == multiset(input.endpoints)
  }

  // With nothing repeated the check is exact, for every cached entry.
  lemma CheckIsExact(e: Entry, input: Inputs)
    requires Distinct(input.endpoints) && !input.target.Unreadable()
    requires input.target.ByPorts() ==> DistinctPorts(input.target.ports)
    ensures !EndpointsChanged(e, input) <==>
      forall k, j :: k in e.pairs && 0 <= j < |e.pairs[k].models| ==> Permutes(input, e.pairs[k].models[j].endpoints)
  {
    forall k, j | k in e.pairs && 0 <= j < |e.pairs[k].models|
      ensures Differs(input, e.pairs[k].models[j].endpoints) == !Permutes(input, e.pairs[k].models[j].endpoints)
    {
      DifferIsPermute(input, e.pairs[k].models[j].endpoints);
    }
  }

  lemma DifferIsPermute(input: Inputs, eps: seq<Endpoint>)
    requires Distinct(input.endpoints)
    requires input.target.ByPorts() ==> DistinctPorts(input.target.ports)
    ensures Differs(input, eps) == !Permutes(input, eps)
  {
    DiffersIsCover(input, eps);
    if input.target.ByPorts() {
      var want := Product(input.endpoints, input.target.ports);
      ProductIsDistinct(input.endpoints, input.target.ports);
      CoversIsPermutation(Sockets(want), Sockets(eps));
    } else {
      CoversIsPermutation(input.endpoints, Addresses(eps));
    }
  }

  lemma ProductMembers(ips: seq<string>, ports: seq<nat>, s: Socket)
    ensures s in Sockets(Product(ips, ports)) <==> s.ip in ips && exists b :: 0 <= b < |ports| && ports[b] % 0x1_0000 == s.port
  {
    var eps := Product(ips, ports);
    if s in Sockets(eps) {
      var i: nat :| i < |eps| && Sockets(eps)[i] == s;
      var a, b := Quotient(i, |ips|, |ports|);
      ProductAt(ips, ports, a, b);
    }
    if s.ip in ips && exists b :: 0 <= b < |ports| && ports[b] % 0x1_0000 == s.port {
      var a: nat :| a < |ips| && ips[a] == s.ip;
      var b: nat :| b < |ports| && ports[b] % 0x1_0000 == s.port;
      ProductAt(ips, ports, a, b);
      assert Sockets(eps)[a * |ports| + b] == s;
    }
  }

  // Whether the check would be content with a model built for port p: always,
  // unless models are built from pod ports and checked against slice ports.
  predicate SelfConsistent(t: Target, p: SvcPort)
  {
    && !t.Unreadable()
    && (t.PodAndSlices? ==> p in t.resolved && |t.ports| == 1 && t.ports[0] % 0x1_0000 == t.resolved[p] % 0x1_0000)
  }

  // The same lists, in any order.
  ghost predicate SameInputs(a: Inputs, b: Inputs)
  {
    && a.settings == b.settings && a.inst == b.inst && a.pool == b.pool
    && multiset(a.endpoints) == multiset(b.endpoints)
    && (a.target == b.target
        || (a.target.SlicePorts? && b.target.SlicePorts? && multiset(a.target.ports) == multiset(b.target.ports)))
  }

  lemma SameMembers<T>(a: seq<T>, b: seq<T>)
    requires multiset(a) == multiset(b)
    ensures |a| == |b| && forall x :: x in a <==> x in b
  {
    assert |multiset(a)| == |a| && |multiset(b)| == |b|;
    forall x ensures x in a <==> x in b {
      assert x in a <==> x in multiset(a);
      assert x in b <==> x in multiset(b);
    }
  }

  lemma SingleTarget(ips: seq<string>, ports: seq<nat>)
    requires |ports| == 1
    ensures Addresses(Product(ips, ports)) == ips
  {
  }

  lemma SameSockets(ips: seq<string>, ports: seq<nat>, ips': seq<string>, ports': seq<nat>)
    requires multiset(ips) == multiset(ips') && multiset(ports) == multiset(ports')
    ensures Covers(Sockets(Product(ips, ports)), Sockets(Product(ips', ports')))
  {
    SameMembers(ips, ips');
    SameMembers(ports, ports');
    var a, b := Product(ips, ports), Product(ips', ports');
    forall i | 0 <= i < |a| ensures Sockets(a)[i] in Sockets(b) {
      var s := Sockets(a)[i];
      ProductMembers(ips, ports, s);
      var x :| 0 <= x < |ports| && ports[x] % 0x1_0000 == s.port;
      assert ports[x] in ports';
      ProductMembers(ips', ports', s);
    }
  }

  // Pod ports against slice ports.
  lemma MixedSockets(ips: seq<string>, ips': seq<string>, ports: seq<nat>, port: nat)
    requires multiset(ips) == multiset(ips') && ips != []
    ensures Covers(Sockets(Product(ips, ports)), Sockets(Product(ips', [port]))) <==>
      |ports| == 1 && ports[0] % 0x1_0000 == port % 0x1_0000
  {
    SameMembers(ips, ips');
    var a, b := Product(ips, ports), Product(ips', [port]);
    assert |b| == |ips| && |a| == |ips| * |ports|;
    if |a| == |b| {
      assert |ports| == 1 by {
        if |ports| >= 2 { Steps(2, |ports|, |ips|); }
      }
      if ports[0] % 0x1_0000 == port % 0x1_0000 {
        forall i | 0 <= i < |a| ensures Sockets(a)[i] in Sockets(b) {
          var s := Sockets(a)[i];
          ProductMembers(ips, ports, s);
          assert [port][0] % 0x1_0000 == s.port;
          ProductMembers(ips', [port], s);
        }
      } else {
        var s := Socket(ips[0], ports[0] % 0x1_0000);
        ProductAt(ips, ports, 0, 0);
        assert Sockets(a)[0] == s;
        ProductMembers(ips', [port], s);
      }
    }
  }

  // A model built from the same lists, in any order, never looks changed:
  // exactly when what it is checked against is what it was built from.
  lemma BuiltDiffersIff(e: Entry, input: Inputs, again: Inputs, sp: SvcPair)
    requires SameInputs(input, again) && input.endpoints != [] && !input.target.Unreadable()
    requires TargetPorts(input.target, sp.port) != []
    ensures Differs(again, MakeModel(e, input, sp).endpoints) == !SelfConsistent(input.target, sp.port)
  {
    var ports := TargetPorts(input.target, sp.port);
    var eps := Product(input.endpoints, ports);
    DiffersIsCover(again, eps);
    SameMembers(again.endpoints, input.endpoints);
    match input.target
    case SlicePorts(_) => SameSockets(again.endpoints, again.target.ports, input.endpoints, ports);
    case PodAndSlices(r, _) => MixedSockets(again.endpoints, input.endpoints, again.target.ports, r[sp.port]);
    case _ => SingleTarget(input.endpoints, ports);
  }

  // ---------- exactly when the check can be trusted ----------

  function Longest(s: seq<string>): (n: nat)
    ensures forall i :: 0 <= i < |s| ==> |s[i]| <= n
  {
    if s == [] then 0
    else
      var n := Longest(s[..|s| - 1]);
      var last := |s[|s| - 1]|;
      if last > n then last else n
  }

  // Endpoints at given sockets, or at given addresses.
  function AtSockets(ss: seq<Socket>): (eps: seq<Endpoint>)
    ensures |eps| == |ss| && Sockets(eps) == ss
  {
    seq(|ss|, i requires 0 <= i < |ss| => Endpoint(ss[i].ip, ss[i].port, 1))
  }

  function OnNodePort(ips: seq<string>, port: Port16): (eps: seq<Endpoint>)
    ensures |eps| == |ips| && Addresses(eps) == ips
  {
    seq(|ips|, i requires 0 <= i < |ips| => Endpoint(ips[i], port, 1))
  }

  // What the check compares has no repeat.
  ghost predicate NoRepeat(input: Inputs)
  {
    if input.target.ByPorts() then Distinct(Sockets(Product(input.endpoints, input.target.ports)))
    else Distinct(input.endpoints)
  }

  lemma RepeatedAddressShows(ips: seq<string>, ports: seq<nat>)
    requires ports != [] && !Distinct(ips)
    ensures !Distinct(Sockets(Product(ips, ports)))
  {
    hide Product;
    var i, j :| 0 <= i < |ips| && 0 <= j < |ips| && ips[i] == ips[j] && i != j;
    ProductAt(ips, ports, i, 0);
    ProductAt(ips, ports, j, 0);
    Apart(i, j, |ports|);
    var s := Sockets(Product(ips, ports));
    assert s[i * |ports| + 0] == s[j * |ports| + 0];
  }

  lemma RepeatedPortShows(ips: seq<string>, ports: seq<nat>)
    requires ips != [] && !DistinctPorts(ports)
    ensures !Distinct(Sockets(Product(ips, ports)))
  {
    hide Product;
    var i, j :| 0 <= i < j < |ports| && ports[i] % 0x1_0000 == ports[j] % 0x1_0000;
    ProductAt(ips, ports, 0, i);
    ProductAt(ips, ports, 0, j);
    var s := Sockets(Product(ips, ports));
    assert s[0 * |ports| + i] == s[0 * |ports| + j];
  }

  // In slice mode: no address repeats and no port does, cut to 16 bits.
  lemma NoRepeatIff(input: Inputs)
    ensures NoRepeat(input) <==>
      if input.target.ByPorts()
      then input.endpoints == [] || input.target.ports == [] || (Distinct(input.endpoints) && DistinctPorts(input.target.ports))
      else Distinct(input.endpoints)
  {
    hide Product, Distinct, DistinctPorts;
    if input.target.ByPorts() {
      var ips, ports := input.endpoints, input.target.ports;
      if ips == [] || ports == [] {
        EmptyIsDistinct(Sockets(Product(ips, ports)));
      } else if !Distinct(ips) {
        RepeatedAddressShows(ips, ports);
      } else if !DistinctPorts(ports) {
        RepeatedPortShows(ips, ports);
      } else {
        ProductIsDistinct(ips, ports);
      }
    }
  }

  lemma EmptyIsDistinct<T>(s: seq<T>)
    requires |s| == 0
    ensures Distinct(s)
  {
  }

  lemma Apart(i: nat, j: nat, n: nat)
    requires i != j && n > 0
    ensures i * n != j * n
  {
    if i < j { Steps(i + 1, j, n); Next(i, n); } else { Steps(j + 1, i, n); Next(j, n); }
  }

  // In either mode the check tells every changed list apart if and only if
  // nothing it compares is repeated in the new list.
  lemma ExactIffDistinct(input: Inputs)
    requires !input.target.Unreadable()
    ensures (forall eps :: Differs(input, eps) == !Permutes(input, eps)) <==> NoRepeat(input)
  {
    hide Differs, Product;
    if NoRepeat(input) {
      forall eps ensures Differs(input, eps) == !Permutes(input, eps) {
        DiffersIsCover(input, eps);
        if input.target.ByPorts() { CoversIsPermutation(Sockets(Product(input.endpoints, input.target.ports)), Sockets(eps)); }
        else { CoversIsPermutation(input.endpoints, Addresses(eps)); }
      }
    } else {
      var eps := MissedChange(input);
      assert !Differs(input, eps) && !Permutes(input, eps);
    }
  }

  // A change the check misses.
  lemma MissedChange(input: Inputs) returns (eps: seq<Endpoint>)
    requires !NoRepeat(input)
    ensures !Differs(input, eps) && !Permutes(input, eps)
  {
    hide Differs, Product;
    if input.target.ByPorts() {
      var want := Product(input.endpoints, input.target.ports);
      var other := Socket(Unlisted(Addresses(want)), 0);
      assert other !in Sockets(want) by {
        forall i | 0 <= i < |want| ensures Sockets(want)[i] != other { assert Addresses(want)[i] == Sockets(want)[i].ip; }
      }
      var cached := HiddenChange(Sockets(want), other);
      eps := AtSockets(cached);
    } else {
      var cached := HiddenChange(input.endpoints, Unlisted(input.endpoints));
      eps := OnNodePort(cached, 0);
    }
    DiffersIsCover(input, eps);
  }

  function Unlisted(ips: seq<string>): (other: string)
    ensures other !in ips
  {
    seq(Longest(ips) + 1, _ => '0')
  }

  lemma HiddenChange<T>(s: seq<T>, other: T) returns (cached: seq<T>)
    requires !Distinct(s) && other !in s
    ensures Covers(s, cached) && multiset(s) != multiset(cached)
  {
    var i, j :| 0 <= i < |s| && 0 <= j < |s| && s[i] == s[j] && i != j;
    if i < j { cached := RepeatHidesChange(s, i, j, other); } else { cached := RepeatHidesChange(s, j, i, other); }
  }

  // ---------- the loops ----------

  method WantedEndpoints(ips: seq<string>, ports: seq<nat>) returns (want: seq<Endpoint>)
    ensures want == Product(ips, ports)
  {
    want := [];
    for i := 0 to |ips|
      invariant want == Product(ips[..i], ports)
    {
      assert ips[..i + 1][..i] == ips[..i];
      for j := 0 to |ports|
        invariant want == Product(ips[..i], ports) + OnPorts(ips[i], ports)[..j]
      {
        want := want + [Endpoint(ips[i], ports[j] % 0x1_0000, 1)];
        assert OnPorts(ips[i], ports)[..j + 1] == OnPorts(ips[i], ports)[..j] + [Endpoint(ips[i], ports[j] % 0x1_0000, 1)];
      }
      assert OnPorts(ips[i], ports)[..|ports|] == OnPorts(ips[i], ports);
    }
    assert ips[..|ips|] == ips;
  }

  method FindEndpoint(eps: seq<Endpoint>, w: Endpoint) returns (found: bool)
    ensures found == HasEndpoint(eps, w)
  {
    found := false;
    for i := 0 to |eps|
      invariant !found && !HasEndpoint(eps[..i], w)
    {
      if eps[i].ip == w.ip && eps[i].port == w.port { return true; }
    }
    assert eps[..|eps|] == eps;
  }

  method FindAddress(eps: seq<Endpoint>, ip: string) returns (found: bool)
    ensures found == HasIP(eps, ip)
  {
    found := false;
    for i := 0 to |eps|
      invariant !found && !HasIP(eps[..i], ip)
    {
      if eps[i].ip == ip { return true; }
    }
    assert eps[..|eps|] == eps;
  }

  // One cached model against the list of endpoints on the slice ports.
  method SocketsDiffer(want: seq<Endpoint>, eps: seq<Endpoint>) returns (update: bool)
    ensures update == (|want| != |eps| || exists i :: 0 <= i < |want| && !HasEndpoint(eps, want[i]))
  {
    update := false;
    if |want| != |eps| { return true; }
    for i := 0 to |want|
      invariant update == exists x :: 0 <= x < i && !HasEndpoint(eps, want[x])
    {
      var found := FindEndpoint(eps, want[i]);
      if !found { update := true; }
    }
  }

  // One cached model against the list of addresses; counts the matches and
  // stops at the first address that has none.
  method AddressesDiffer(ips: seq<string>, eps: seq<Endpoint>) returns (update: bool)
    ensures update == (|ips| != |eps| || exists i :: 0 <= i < |ips| && !HasIP(eps, ips[i]))
  {
    if |ips| != |eps| { return true; }
    var nEps, i := 0, 0;
    while i < |ips|
      invariant nEps == i <= |ips| && forall x :: 0 <= x < i ==> HasIP(eps, ips[x])
    {
      var found := FindAddress(eps, ips[i]);
      if !found { break; }
      nEps, i := nEps + 1, i + 1;
    }
    update := nEps != |ips|;
  }

  method CheckUpdateEndpoints(e: Entry, input: Inputs) returns (update: bool)
    ensures update == EndpointsChanged(e, input)
  {
    if input.target.Unreadable() { return true; }
    update := false;
    var want := [];
    if input.target.ByPorts() { want := WantedEndpoints(input.endpoints, input.target.ports); }
    var todo := e.pairs.Keys;
    while todo != {}
      invariant todo <= e.pairs.Keys
      invariant update == exists k, j :: k in e.pairs && k !in todo && 0 <= j < |e.pairs[k].models| && Differs(input, e.pairs[k].models[j].endpoints)
      decreases todo
    {
      var k :| k in todo;
      var models := e.pairs[k].models;
      ghost var before := update;
      for j := 0 to |models|
        invariant update == (before || exists x :: 0 <= x < j && Differs(input, models[x].endpoints))
      {
        var differs: bool;
        if input.target.ByPorts() { differs := SocketsDiffer(want, models[j].endpoints); }
        else { differs := AddressesDiffer(input.endpoints, models[j].endpoints); }
        if differs { update := true; }
      }
      todo := todo - {k};
    }
  }
}
