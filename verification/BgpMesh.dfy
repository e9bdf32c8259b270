// The BGP neighbours the life-cycle loop configures, in in-cluster mode with no
// peer-only client and no external peer
// (pkg/agent/manager/loadbalancer/loadbalancer.go:2155-2164, 2400-2420,
// 2472-2541, cmd/loxilb-agent/agent.go:189-190, 282-288).

module BgpMesh {
  // speaker has been told to peer with peer.
  datatype Neigh = Neigh(speaker: string, peer: string)

  // Hosts of the client list, what each speaker is configured with, the members
  // whose alive event since they joined or last started was handled, and the
  // hosts that left and whose purge has yet to be handled.
  datatype Mesh = Mesh(members: seq<string>, neighs: set<Neigh>, settled: set<string>, pending: seq<string>)

  // Discovery changes the list and queues the purge; the life-cycle loop handles
  // it later, in no fixed order with alive events.
  datatype Event =
    | Joins(host: string)
    | Alive(host: string)
    | Crashes(host: string)
    | Leaves(host: string)
    | HandlesPurge(host: string)

  function Peers(host: string, members: seq<string>): (r: set<string>)
  {
    set m | m in members && m != host
  }

  function Hosts(s: seq<string>): set<string>
  {
    set m | m in s
  }

  // Each peer is configured on both sides.
  function Links(host: string, peers: set<string>): (r: set<Neigh>)
  {
    (set m | m in peers :: Neigh(host, m)) + (set m | m in peers :: Neigh(m, host))
  }

  function Without(members: seq<string>, host: string): (r: seq<string>)
    ensures forall m :: m in r <==> m in members && m != host
  {
    if members == [] then []
    else
      var n := |members| - 1;
      assert members == members[..n] + [members[n]];
      if members[n] == host then Without(members[..n], host) else Without(members[..n], host) + [members[n]]
  }

  // Purges are handled in the order in which they were queued.
  predicate Allowed(s: Mesh, e: Event)
  {
    match e
    case Leaves(h) => h in s.members
    case HandlesPurge(h) => s.pending != [] && s.pending[0] == h
    case _ => true
  }

  // A restarted speaker has lost its configuration; handling a purge makes every
  // other member of the list as it is then forget the host.
  function Next(s: Mesh, e: Event): Mesh
    requires Allowed(s, e)
  {
    match e
    case Joins(h) => if h in s.members then s else s.(members := s.members + [h])
    case Alive(h) =>
      s.(neighs := s.neighs + Links(h, Peers(h, s.members)), settled := if h in s.members then s.settled + {h} else s.settled)
    case Crashes(h) => s.(neighs := (set x | x in s.neighs && x.speaker != h), settled := s.settled - {h})
    case Leaves(h) => s.(members := Without(s.members, h), settled := s.settled - {h}, pending := s.pending + [h])
    case HandlesPurge(h) =>
      s.(neighs := (set x | x in s.neighs && !(x.peer == h && x.speaker in Peers(h, s.members))), pending := s.pending[1..])
  }

  ghost predicate IsRun(run: seq<Mesh>, events: seq<Event>)
  {
    && |run| == |events| + 1 && run[0] == Mesh([], {}, {}, [])
    && forall k :: 0 <= k < |events| ==> Allowed(run[k], events[k]) && run[k + 1] == Next(run[k], events[k])
  }

  // ---------- exactly which peerings exist ----------

  // How many events had happened once the host's last alive event was handled.
  function LastAlive(events: seq<Event>, k: nat, host: string): (n: nat)
    requires k <= |events|
    ensures n <= k && (n > 0 ==> events[n - 1] == Alive(host))
    ensures forall j :: n <= j < k ==> events[j] != Alive(host)
  {
    if k == 0 then 0 else if events[k - 1] == Alive(host) then k else LastAlive(events, k - 1, host)
  }

  function Later(a: nat, b: nat): nat
  {
    if a > b then a else b
  }

  predicate PurgedSince(events: seq<Event>, from: nat, k: nat, host: string)
    requires k <= |events|
  {
    exists j :: from <= j < k && events[j] == HandlesPurge(host)
  }

  ghost predicate Irreflexive(s: Mesh)
  {
    forall x :: x in s.neighs ==> x.speaker != x.peer
  }

  ghost predicate Symmetric(s: Mesh)
  {
    forall x :: x in s.neighs ==> Neigh(x.peer, x.speaker) in s.neighs
  }

  ghost predicate AmongMembers(s: Mesh)
  {
    forall x :: x in s.neighs ==> x.speaker in s.members && x.peer in s.members
  }

  lemma {:induction false} WellMeshed(run: seq<Mesh>, events: seq<Event>, k: nat)
    requires IsRun(run, events) && k < |run|
    ensures Irreflexive(run[k]) && forall a :: a in run[k].settled ==> a in run[k].members
  {
    if k > 0 {
      WellMeshed(run, events, k - 1);
      assert run[k] == Next(run[k - 1], events[k - 1]);
    }
  }

  // What one event does to a peering of settled members.
  lemma PeerStep(s: Mesh, e: Event, a: string, b: string)
    requires Allowed(s, e) && a != b && forall x :: x in s.settled ==> x in s.members
    requires a in Next(s, e).settled && b in Next(s, e).settled
    ensures if e == Alive(a) || e == Alive(b) then Neigh(a, b) in Next(s, e).neighs
            else && a in s.settled && b in s.settled
                 && (Neigh(a, b) in Next(s, e).neighs <==> Neigh(a, b) in s.neighs && e != HandlesPurge(b))
  {
  }

  // In every state of every run, a settled member peers with another if and only
  // if no purge of the other was handled since the later of their last handled
  // alive events.
  lemma {:induction false} SettledPeerIff(run: seq<Mesh>, events: seq<Event>, k: nat, a: string, b: string)
    requires IsRun(run, events) && k < |run| && a in run[k].settled && b in run[k].settled && a != b
    ensures Neigh(a, b) in run[k].neighs <==>
      !PurgedSince(events, Later(LastAlive(events, k, a), LastAlive(events, k, b)), k, b)
  {
    hide Next, Irreflexive;
    if k > 0 {
      var e := events[k - 1];
      WellMeshed(run, events, k - 1);
      PeerStep(run[k - 1], e, a, b);
      if e != Alive(a) && e != Alive(b) {
        SettledPeerIff(run, events, k - 1, a, b);
        PurgedStep(events, Later(LastAlive(events, k, a), LastAlive(events, k, b)), k, b);
      }
    }
  }

  lemma PurgedStep(events: seq<Event>, from: nat, k: nat, host: string)
    requires from < k <= |events|
    ensures PurgedSince(events, from, k, host) <==>
      PurgedSince(events, from, k - 1, host) || events[k - 1] == HandlesPurge(host)
  {
  }

  // Event j configures a with b: one of them came alive while the other was listed.
  predicate Configures(run: seq<Mesh>, events: seq<Event>, j: nat, a: string, b: string)
    requires j < |events| <= |run|
  {
    a != b && ((events[j] == Alive(a) && b in run[j].members) || (events[j] == Alive(b) && a in run[j].members))
  }

  // Event j undoes it: a restarts, or the purge of b is handled while a is listed.
  predicate Undoes(run: seq<Mesh>, events: seq<Event>, j: nat, a: string, b: string)
    requires j < |events| <= |run|
  {
    events[j] == Crashes(a) || (events[j] == HandlesPurge(b) && a in run[j].members)
  }

  predicate Stands(run: seq<Mesh>, events: seq<Event>, j: nat, k: nat, a: string, b: string)
    requires j < k <= |events| <= |run|
  {
    Configures(run, events, j, a, b) && forall x :: j < x < k ==> !Undoes(run, events, x, a, b)
  }

  lemma StandsOn(run: seq<Mesh>, events: seq<Event>, j: nat, k: nat, a: string, b: string)
    requires j < k < |events| <= |run|
    ensures Stands(run, events, j, k + 1, a, b) <==> Stands(run, events, j, k, a, b) && !Undoes(run, events, k, a, b)
  {
  }

  // Every peering there is, settled or not: a is configured with b if and only if
  // some event did it and none undid it since.
  lemma {:induction false} PeerIff(run: seq<Mesh>, events: seq<Event>, k: nat, a: string, b: string)
    requires IsRun(run, events) && k < |run|
    ensures Neigh(a, b) in run[k].neighs <==> exists j :: 0 <= j < k && Stands(run, events, j, k, a, b)
  {
    if k > 0 {
      hide Next, Stands;
      var n := k - 1;
      PeerIff(run, events, n, a, b);
      WellMeshed(run, events, n);
      PeerChange(run[n], events[n], a, b);
      StandsNow(run, events, n, a, b);
      forall j | 0 <= j < n ensures Stands(run, events, j, k, a, b) <==> Stands(run, events, j, n, a, b) && !Undoes(run, events, n, a, b) {
        StandsOn(run, events, j, n, a, b);
      }
    }
  }

  lemma StandsNow(run: seq<Mesh>, events: seq<Event>, n: nat, a: string, b: string)
    requires n < |events| <= |run|
    ensures Stands(run, events, n, n + 1, a, b) <==> Configures(run, events, n, a, b)
  {
  }

  lemma PeerChange(s: Mesh, e: Event, a: string, b: string)
    requires Allowed(s, e)
    ensures Neigh(a, b) in Next(s, e).neighs <==>
      || (a != b && ((e == Alive(a) && b in s.members) || (e == Alive(b) && a in s.members)))
      || (Neigh(a, b) in s.neighs && !(e == Crashes(a) || (e == HandlesPurge(b) && a != b && a in s.members)))
  {
  }

  // ---------- when the mesh is full ----------

  // A host that left and did not join again is not a member; only such a host
  // has a purge pending.
  lemma {:induction false} OnceLeft(run: seq<Mesh>, events: seq<Event>, k: nat, b: string)
    requires IsRun(run, events) && k < |run|
    requires forall i, j :: 0 <= i < j < |events| && events[i] == Leaves(b) ==> events[j] != Joins(b)
    ensures b in run[k].pending ==> exists i :: 0 <= i < k && events[i] == Leaves(b)
    ensures (exists i :: 0 <= i < k && events[i] == Leaves(b)) ==> b !in run[k].members
  {
    if k > 0 {
      OnceLeft(run, events, k - 1, b);
      assert run[k] == Next(run[k - 1], events[k - 1]);
    }
  }

  // So a member that never joined again after leaving is a peer of every settled
  // one, once it is settled itself.
  lemma StayersPeer(run: seq<Mesh>, events: seq<Event>, k: nat, a: string, b: string)
    requires IsRun(run, events) && k < |run| && a in run[k].settled && b in run[k].settled && a != b
    requires forall i, j :: 0 <= i < j < |events| && events[i] == Leaves(b) ==> events[j] != Joins(b)
    ensures Neigh(a, b) in run[k].neighs
  {
    WellMeshed(run, events, k);
    SettledPeerIff(run, events, k, a, b);
    OnceLeft(run, events, k, b);
    forall j | 0 <= j < k ensures events[j] != HandlesPurge(b) { OnceLeft(run, events, j, b); }
  }

  // With joins and alive events only, alive events of members, the relation is
  // symmetric in every state, and a full mesh of the members once all settled.
  lemma {:induction false} FullMesh(run: seq<Mesh>, events: seq<Event>, k: nat)
    requires IsRun(run, events) && k < |run|
    requires forall j :: 0 <= j < |events| ==> events[j].Joins? || (events[j].Alive? && events[j].host in run[j].members)
    ensures Symmetric(run[k]) && AmongMembers(run[k])
    ensures (forall m :: m in run[k].members ==> m in run[k].settled) ==>
      forall a, b :: Neigh(a, b) in run[k].neighs <==> a in run[k].members && b in run[k].members && a != b
  {
    if k > 0 {
      FullMesh(run, events, k - 1);
      SymmetricStep(run[k - 1], events[k - 1]);
    }
    WellMeshed(run, events, k);
    forall a, b | a in run[k].settled && b in run[k].settled && a != b ensures Neigh(a, b) in run[k].neighs {
      StayersPeer(run, events, k, a, b);
    }
  }

  lemma SymmetricStep(s: Mesh, e: Event)
    requires Symmetric(s) && AmongMembers(s) && (e.Joins? || (e.Alive? && e.host in s.members))
    ensures Symmetric(Next(s, e)) && AmongMembers(Next(s, e))
  {
  }

  // ---------- a purge handled too late ----------

  // A host leaves and comes back, its alive event is handled, then the purge
  // queued when it left.
  function LatePurge(a: string, h: string): seq<Event>
  {
    [Joins(a), Joins(h), Alive(a), Alive(h), Leaves(h), Joins(h), Alive(h), HandlesPurge(h)]
  }

  function Both(a: string, h: string): set<Neigh>
  {
    {Neigh(a, h), Neigh(h, a)}
  }

  lemma TwoMembers(a: string, h: string)
    requires a != h
    ensures Peers(a, [a, h]) == {h} && Peers(h, [a, h]) == {a} && Without([a, h], h) == [a]
    ensures Links(a, {h}) == Both(a, h) == Links(h, {a})
  {
    assert [a, h][..1] == [a] && [a][..0] == [];
    assert Without([a], h) == [a];
  }

  lemma BothAlive(a: string, h: string, s: Mesh) returns (one: Mesh, two: Mesh)
    requires a != h && s == Mesh([a, h], {}, {}, [])
    ensures one == Next(s, Alive(a)) && two == Next(one, Alive(h)) == Mesh([a, h], Both(a, h), {a, h}, [])
  {
    TwoMembers(a, h);
    hide Peers, Links, Without, Both;
    one := Next(s, Alive(a));
    two := Next(one, Alive(h));
    assert {} + Both(a, h) + Both(a, h) == Both(a, h) && {} + {a} + {h} == {a, h};
  }

  lemma Meeting(a: string, h: string) returns (run: seq<Mesh>)
    requires a != h
    ensures IsRun(run, LatePurge(a, h)[..4]) && run[4] == Mesh([a, h], Both(a, h), {a, h}, [])
  {
    hide Peers, Links, Without, Both;
    var empty := Mesh([], {}, {}, []);
    var first, s := Next(empty, Joins(a)), Next(Next(empty, Joins(a)), Joins(h));
    assert first == Mesh([a], {}, {}, []) && s == Mesh([a, h], {}, {}, []);
    var one, two := BothAlive(a, h, s);
    run := [empty, first, s, one, two];
  }

  lemma LeftAndBack(a: string, h: string, s: Mesh) returns (left: Mesh, back: Mesh)
    requires a != h && s == Mesh([a, h], Both(a, h), {a, h}, [])
    ensures left == Next(s, Leaves(h)) && back == Next(left, Joins(h))
    ensures back == Mesh([a, h], Both(a, h), {a}, [h])
  {
    TwoMembers(a, h);
    hide Peers, Links, Without, Both;
    left := Next(s, Leaves(h));
    back := Next(left, Joins(h));
  }

  lemma AliveThenPurged(a: string, h: string, back: Mesh) returns (alive: Mesh, purged: Mesh)
    requires a != h && back == Mesh([a, h], Both(a, h), {a}, [h])
    ensures alive == Next(back, Alive(h)) && Allowed(alive, HandlesPurge(h)) && purged == Next(alive, HandlesPurge(h))
    ensures purged == Mesh([a, h], {Neigh(h, a)}, {a, h}, [])
  {
    TwoMembers(a, h);
    hide Peers, Links, Without;
    alive := Next(back, Alive(h));
    assert alive == Mesh([a, h], Both(a, h), {a, h}, [h]);
    purged := Next(alive, HandlesPurge(h));
    assert purged.neighs == {Neigh(h, a)};
  }

  // Both are settled members and one of them has lost the other.
  lemma LatePurgeBreaksMesh(a: string, h: string) returns (run: seq<Mesh>)
    requires a != h
    ensures IsRun(run, LatePurge(a, h)) && a in run[8].settled && h in run[8].settled
    ensures Neigh(h, a) in run[8].neighs && Neigh(a, h) !in run[8].neighs && run[8].pending == []
  {
    hide Next, Both;
    var met := Meeting(a, h);
    var left, back := LeftAndBack(a, h, met[4]);
    var alive, purged := AliveThenPurged(a, h, back);
    run := met + [left, back, alive, purged];
    assert forall k :: 0 <= k < 4 ==> LatePurge(a, h)[..4][k] == LatePurge(a, h)[k];
  }

  // ---------- the loops ----------

  class Speakers {
    var members: seq<string>
    var neighs: set<Neigh>
    var pending: seq<string>
    ghost var settled: set<string>

    ghost function View(): Mesh
      reads this
    {
      Mesh(members, neighs, settled, pending)
    }

    method HandleAlive(host: string)
      modifies this
      ensures View() == Next(old(View()), Alive(host))
    {
      var peers := [];
      for n := 0 to |members|
        invariant members == old(members) && neighs == old(neighs) && settled == old(settled) && pending == old(pending)
        invariant forall m :: m in peers <==> m in members[..n] && m != host
      {
        assert members[..n + 1] == members[..n] + [members[n]];
        if members[n] != host { peers := peers + [members[n]]; }
      }
      assert members[..|members|] == members;
      for n := 0 to |peers|
        invariant members == old(members) && settled == old(settled) && pending == old(pending)
        invariant neighs == old(neighs) + Links(host, Hosts(peers[..n]))
      {
        assert peers[..n + 1] == peers[..n] + [peers[n]];
        assert Hosts(peers[..n + 1]) == Hosts(peers[..n]) + {peers[n]};
        neighs := neighs + {Neigh(host, peers[n])};
        neighs := neighs + {Neigh(peers[n], host)};
      }
      assert peers[..|peers|] == peers;
      assert Hosts(peers) == Peers(host, members);
      settled := if host in members then settled + {host} else settled;
    }

    // The members of now forget the host; the list itself is left alone.
    method HandlePurge()
      requires pending != []
      modifies this
      ensures View() == Next(old(View()), HandlesPurge(old(pending[0])))
    {
      var host := pending[0];
      pending := pending[1..];
      for n := 0 to |members|
        invariant members == old(members) && settled == old(settled) && pending == old(pending[1..])
        invariant neighs == set x | x in old(neighs) && !(x.peer == host && x.speaker in Peers(host, members[..n]))
      {
        assert members[..n + 1] == members[..n] + [members[n]];
        if members[n] != host { neighs := neighs - {Neigh(members[n], host)}; }
      }
      assert members[..|members|] == members;
    }
  }
}
