// DiscoverLoxiLBServices as it works on the client objects: flag, create,
// append, compact the slice in place, hand the flagged clients to the purge
// channel (pkg/agent/manager/loadbalancer/loadbalancer.go:2118-2164). The
// goroutine that discovers is also the channel's only reader
// (cmd/loxilb-agent/agent.go:189-190, 282-288), so a send that finds it full
// never returns.

module Discovery {
  import opened Clients
  import opened RoleManager
  import M = Membership

  function Kept(ips: seq<string>): LoxiClient -> bool
  {
    (v: LoxiClient) => v.host in ips
  }

  function Gone(ips: seq<string>): LoxiClient -> bool
  {
    (v: LoxiClient) => v.host !in ips
  }

  // Filtering the objects and filtering their values agree.
  lemma {:induction false} FilterValues(objs: seq<LoxiClient>, vals: seq<Client>, ko: LoxiClient -> bool, kv: Client -> bool)
    requires |objs| == |vals|
    requires forall i :: 0 <= i < |objs| ==> objs[i].Value() == vals[i] && ko(objs[i]) == kv(vals[i])
    ensures var o, v := M.Filter(objs, ko), M.Filter(vals, kv);
      |o| == |v| && forall i :: 0 <= i < |o| ==> o[i].Value() == v[i]
    decreases |objs|
  {
    if objs != [] {
      var k := |objs| - 1;
      FilterValues(objs[..k], vals[..k], ko, kv);
    }
  }

  method Flag(objs: seq<LoxiClient>, ips: seq<string>)
    requires forall i, j :: 0 <= i < j < |objs| ==> objs[i] != objs[j]
    modifies (set v | v in objs)`purge
    ensures forall v :: v in objs ==> v.purge == (v.host !in ips)
  {
    for i := 0 to |objs|
      invariant forall k :: 0 <= k < i ==> objs[k].purge == (objs[k].host !in ips)
    {
      objs[i].purge := true;
      for j := 0 to |ips|
        invariant forall k :: 0 <= k < i ==> objs[k].purge == (objs[k].host !in ips)
        invariant objs[i].purge == (objs[i].host !in ips[..j])
      {
        if objs[i].host == ips[j] {
          objs[i].purge := false;
        }
      }
    }
  }

  // The client list at a send that blocks: the survivors met so far, then the
  // rest of the list as it was, the channel filled up with departed clients.
  ghost predicate Halted(was: seq<LoxiClient>, ips: seq<string>, room: nat, now: seq<LoxiClient>, purged: seq<LoxiClient>)
  {
    exists i :: 0 <= i < |was| && HaltedAt(was, ips, room, now, purged, i)
  }

  ghost predicate HaltedAt(was: seq<LoxiClient>, ips: seq<string>, room: nat, now: seq<LoxiClient>, purged: seq<LoxiClient>, i: nat)
    requires i < |was|
  {
    var kept := M.Filter(was[..i], Kept(ips));
    && was[i].host !in ips && |purged| == room && purged == M.Filter(was[..i], Gone(ips))
    && |kept| <= i && now == kept + was[|kept|..]
  }

  lemma FilterStep(s: seq<LoxiClient>, i: nat, keep: LoxiClient -> bool)
    requires i < |s|
    ensures M.Filter(s[..i + 1], keep) == M.Filter(s[..i], keep) + if keep(s[i]) then [s[i]] else []
    ensures |M.Filter(s[..i], keep)| <= |M.Filter(s[..i + 1], keep)| <= |M.Filter(s, keep)|
  {
    assert s[..i + 1][..i] == s[..i] && s[..i + 1] + s[i + 1..] == s;
    M.FilterConcat(s[..i + 1], s[i + 1..], keep);
  }

  // One more client is met: it is kept or gone.
  lemma Met(was: seq<LoxiClient>, ips: seq<string>, i: nat)
    requires i < |was|
    ensures var kept, gone := M.Filter(was[..i], Kept(ips)), M.Filter(was[..i], Gone(ips));
      var kept', gone' := M.Filter(was[..i + 1], Kept(ips)), M.Filter(was[..i + 1], Gone(ips));
      && (if was[i].host in ips then kept' == kept + [was[i]] && gone' == gone else kept' == kept && gone' == gone + [was[i]])
      && |gone'| <= |M.Filter(was, Gone(ips))|
  {
    FilterStep(was, i, Kept(ips));
    FilterStep(was, i, Gone(ips));
  }

  // One survivor moves down.
  lemma MovedDown(was: seq<LoxiClient>, kept: seq<LoxiClient>, v: LoxiClient, now: seq<LoxiClient>)
    requires |kept| < |was| && now == (kept + was[|kept|..])[|kept| := v]
    ensures now == (kept + [v]) + was[|kept| + 1..]
  {
  }

  lemma Halts(was: seq<LoxiClient>, ips: seq<string>, room: nat, now: seq<LoxiClient>, purged: seq<LoxiClient>, i: nat)
    requires i < |was| && HaltedAt(was, ips, room, now, purged, i)
    ensures Halted(was, ips, room, now, purged)
  {
  }

  // The in-place filter: writes never overtake reads. The channel has room for so
  // many more clients.
  method Compact(buf: array<LoxiClient>, ips: seq<string>, room: nat) returns (n: nat, purged: seq<LoxiClient>, blocked: bool)
    requires forall i :: 0 <= i < buf.Length ==> buf[i].purge == (buf[i].host !in ips)
    modifies buf
    ensures blocked <==> |M.Filter(old(buf[..]), Gone(ips))| > room
    ensures !blocked ==> n <= buf.Length && buf[..n] == M.Filter(old(buf[..]), Kept(ips))
    ensures !blocked ==> purged == M.Filter(old(buf[..]), Gone(ips))
    ensures blocked ==> Halted(old(buf[..]), ips, room, buf[..], purged)
  {
    hide M.Filter, Kept, Gone, Halted;
    ghost var was := buf[..];
    ghost var kept: seq<LoxiClient> := [];
    n, purged, blocked := 0, [], false;
    NoneYet(was, ips);
    for i := 0 to buf.Length
      invariant kept == M.Filter(was[..i], Kept(ips)) && n == |kept| <= i && buf[..] == kept + was[n..]
      invariant purged == M.Filter(was[..i], Gone(ips)) && |purged| <= room
    {
      Met(was, ips, i);
      var v := buf[i];
      assert v == was[i] by { assert buf[..][i] == was[i]; }
      if !v.purge {
        buf[n] := v;
        MovedDown(was, kept, v, buf[..]);
        kept, n := kept + [v], n + 1;
      } else if |purged| == room {
        Halts(was, ips, room, buf[..], purged, i);
        return n, purged, true;
      } else {
        purged := purged + [v];
      }
    }
    assert was[..buf.Length] == was && buf[..n] == kept;
  }

  lemma NoneYet(s: seq<LoxiClient>, ips: seq<string>)
    ensures M.Filter(s[..0], Kept(ips)) == [] == M.Filter(s[..0], Gone(ips))
  {
  }

  method Listed(x: string, xs: seq<string>) returns (b: bool)
    ensures b == (x in xs)
  {
    b := false;
    for i := 0 to |xs|
      invariant b == (x in xs[..i])
    {
      if xs[i] == x { b := true; }
    }
    assert xs[..|xs|] == xs;
  }

  method KnownHost(objs: seq<LoxiClient>, ip: string) returns (found: bool)
    ensures found == exists i :: 0 <= i < |objs| && objs[i].host == ip
  {
    found := false;
    for i := 0 to |objs|
      invariant found == exists k :: 0 <= k < i && objs[k].host == ip
    {
      if objs[i].host == ip { found := true; }
    }
  }

  // Clients for the addresses that are new.
  method Join(objs: seq<LoxiClient>, ghost cs: seq<Client>, ips: seq<string>, exclude: seq<string>, site: M.Site)
    returns (made: seq<LoxiClient>)
    requires |objs| == |cs| && forall i :: 0 <= i < |objs| ==> objs[i].Value() == cs[i]
    ensures forall i :: 0 <= i < |made| ==> fresh(made[i]) && !made[i].purge && made[i].host in ips
    ensures forall i, j :: 0 <= i < j < |made| ==> made[i] != made[j]
    ensures var spec := M.Joined(cs, ips, (set x | x in exclude), site);
      |made| == |spec| && forall i :: 0 <= i < |made| ==> made[i].Value() == spec[i]
  {
    made := [];
    for j := 0 to |ips|
      invariant forall i :: 0 <= i < |made| ==> fresh(made[i]) && !made[i].purge && made[i].host in ips
      invariant forall i, k :: 0 <= i < k < |made| ==> made[i] != made[k]
      invariant var spec := M.Joined(cs, ips[..j], (set x | x in exclude), site);
        |made| == |spec| && forall i :: 0 <= i < |made| ==> made[i].Value() == spec[i]
    {
      assert ips[..j + 1][..j] == ips[..j] && ips[..j + 1][j] == ips[j];
      var ip := ips[j];
      var noRole := Listed(ip, exclude);
      var found := KnownHost(objs, ip);
      assert found == (ip in M.Hosts(cs)) by {
        assert forall i :: 0 <= i < |cs| ==> M.Hosts(cs)[i] == objs[i].Value().host;
      }
      if !found && ip in site.creatable {
        var client := new LoxiClient(M.ServiceUrl(ip), ip, "", noRole, site.zone, site.num);
        made := made + [client];
      }
    }
    assert ips[..|ips|] == ips;
  }

  // The manager's client list after a discovery. It completes if and only if the
  // channel has room for every departed client; then the values are those of the
  // specification, survivors are the very same objects in the same order, and
  // the channel receives each departed object once.
  method Discover(m: Manager, ips: seq<string>, exclude: seq<string>, site: M.Site, queued: nat)
    returns (made: seq<LoxiClient>, purged: seq<LoxiClient>, completed: bool)
    requires m.Valid() && queued <= M.PURGE_QUEUE
    modifies m`clients, (set v | v in m.clients)`purge
    ensures completed <==> M.Completes(old(m.View()), ips, queued)
    ensures completed ==> m.Valid()
    ensures completed ==> m.View() == M.Discover(old(m.View()), ips, (set x | x in exclude), site).clients
    ensures completed ==> m.clients == M.Filter(old(m.clients), Kept(ips)) + made
    ensures completed ==> purged == M.Filter(old(m.clients), Gone(ips))
    ensures !completed ==> Halted(old(m.clients) + made, ips, M.PURGE_QUEUE - queued, m.clients, purged)
    ensures forall v :: v in made ==> fresh(v)
  {
    hide M.Filter, M.Joined, Halted;
    ghost var cs, objs := m.View(), m.clients;
    Flag(m.clients, ips);
    made := Join(m.clients, cs, ips, exclude, site);
    var n, buf, blocked;
    buf, n, purged, blocked := Append(m.clients, made, ips, M.PURGE_QUEUE - queued);
    FilterValues(objs, cs, Gone(ips), M.Unlisted(ips));
    completed := !blocked;
    if blocked {
      m.clients := buf[..];
    } else {
      m.clients := buf[..n];
      FilterValues(objs, cs, Kept(ips), M.Listed(ips));
      FilterValid(objs, Kept(ips));
      ghost var kept := M.Filter(objs, Kept(ips));
      forall i | 0 <= i < |kept| ensures kept[i] !in made { assert kept[i] in kept && kept[i] in objs; }
      Renewed(kept, made, M.Filter(cs, M.Listed(ips)), M.Joined(cs, ips, (set x | x in exclude), site));
    }
  }

  // Survivors and newcomers: distinct objects with the values specified.
  lemma Renewed(kept: seq<LoxiClient>, made: seq<LoxiClient>, old_: seq<Client>, new_: seq<Client>)
    requires |kept| == |old_| && |made| == |new_|
    requires forall i :: 0 <= i < |kept| ==> kept[i].Value() == old_[i] && kept[i] !in made
    requires forall i :: 0 <= i < |made| ==> made[i].Value() == new_[i]
    requires forall i, j :: 0 <= i < j < |kept| ==> kept[i] != kept[j]
    requires forall i, j :: 0 <= i < j < |made| ==> made[i] != made[j]
    ensures var all, vals := kept + made, old_ + new_;
      && (forall i :: 0 <= i < |all| ==> all[i].Value() == vals[i])
      && forall i, j :: 0 <= i < j < |all| ==> all[i] != all[j]
  {
    assert forall i :: |kept| <= i < |kept + made| ==> (kept + made)[i] == made[i - |kept|];
  }

  // Appending the new clients and compacting keeps the survivors and them.
  method Append(objs: seq<LoxiClient>, made: seq<LoxiClient>, ips: seq<string>, room: nat)
    returns (buf: array<LoxiClient>, n: nat, purged: seq<LoxiClient>, blocked: bool)
    requires forall v :: v in objs ==> v.purge == (v.host !in ips)
    requires forall v :: v in made ==> !v.purge && v.host in ips
    ensures blocked <==> |M.Filter(objs, Gone(ips))| > room
    ensures !blocked ==> n <= buf.Length && buf[..n] == M.Filter(objs, Kept(ips)) + made
    ensures !blocked ==> purged == M.Filter(objs, Gone(ips))
    ensures blocked ==> Halted(objs + made, ips, room, buf[..], purged)
  {
    hide M.Filter, Halted;
    var all := objs + made;
    buf := new LoxiClient[|all|](i requires 0 <= i < |all| => all[i]);
    assert buf[..] == all;
    M.FilterConcat(objs, made, Kept(ips));
    M.FilterConcat(objs, made, Gone(ips));
    M.FilterAll(made, Kept(ips));
    FilterNone(made, ips);
    n, purged, blocked := Compact(buf, ips, room);
  }

  lemma {:induction false} FilterNone(objs: seq<LoxiClient>, ips: seq<string>)
    requires forall v :: v in objs ==> v.host in ips
    ensures M.Filter(objs, Gone(ips)) == []
  {
    if objs != [] {
      var k := |objs| - 1;
      assert objs == objs[..k] + [objs[k]] && forall v :: v in objs[..k] ==> v in objs;
      FilterNone(objs[..k], ips);
    }
  }

  lemma FilterValid(objs: seq<LoxiClient>, keep: LoxiClient -> bool)
    requires forall i, j :: 0 <= i < j < |objs| ==> objs[i] != objs[j]
    ensures var r := M.Filter(objs, keep); forall i, j :: 0 <= i < j < |r| ==> r[i] != r[j]
  {
  }
}
