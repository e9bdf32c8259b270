// What arbitration promises: at most one master per instance under arbitrary
// health flips; completeness and stickiness of a quiet pass; a rebalance that
// spreads roles; convergence after two passes.

module ElectionProperties {
  import opened Names
  import opened Clients
  import opened Election

  // ---------- the safety invariant ----------

  ghost predicate AtMostOne(cs: seq<Client>, inst: string)
  {
    forall i, j :: 0 <= i < |cs| && 0 <= j < |cs| && IsMaster(cs[i], inst) && IsMaster(cs[j], inst) ==> i == j
  }

  ghost predicate RespectsNoRole(cs: seq<Client>)
  {
    forall i, inst :: 0 <= i < |cs| && IsMaster(cs[i], inst) ==> !cs[i].noRole
  }

  ghost predicate Safe(cs: seq<Client>)
  {
    RespectsNoRole(cs) && forall inst :: AtMostOne(cs, inst)
  }

  // Everything about a client but its liveness and its roles.
  ghost predicate SameMembers(cs: seq<Client>, ds: seq<Client>)
  {
    |cs| == |ds| &&
    forall i :: 0 <= i < |cs| ==>
      ds[i] == cs[i].(alive := ds[i].alive, roles := ds[i].roles) && ds[i].roles.Keys == cs[i].roles.Keys
  }

  ghost predicate SameRoles(cs: seq<Client>, ds: seq<Client>, inst: string)
  {
    |cs| == |ds| && forall i :: 0 <= i < |cs| ==> IsMaster(cs[i], inst) == IsMaster(ds[i], inst)
  }

  lemma TurnOfAt(start: nat, t: nat, n: nat)
    requires start < n && t < n
    ensures At(start, t, n) < n && Turn(start, At(start, t, n), n) == t
  {
  }

  lemma AtOfTurn(start: nat, i: nat, n: nat)
    requires start < n && i < n
    ensures Turn(start, i, n) < n && At(start, Turn(start, i, n), n) == i
  {
  }

  // Every index has its turn, so the scan finds an electable client if any.
  lemma ScanIsExhaustive(cs: seq<Client>, start: nat)
    requires start < |cs|
    ensures FirstTurn(cs, start, 0) < |cs| <==> exists i :: 0 <= i < |cs| && Electable(cs[i])
  {
    var t := FirstTurn(cs, start, 0);
    if t < |cs| {
      TurnOfAt(start, t, |cs|);
      assert Electable(cs[At(start, t, |cs|)]);
    } else {
      forall i | 0 <= i < |cs| ensures !Electable(cs[i]) {
        AtOfTurn(start, i, |cs|);
      }
    }
  }

  // Electing where there is no master makes exactly one, if that is possible.
  lemma ElectMasters(cs: seq<Client>, inst: string, hint: nat)
    requires forall i :: 0 <= i < |cs| ==> inst in cs[i].roles && !IsMaster(cs[i], inst)
    ensures var s := Elect(cs, inst, hint);
      && SameMembers(cs, s.clients) && Live(s.clients) == Live(cs)
      && (forall other :: other != inst ==> SameRoles(cs, s.clients, other))
      && s.selected == (exists i :: 0 <= i < |cs| && Electable(cs[i]))
    ensures var s := Elect(cs, inst, hint);
      if s.selected then
        0 <= s.hint < |cs| && Electable(cs[s.hint]) &&
        forall i :: 0 <= i < |cs| ==> (IsMaster(s.clients[i], inst) <==> i == s.hint)
      else
        s.hint == -1 && s.clients == cs
  {
    if cs != [] {
      var n, start := |cs|, Start(hint, |cs|);
      ScanIsExhaustive(cs, start);
      var t := FirstTurn(cs, start, 0);
      if t < n {
        TurnOfAt(start, t, n);
        forall i | 0 <= i < n ensures Turn(start, i, n) == t <==> i == At(start, t, n) {
          AtOfTurn(start, i, n);
        }
      }
    }
  }

  // What the demotion loop leaves behind.
  lemma DemotedMasters(cs: seq<Client>, inst: string, n: nat)
    requires n <= |cs|
    ensures SameMembers(cs, Demoted(cs, inst, n)) && Live(Demoted(cs, inst, n)) == Live(cs)
    ensures forall other :: other != inst ==> SameRoles(cs, Demoted(cs, inst, n), other)
    ensures forall i :: 0 <= i < |cs| ==>
      (IsMaster(Demoted(cs, inst, n)[i], inst) <==> IsMaster(cs[i], inst) && (i >= n || cs[i].alive))
  {
  }

  // One instance's turn, seen through who is master.
  lemma SelectMasters(cs: seq<Client>, r: Round, hint: nat)
    requires Fits(|cs|, r) && AtMostOne(cs, r.inst.name)
    ensures var s := SelectInst(cs, r, hint);
      && SameMembers(cs, s.clients)
      && (forall other :: other != r.inst.name ==> SameRoles(cs, s.clients, other))
    ensures var s := SelectInst(cs, r, hint);
      if s.selected then
        0 <= s.hint < |cs| && r.mid[s.hint] && !cs[s.hint].noRole &&
        forall i :: 0 <= i < |cs| ==> (IsMaster(s.clients[i], r.inst.name) <==> i == s.hint)
      else
        forall i :: 0 <= i < |cs| && IsMaster(s.clients[i], r.inst.name) ==> IsMaster(cs[i], r.inst.name)
  {
    hide Elect, FirstMissing;
    var inst := r.inst.name;
    var seen := WithLive(cs, r.before);
    var n := FirstMissing(seen, inst);
    DemotedMasters(seen, inst, n);
    var again := WithLive(Demoted(seen, inst, n), r.mid);
    if n == |cs| && (DeadMaster(seen, inst) || !LiveMaster(seen, inst)) {
      NoMasterLeft(cs, r);
      ElectMasters(again, inst, hint);
      forall other | other != inst ensures SameRoles(cs, Elect(again, inst, hint).clients, other) {
        assert SameRoles(again, Elect(again, inst, hint).clients, other);
        assert SameRoles(seen, Demoted(seen, inst, n), other);
      }
    }
  }

  // When an election is due, the demotion loop has left no master behind.
  lemma NoMasterLeft(cs: seq<Client>, r: Round)
    requires Fits(|cs|, r) && AtMostOne(cs, r.inst.name)
    requires FirstMissing(WithLive(cs, r.before), r.inst.name) == |cs|
    requires var seen := WithLive(cs, r.before); DeadMaster(seen, r.inst.name) || !LiveMaster(seen, r.inst.name)
    ensures var again := WithLive(Demoted(WithLive(cs, r.before), r.inst.name, |cs|), r.mid);
      forall i :: 0 <= i < |cs| ==> r.inst.name in again[i].roles && !IsMaster(again[i], r.inst.name)
  {
  }

  // Any liveness at any point of a turn keeps the invariant.
  lemma SelectKeepsSafe(cs: seq<Client>, r: Round, hint: nat)
    requires Fits(|cs|, r) && Safe(cs)
    ensures Safe(SelectInst(cs, r, hint).clients)
    ensures SameMembers(cs, SelectInst(cs, r, hint).clients)
  {
    var s, inst := SelectInst(cs, r, hint), r.inst.name;
    assert AtMostOne(cs, inst);
    SelectMasters(cs, r, hint);
    forall other ensures AtMostOne(s.clients, other) {
      assert AtMostOne(cs, other);
      assert other != inst ==> SameRoles(cs, s.clients, other);
    }
    forall i, other | 0 <= i < |cs| && IsMaster(s.clients[i], other) ensures !s.clients[i].noRole {
      if other != inst {
        assert SameRoles(cs, s.clients, other);
      }
    }
  }

  lemma {:induction false} RoundsKeepSafe(cs: seq<Client>, rounds: seq<Round>, carried: int)
    requires AllFit(|cs|, rounds) && carried >= -1 && Safe(cs)
    ensures Safe(RunRounds(cs, rounds, carried).clients)
    ensures SameMembers(cs, RunRounds(cs, rounds, carried).clients)
    decreases |rounds|
  {
    if rounds != [] {
      var hint := NextHint(carried, rounds[0].inst);
      var s := SelectInst(cs, rounds[0], hint);
      SelectKeepsSafe(cs, rounds[0], hint);
      RoundsKeepSafe(s.clients, rounds[1..], s.hint);
    }
  }

  lemma ClearedMasters(cs: seq<Client>)
    ensures SameMembers(cs, Cleared(cs)) && Live(Cleared(cs)) == Live(cs)
    ensures forall i, inst :: 0 <= i < |cs| ==> !IsMaster(Cleared(cs)[i], inst)
  {
  }

  lemma PassKeepsSafe(cs: seq<Client>, cfg: Config, rounds: seq<Round>)
    requires AllFit(|cs|, rounds) && Safe(cs)
    ensures Safe(Pass(cs, cfg, rounds).clients)
    ensures SameMembers(cs, Pass(cs, cfg, rounds).clients)
  {
    if cfg.setRoles {
      ClearedMasters(cs);
      RoundsKeepSafe(Rebalance(cs, cfg), rounds, 0);
    }
  }

  // ---------- passes over constant liveness ----------

  // Every client carries a role entry for exactly the zone's instances.
  ghost predicate RolesFor(cs: seq<Client>, zone: string, num: nat)
  {
    forall i :: 0 <= i < |cs| ==> cs[i].roles.Keys == InstNames(zone, num)
  }

  ghost predicate Quiet(r: Round, live: seq<bool>)
  {
    r.before == live && r.mid == live
  }

  // A pass that visits each instance of the zone exactly once, in any order,
  // while no client's liveness changes.
  ghost predicate Steady(cs: seq<Client>, rounds: seq<Round>, zone: string, num: nat)
  {
    && |rounds| == num
    && (forall j :: 0 <= j < |rounds| ==> Quiet(rounds[j], Live(cs)))
    && (forall j, k :: 0 <= j < |rounds| && 0 <= k < |rounds| && rounds[j].inst == rounds[k].inst ==> j == k)
    && (forall j :: 0 <= j < |rounds| ==> rounds[j].inst in ZoneInsts(zone, num))
    && (forall x :: x in ZoneInsts(zone, num) ==> exists j :: 0 <= j < |rounds| && rounds[j].inst == x)
  }

  ghost predicate SomeElectable(cs: seq<Client>)
  {
    exists i :: 0 <= i < |cs| && Electable(cs[i])
  }

  ghost predicate HasMaster(cs: seq<Client>, inst: string)
  {
    exists i :: 0 <= i < |cs| && IsMaster(cs[i], inst)
  }

  // One live master, or none because nobody can take the role.
  ghost predicate Settled(cs: seq<Client>, inst: string)
  {
    && AtMostOne(cs, inst)
    && (forall i :: 0 <= i < |cs| && IsMaster(cs[i], inst) ==> cs[i].alive)
    && (HasMaster(cs, inst) || !SomeElectable(cs))
  }

  // A quiet turn settles its instance, and does nothing to a settled one.
  lemma QuietSelect(cs: seq<Client>, r: Round, hint: nat)
    requires Quiet(r, Live(cs)) && AtMostOne(cs, r.inst.name)
    requires forall i :: 0 <= i < |cs| ==> r.inst.name in cs[i].roles
    ensures var s := SelectInst(cs, r, hint);
      && Live(s.clients) == Live(cs) && Settled(s.clients, r.inst.name)
      && (Settled(cs, r.inst.name) ==> s == Selection(cs, false, -1))
    ensures !HasMaster(cs, r.inst.name) ==> SelectInst(cs, r, hint) == Elect(cs, r.inst.name, hint)
  {
    hide Elect;
    var inst := r.inst.name;
    assert WithLive(cs, Live(cs)) == cs;
    var n := FirstMissing(cs, inst);
    assert n == |cs|;
    var demoted := Demoted(cs, inst, n);
    DemotedMasters(cs, inst, n);
    assert WithLive(demoted, Live(cs)) == demoted;
    if Settled(cs, inst) || !HasMaster(cs, inst) {
      assert demoted == cs;
    }
    if DeadMaster(cs, inst) || !LiveMaster(cs, inst) {
      forall i | 0 <= i < |cs| ensures !IsMaster(demoted[i], inst) {
        assert IsMaster(demoted[i], inst) == (IsMaster(cs[i], inst) && cs[i].alive);
      }
      ElectMasters(demoted, inst, hint);
      var s := Elect(demoted, inst, hint);
      if s.selected {
        assert IsMaster(s.clients[s.hint], inst) && s.clients[s.hint].alive == Live(s.clients)[s.hint];
        assert cs[s.hint].alive == Live(cs)[s.hint];
      }
    }
  }

  // The assumptions a quiet pass carries from one turn to the next.
  ghost predicate QuietRounds(cs: seq<Client>, rounds: seq<Round>)
  {
    && (forall j :: 0 <= j < |rounds| ==> Quiet(rounds[j], Live(cs)))
    && (forall j, k :: 0 <= j < |rounds| && 0 <= k < |rounds| && rounds[j].inst.name == rounds[k].inst.name ==> j == k)
    && (forall i, j :: 0 <= i < |cs| && 0 <= j < |rounds| ==> rounds[j].inst.name in cs[i].roles)
    && (forall j :: 0 <= j < |rounds| ==> AtMostOne(cs, rounds[j].inst.name))
  }

  ghost predicate Visits(rounds: seq<Round>, inst: string)
  {
    exists j :: 0 <= j < |rounds| && rounds[j].inst.name == inst
  }

  lemma QuietRoundsStep(cs: seq<Client>, rounds: seq<Round>, hint: nat)
    requires QuietRounds(cs, rounds) && rounds != []
    ensures Fits(|cs|, rounds[0])
    ensures var s := SelectInst(cs, rounds[0], hint);
      && SameMembers(cs, s.clients) && Live(s.clients) == Live(cs)
      && (forall other :: other != rounds[0].inst.name ==> SameRoles(cs, s.clients, other))
      && QuietRounds(s.clients, rounds[1..])
      && !Visits(rounds[1..], rounds[0].inst.name)
  {
    var inst := rounds[0].inst.name;
    QuietSelect(cs, rounds[0], hint);
    SelectMasters(cs, rounds[0], hint);
    var s := SelectInst(cs, rounds[0], hint);
    var rest := rounds[1..];
    assert forall j :: 0 <= j < |rest| ==> rest[j] == rounds[j + 1];
    forall j | 0 <= j < |rest| ensures AtMostOne(s.clients, rest[j].inst.name) {
      assert AtMostOne(cs, rounds[j + 1].inst.name);
      assert SameRoles(cs, s.clients, rest[j].inst.name);
    }
  }

  lemma SettledTransfers(cs: seq<Client>, ds: seq<Client>, inst: string)
    requires SameMembers(cs, ds) && Live(cs) == Live(ds) && SameRoles(cs, ds, inst)
    ensures Settled(cs, inst) == Settled(ds, inst)
  {
    assert forall i :: 0 <= i < |cs| ==> cs[i].alive == Live(cs)[i] && ds[i].alive == Live(ds)[i];
    assert HasMaster(cs, inst) == HasMaster(ds, inst);
    assert SomeElectable(cs) == SomeElectable(ds);
    assert AtMostOne(cs, inst) == AtMostOne(ds, inst);
  }

  // A quiet pass settles every instance it visits and leaves settled ones alone.
  lemma {:induction false} QuietRoundsSettle(cs: seq<Client>, rounds: seq<Round>, carried: int)
    requires QuietRounds(cs, rounds) && AllFit(|cs|, rounds) && carried >= -1
    ensures var ds := RunRounds(cs, rounds, carried).clients;
      && SameMembers(cs, ds) && Live(ds) == Live(cs)
      && (forall inst :: !Visits(rounds, inst) || Settled(cs, inst) ==> SameRoles(cs, ds, inst))
      && (forall inst :: Visits(rounds, inst) ==> Settled(ds, inst))
    decreases |rounds|
  {
    if rounds != [] {
      var first, rest := rounds[0].inst.name, rounds[1..];
      var hint := NextHint(carried, rounds[0].inst);
      var s := SelectInst(cs, rounds[0], hint);
      QuietSelect(cs, rounds[0], hint);
      QuietRoundsStep(cs, rounds, hint);
      QuietRoundsSettle(s.clients, rest, s.hint);
      var ds := RunRounds(s.clients, rest, s.hint).clients;
      SettledTransfers(s.clients, ds, first);
      forall inst ensures Visits(rounds, inst) <==> inst == first || Visits(rest, inst) {
        assert Visits(rest, inst) ==> forall j :: 0 <= j < |rest| ==> rest[j] == rounds[j + 1];
        if Visits(rounds, inst) && inst != first {
          var j :| 0 <= j < |rounds| && rounds[j].inst.name == inst;
          assert rest[j - 1].inst.name == inst;
        }
      }
      forall inst | !Visits(rounds, inst) || Settled(cs, inst) ensures SameRoles(cs, ds, inst) {
        if inst != first {
          assert SameRoles(cs, s.clients, inst);
          SettledTransfers(cs, s.clients, inst);
        }
        assert SameRoles(s.clients, ds, inst);
      }
    }
  }

  lemma SameState(cs: seq<Client>, ds: seq<Client>)
    requires SameMembers(cs, ds) && Live(cs) == Live(ds)
    requires forall inst :: SameRoles(cs, ds, inst)
    ensures cs == ds
  {
    forall i | 0 <= i < |cs| ensures cs[i] == ds[i] {
      assert cs[i].alive == Live(cs)[i] && ds[i].alive == Live(ds)[i];
      forall n | n in cs[i].roles ensures cs[i].roles[n] == ds[i].roles[n] {
        assert SameRoles(cs, ds, n);
      }
      assert cs[i].roles == ds[i].roles;
    }
  }

  lemma SteadyIsQuiet(cs: seq<Client>, rounds: seq<Round>, zone: string, num: nat)
    requires Steady(cs, rounds, zone, num) && RolesFor(cs, zone, num)
    requires forall inst :: AtMostOne(cs, inst)
    ensures QuietRounds(cs, rounds) && AllFit(|cs|, rounds)
    ensures forall n :: n in InstNames(zone, num) <==> Visits(rounds, n)
  {
    var insts := ZoneInsts(zone, num);
    forall j | 0 <= j < |rounds|
      ensures rounds[j].inst.name in InstNames(zone, num) && AtMostOne(cs, rounds[j].inst.name)
    {
      var i :| 0 <= i < num && insts[i] == rounds[j].inst;
    }
    forall j, k | 0 <= j < |rounds| && 0 <= k < |rounds| && rounds[j].inst.name == rounds[k].inst.name
      ensures j == k
    {
      var a :| 0 <= a < num && insts[a] == rounds[j].inst;
      var b :| 0 <= b < num && insts[b] == rounds[k].inst;
      ZoneInstNameInjective(zone, a, zone, b);
    }
    forall n | n in InstNames(zone, num) ensures Visits(rounds, n) {
      var i :| 0 <= i < num && GenZoneInstName(zone, i) == n;
      assert insts[i] in insts;
      var j :| 0 <= j < |rounds| && rounds[j].inst == insts[i];
    }
  }

  // ---------- a pass that starts from no roles ----------

  // The client each turn elects, in visiting order.
  function Winners(cs: seq<Client>, rounds: seq<Round>, carried: int): (w: seq<int>)
    requires AllFit(|cs|, rounds) && carried >= -1
    ensures |w| == |rounds|
    decreases |rounds|
  {
    if rounds == [] then []
    else
      var s := SelectInst(cs, rounds[0], NextHint(carried, rounds[0].inst));
      [s.hint] + Winners(s.clients, rounds[1..], s.hint)
  }

  // Carrying a hint of s + 1 visits s last.
  lemma ScanAvoids(cs: seq<Client>, s: nat, other: nat)
    requires 0 < s < |cs| && other < |cs| && other != s && Electable(cs[other])
    ensures var start := Start(s + 1, |cs|);
      var t := FirstTurn(cs, start, 0);
      t < |cs| && At(start, t, |cs|) != s
  {
    var start := Start(s + 1, |cs|);
    AtOfTurn(start, other, |cs|);
    AtOfTurn(start, s, |cs|);
    assert FirstTurn(cs, start, 0) <= Turn(start, other, |cs|) < |cs| - 1 == Turn(start, s, |cs|);
  }

  lemma ScanFromOne(cs: seq<Client>, other: nat)
    requires 0 < other < |cs| && Electable(cs[other])
    ensures var t := FirstTurn(cs, 1, 0); t < |cs| && At(1, t, |cs|) > 0
  {
    AtOfTurn(1, other, |cs|);
    assert FirstTurn(cs, 1, 0) <= Turn(1, other, |cs|);
  }

  ghost predicate TwoElectable(cs: seq<Client>)
  {
    exists i, j :: 0 <= i < j < |cs| && Electable(cs[i]) && Electable(cs[j])
  }

  // When two clients can serve, a turn never repeats a non-zero winner, and
  // the turn of instance 1 never falls on client 0 unless its hint was carried.
  lemma WinnerMoves(cs: seq<Client>, inst: Inst, carried: int)
    requires carried >= -1 && carried < |cs| && TwoElectable(cs)
    requires forall i :: 0 <= i < |cs| ==> inst.name in cs[i].roles && !IsMaster(cs[i], inst.name)
    ensures var s := Elect(cs, inst.name, NextHint(carried, inst));
      && s.selected
      && (carried > 0 ==> s.hint != carried)
      && (carried == 0 && inst.id == 1 ==> s.hint > 0)
  {
    ElectMasters(cs, inst.name, NextHint(carried, inst));
    var i, j :| 0 <= i < j < |cs| && Electable(cs[i]) && Electable(cs[j]);
    if carried > 0 {
      ScanAvoids(cs, carried, if i == carried then j else i);
    } else if carried == 0 && inst.id == 1 {
      ScanFromOne(cs, j);
    }
  }

  ghost predicate Unowned(cs: seq<Client>, rounds: seq<Round>)
  {
    forall j :: 0 <= j < |rounds| ==> !HasMaster(cs, rounds[j].inst.name)
  }

  ghost predicate Mastered(cs: seq<Client>, inst: string, winner: int)
  {
    forall i :: 0 <= i < |cs| ==> (IsMaster(cs[i], inst) <==> i == winner)
  }

  ghost predicate SameElectable(cs: seq<Client>, ds: seq<Client>)
  {
    |cs| == |ds| && forall i :: 0 <= i < |cs| ==> Electable(cs[i]) == Electable(ds[i])
  }

  // A quiet pass from no roles, where somebody can serve.
  ghost predicate Blank(cs: seq<Client>, rounds: seq<Round>)
  {
    QuietRounds(cs, rounds) && AllFit(|cs|, rounds) && Unowned(cs, rounds) && SomeElectable(cs)
  }

  lemma BlankStep(cs: seq<Client>, rounds: seq<Round>, hint: nat)
    requires Blank(cs, rounds) && rounds != []
    ensures var s := SelectInst(cs, rounds[0], hint);
      && s == Elect(cs, rounds[0].inst.name, hint) && 0 <= s.hint < |cs| && Electable(cs[s.hint])
      && Mastered(s.clients, rounds[0].inst.name, s.hint)
      && Blank(s.clients, rounds[1..]) && SameElectable(cs, s.clients)
  {
    hide SelectInst, Elect, Settled;
    QuietSelect(cs, rounds[0], hint);
    QuietRoundsStep(cs, rounds, hint);
    assert !HasMaster(cs, rounds[0].inst.name);
    ElectMasters(cs, rounds[0].inst.name, hint);
    var s, rest := SelectInst(cs, rounds[0], hint), rounds[1..];
    assert forall i :: 0 <= i < |cs| ==> cs[i].alive == Live(cs)[i] && s.clients[i].alive == Live(s.clients)[i];
    assert SameElectable(cs, s.clients);
    forall j | 0 <= j < |rest| ensures !HasMaster(s.clients, rest[j].inst.name) {
      assert rest[j] == rounds[j + 1];
      assert SameRoles(cs, s.clients, rest[j].inst.name);
      assert !HasMaster(cs, rounds[j + 1].inst.name);
    }
  }

  // From no roles, each instance ends with exactly the winner of its turn.
  lemma {:induction false} WinnerIsMaster(cs: seq<Client>, rounds: seq<Round>, carried: int, j: nat)
    requires Blank(cs, rounds) && carried >= -1 && j < |rounds|
    ensures var ds, w := RunRounds(cs, rounds, carried).clients, Winners(cs, rounds, carried);
      0 <= w[j] < |cs| && Electable(cs[w[j]]) && Mastered(ds, rounds[j].inst.name, w[j])
    decreases j
  {
    hide SelectInst, Elect, Settled, Unowned, SomeElectable;
    var hint := NextHint(carried, rounds[0].inst);
    var s := SelectInst(cs, rounds[0], hint);
    BlankStep(cs, rounds, hint);
    if j == 0 {
      QuietRoundsStep(cs, rounds, hint);
      QuietRoundsSettle(s.clients, rounds[1..], s.hint);
      assert SameRoles(s.clients, RunRounds(cs, rounds, carried).clients, rounds[0].inst.name);
    } else {
      WinnerIsMaster(s.clients, rounds[1..], s.hint, j - 1);
    }
  }

  lemma FirstWinnerMoves(cs: seq<Client>, rounds: seq<Round>, carried: int)
    requires Blank(cs, rounds) && -1 <= carried < |cs| && TwoElectable(cs) && rounds != []
    ensures var hint := SelectInst(cs, rounds[0], NextHint(carried, rounds[0].inst)).hint;
      (carried > 0 ==> hint != carried) && (carried == 0 && rounds[0].inst.id == 1 ==> hint > 0)
  {
    BlankStep(cs, rounds, NextHint(carried, rounds[0].inst));
    assert !HasMaster(cs, rounds[0].inst.name);
    WinnerMoves(cs, rounds[0].inst, carried);
  }

  lemma TwoElectableTransfers(cs: seq<Client>, ds: seq<Client>)
    requires SameElectable(cs, ds) && TwoElectable(cs)
    ensures TwoElectable(ds)
  {
  }

  lemma {:induction false} WinnersMove(cs: seq<Client>, rounds: seq<Round>, carried: int, j: nat)
    requires Blank(cs, rounds) && -1 <= carried < |cs| && TwoElectable(cs) && j < |rounds|
    ensures var w := Winners(cs, rounds, carried);
      var from := if j == 0 then carried else w[j - 1];
      (from > 0 ==> w[j] != from) && (from == 0 && rounds[j].inst.id == 1 ==> w[j] > 0)
    decreases j
  {
    hide SelectInst, Elect, QuietRounds, Unowned, SomeElectable, TwoElectable, Mastered, SameElectable, Electable;
    var hint := NextHint(carried, rounds[0].inst);
    var s := SelectInst(cs, rounds[0], hint);
    if j == 0 {
      FirstWinnerMoves(cs, rounds, carried);
    } else {
      BlankStep(cs, rounds, hint);
      TwoElectableTransfers(cs, s.clients);
      WinnersMove(s.clients, rounds[1..], s.hint, j - 1);
    }
  }

  ghost predicate NobodyHasBoth(cs: seq<Client>, a: string, b: string)
  {
    forall i :: 0 <= i < |cs| ==> !(IsMaster(cs[i], a) && IsMaster(cs[i], b))
  }

  // Some two turns in a row have different winners.
  lemma SomeTurnMoves(cs: seq<Client>, rounds: seq<Round>, k: nat) returns (j: nat)
    requires Blank(cs, rounds) && TwoElectable(cs) && |rounds| >= 2
    requires k < |rounds| && rounds[k].inst.id == 1
    ensures 0 < j < |rounds|
    ensures NobodyHasBoth(RunRounds(cs, rounds, 0).clients, rounds[j - 1].inst.name, rounds[j].inst.name)
  {
    hide RunRounds, Winners, QuietRounds, Unowned, Electable;
    j := if k == 0 then 1 else k;
    WinnersMove(cs, rounds, 0, k);
    WinnersMove(cs, rounds, 0, j);
    WinnerIsMaster(cs, rounds, 0, j - 1);
    WinnerIsMaster(cs, rounds, 0, j);
  }

  ghost predicate MasterOfAll(c: Client, zone: string, num: nat)
  {
    forall n :: n in InstNames(zone, num) ==> IsMaster(c, n)
  }

  // Spreading: over two or more instances and two or more electable clients, a
  // pass that starts from no roles leaves nobody master of everything, for any
  // visiting order and any placement of dead or excluded clients.
  lemma RebalanceSpreads(cs: seq<Client>, rounds: seq<Round>, zone: string, num: nat)
    requires RolesFor(cs, zone, num) && Steady(cs, rounds, zone, num)
    requires num >= 2 && TwoElectable(cs)
    ensures AllFit(|cs|, rounds)
    ensures var ds := RunRounds(Cleared(cs), rounds, 0).clients;
      forall i :: 0 <= i < |cs| ==> !MasterOfAll(ds[i], zone, num)
  {
    var blank := Cleared(cs);
    BlankStart(cs, rounds, zone, num);
    assert SomeElectable(cs);
    TwoElectableTransfers(cs, blank);
    var k := TurnOf(cs, rounds, zone, num, 1);
    var k0 := TurnOf(cs, rounds, zone, num, 0);
    var j := SomeTurnMoves(blank, rounds, k);
    var ds := RunRounds(blank, rounds, 0).clients;
    assert Visits(rounds, rounds[j - 1].inst.name) && Visits(rounds, rounds[j].inst.name);
    hide RunRounds, SelectInst, Steady;
    forall i | 0 <= i < |cs| ensures !MasterOfAll(ds[i], zone, num) {
      assert !(IsMaster(ds[i], rounds[j - 1].inst.name) && IsMaster(ds[i], rounds[j].inst.name));
    }
  }

  lemma TurnOf(cs: seq<Client>, rounds: seq<Round>, zone: string, num: nat, id: nat) returns (j: nat)
    requires Steady(cs, rounds, zone, num) && id < num
    ensures j < |rounds| && rounds[j].inst == Inst(GenZoneInstName(zone, id), id)
  {
    var x := ZoneInsts(zone, num)[id];
    assert x in ZoneInsts(zone, num);
    j :| 0 <= j < |rounds| && rounds[j].inst == x;
  }

  lemma BlankStart(cs: seq<Client>, rounds: seq<Round>, zone: string, num: nat)
    requires RolesFor(cs, zone, num) && Steady(cs, rounds, zone, num)
    ensures AllFit(|cs|, rounds)
    ensures var blank := Cleared(cs);
      && QuietRounds(blank, rounds) && Unowned(blank, rounds) && Live(blank) == Live(cs)
      && SameElectable(cs, blank) && (SomeElectable(cs) ==> Blank(blank, rounds))
      && SameMembers(cs, blank) && RolesFor(blank, zone, num)
      && (forall n :: n in InstNames(zone, num) <==> Visits(rounds, n))
  {
    var blank := Cleared(cs);
    ClearedMasters(cs);
    assert forall i :: 0 <= i < |cs| ==> cs[i].alive == Live(cs)[i] && blank[i].alive == Live(blank)[i];
    assert forall i :: 0 <= i < |cs| ==> Electable(cs[i]) == Electable(blank[i]);
    SteadyIsQuiet(blank, rounds, zone, num);
    forall j | 0 <= j < |rounds| ensures !HasMaster(blank, rounds[j].inst.name) {
    }
  }

  // ---------- the main results ----------

  // Completeness: after a quiet pass every instance has exactly one master and
  // it is alive, provided anybody can serve; otherwise nobody is master.
  // Stickiness: a pass that does not rebalance leaves live masters in place.
  lemma QuietPass(cs: seq<Client>, cfg: Config, rounds: seq<Round>, zone: string)
    requires RolesFor(cs, zone, cfg.numInst) && Steady(cs, rounds, zone, cfg.numInst)
    requires cfg.setRoles && forall inst :: AtMostOne(cs, inst)
    ensures AllFit(|cs|, rounds)
    ensures var ds := Pass(cs, cfg, rounds).clients;
      && SameMembers(cs, ds) && Live(ds) == Live(cs)
      && (forall n :: n in InstNames(zone, cfg.numInst) ==> Settled(ds, n))
      && (!NeedsRebalance(cs, cfg) ==> forall n :: Settled(cs, n) ==> SameRoles(cs, ds, n))
  {
    SteadyIsQuiet(cs, rounds, zone, cfg.numInst);
    BlankStart(cs, rounds, zone, cfg.numInst);
    QuietRoundsSettle(Rebalance(cs, cfg), rounds, 0);
  }

  lemma SettledMeans(cs: seq<Client>, inst: string)
    requires Settled(cs, inst) && SomeElectable(cs)
    ensures exists m :: 0 <= m < |cs| && cs[m].alive && Mastered(cs, inst, m)
  {
  }

  lemma LiveMasterIsSettled(cs: seq<Client>, inst: string)
    requires AtMostOne(cs, inst) && LiveMaster(cs, inst)
    ensures Settled(cs, inst)
  {
  }

  // The count is attained by some client.
  lemma {:induction false} MaxIsHeld(cs: seq<Client>) returns (i: nat)
    requires MaxMasters(cs) > 0
    ensures i < |cs| && |Held(cs[i])| == MaxMasters(cs)
    decreases |cs|
  {
    i := |cs| - 1;
    if |Held(cs[i])| != MaxMasters(cs) {
      i := MaxIsHeld(cs[..i]);
    }
  }

  // A client counted as master of at least num instances is master of them all.
  lemma MaxMeansAll(cs: seq<Client>, zone: string, num: nat) returns (i: nat)
    requires RolesFor(cs, zone, num) && num > 0 && MaxMasters(cs) >= num
    ensures i < |cs| && MasterOfAll(cs[i], zone, num)
  {
    i := MaxIsHeld(cs);
    InstNamesCount(zone, num);
    forall n | n in InstNames(zone, num) ensures n in Held(cs[i]) {
      if n !in Held(cs[i]) {
        SubsetSmaller(Held(cs[i]), InstNames(zone, num), n);
      }
    }
  }

  lemma SubsetSmaller<T>(a: set<T>, b: set<T>, x: T)
    requires a <= b && x in b && x !in a
    ensures |a| < |b|
  {
    var rest := b - a;
    assert b == a + rest && x in rest;
  }

  // A pass changes nothing when every instance is settled and the rebalance is
  // not due.
  lemma SettledPassIsIdle(cs: seq<Client>, cfg: Config, rounds: seq<Round>, zone: string)
    requires RolesFor(cs, zone, cfg.numInst) && Steady(cs, rounds, zone, cfg.numInst)
    requires forall inst :: AtMostOne(cs, inst)
    requires forall n :: n in InstNames(zone, cfg.numInst) ==> Settled(cs, n)
    requires !NeedsRebalance(cs, cfg)
    ensures AllFit(|cs|, rounds) && Pass(cs, cfg, rounds).clients == cs
  {
    SteadyIsQuiet(cs, rounds, zone, cfg.numInst);
    if cfg.setRoles {
      QuietPass(cs, cfg, rounds, zone);
      var ds := Pass(cs, cfg, rounds).clients;
      forall inst ensures SameRoles(cs, ds, inst) {
        if inst !in InstNames(zone, cfg.numInst) {
          assert forall i :: 0 <= i < |cs| ==> inst !in cs[i].roles && inst !in ds[i].roles;
        }
      }
      SameState(cs, ds);
    }
  }

  // With a single electable client every election from no roles has the same
  // outcome, whatever the order.
  lemma LoneElectable(cs: seq<Client>, rounds: seq<Round>, e: nat, zone: string, num: nat)
    requires RolesFor(cs, zone, num) && Steady(cs, rounds, zone, num)
    requires e < |cs| && Electable(cs[e]) && !TwoElectable(cs)
    ensures AllFit(|cs|, rounds)
    ensures forall n :: n in InstNames(zone, num) ==> Mastered(RunRounds(Cleared(cs), rounds, 0).clients, n, e)
  {
    var blank := Cleared(cs);
    BlankStart(cs, rounds, zone, num);
    assert SomeElectable(cs);
    hide RunRounds, SelectInst, Winners;
    var ds := RunRounds(blank, rounds, 0).clients;
    forall n | n in InstNames(zone, num) ensures Mastered(ds, n, e) {
      assert Visits(rounds, n);
      var j :| 0 <= j < |rounds| && rounds[j].inst.name == n;
      WinnerIsMaster(blank, rounds, 0, j);
      var w := Winners(blank, rounds, 0)[j];
      assert Electable(cs[w]) && (w < e || e < w || w == e);
    }
  }

  // What a rebalanced pass leaves is a fixed point of every later pass.
  lemma RebalancedIsStable(cs: seq<Client>, cfg: Config, rounds: seq<Round>, later: seq<Round>, zone: string)
    requires RolesFor(cs, zone, cfg.numInst) && Steady(cs, rounds, zone, cfg.numInst)
    requires Steady(cs, later, zone, cfg.numInst)
    requires cfg.setRoles && NeedsRebalance(cs, cfg) && forall inst :: AtMostOne(cs, inst)
    ensures AllFit(|cs|, rounds) && AllFit(|cs|, later)
    ensures var ds := Pass(cs, cfg, rounds).clients; Pass(ds, cfg, later).clients == ds
  {
    var num := cfg.numInst;
    QuietPass(cs, cfg, rounds, zone);
    var ds := Pass(cs, cfg, rounds).clients;
    AtMostOneAfter(cs, ds, zone, num);
    if !NeedsRebalance(ds, cfg) {
      SettledPassIsIdle(ds, cfg, later, zone);
    } else {
      RebalanceAgain(cs, ds, cfg, rounds, later, zone);
    }
  }

  lemma AtMostOneAfter(cs: seq<Client>, ds: seq<Client>, zone: string, num: nat)
    requires RolesFor(cs, zone, num) && SameMembers(cs, ds)
    requires forall n :: n in InstNames(zone, num) ==> Settled(ds, n)
    ensures RolesFor(ds, zone, num) && forall inst :: AtMostOne(ds, inst)
  {
  }

  lemma ClearedAgain(cs: seq<Client>, ds: seq<Client>)
    requires SameMembers(cs, ds) && Live(cs) == Live(ds)
    ensures Cleared(ds) == Cleared(cs)
  {
    ClearedMasters(cs);
    ClearedMasters(ds);
    SameState(Cleared(cs), Cleared(ds));
  }

  // The cases in which a rebalance is still due after a rebalance: at most one
  // instance, or only one client that can serve.
  lemma RebalanceAgain(cs: seq<Client>, ds: seq<Client>, cfg: Config, rounds: seq<Round>, later: seq<Round>, zone: string)
    requires RolesFor(cs, zone, cfg.numInst) && Steady(cs, rounds, zone, cfg.numInst)
    requires Steady(cs, later, zone, cfg.numInst)
    requires cfg.setRoles && AllFit(|cs|, rounds) && AllFit(|cs|, later)
    requires ds == RunRounds(Cleared(cs), rounds, 0).clients
    requires SameMembers(cs, ds) && Live(ds) == Live(cs) && RolesFor(ds, zone, cfg.numInst)
    requires forall n :: n in InstNames(zone, cfg.numInst) ==> Settled(ds, n)
    requires NeedsRebalance(ds, cfg)
    ensures Pass(ds, cfg, later).clients == ds
  {
    var num := cfg.numInst;
    ClearedAgain(cs, ds);
    if num <= 1 {
      OneInstanceOneOrder(cs, rounds, zone, num);
      OneInstanceOneOrder(cs, later, zone, num);
    } else {
      var i := MaxMeansAll(ds, zone, num);
      var n0 := GenZoneInstName(zone, 0);
      assert n0 in InstNames(zone, num) && Settled(ds, n0) && IsMaster(ds[i], n0);
      RebalanceLone(cs, ds, i, rounds, later, zone, num);
    }
  }

  lemma OneInstanceOneOrder(cs: seq<Client>, rounds: seq<Round>, zone: string, num: nat)
    requires Steady(cs, rounds, zone, num) && num <= 1
    ensures rounds == if num == 0 then [] else [Round(Inst(GenZoneInstName(zone, 0), 0), Live(cs), Live(cs))]
  {
  }

  lemma RebalanceLone(cs: seq<Client>, ds: seq<Client>, i: nat, rounds: seq<Round>, later: seq<Round>, zone: string, num: nat)
    requires RolesFor(cs, zone, num) && Steady(cs, rounds, zone, num) && Steady(cs, later, zone, num)
    requires num >= 2 && AllFit(|cs|, rounds) && AllFit(|cs|, later)
    requires ds == RunRounds(Cleared(cs), rounds, 0).clients && i < |ds| && MasterOfAll(ds[i], zone, num)
    requires SameMembers(cs, ds) && Live(ds) == Live(cs) && RolesFor(ds, zone, num)
    ensures RunRounds(Cleared(cs), later, 0).clients == ds
  {
    hide RunRounds, SelectInst, Steady, QuietRounds;
    var e := LoneServer(cs, ds, i, rounds, zone, num);
    LoneElectable(cs, rounds, e, zone, num);
    LoneElectable(cs, later, e, zone, num);
    BlankStart(cs, later, zone, num);
    QuietRoundsSettle(Cleared(cs), later, 0);
    SameWinner(ds, RunRounds(Cleared(cs), later, 0).clients, e, zone, num);
  }

  lemma LoneServer(cs: seq<Client>, ds: seq<Client>, i: nat, rounds: seq<Round>, zone: string, num: nat) returns (e: nat)
    requires RolesFor(cs, zone, num) && Steady(cs, rounds, zone, num)
    requires num >= 2 && AllFit(|cs|, rounds)
    requires ds == RunRounds(Cleared(cs), rounds, 0).clients && i < |ds| && MasterOfAll(ds[i], zone, num)
    ensures e < |cs| && Electable(cs[e]) && !TwoElectable(cs)
  {
    hide RunRounds, SelectInst, Steady, QuietRounds, RolesFor;
    if TwoElectable(cs) {
      RebalanceSpreads(cs, rounds, zone, num);
    }
    BlankStart(cs, rounds, zone, num);
    ClearedMasters(cs);
    var n0 := GenZoneInstName(zone, 0);
    assert n0 in InstNames(zone, num) && IsMaster(ds[i], n0);
    MastersNeedElectable(Cleared(cs), rounds, n0);
    var x :| 0 <= x < |cs| && Electable(Cleared(cs)[x]);
    e := x;
  }

  lemma MastersNeedElectable(blank: seq<Client>, rounds: seq<Round>, n: string)
    requires QuietRounds(blank, rounds) && AllFit(|blank|, rounds)
    requires !HasMaster(blank, n) && HasMaster(RunRounds(blank, rounds, 0).clients, n)
    ensures SomeElectable(blank)
  {
    hide RunRounds, SelectInst, QuietRounds;
    QuietRoundsSettle(blank, rounds, 0);
    assert Settled(blank, n) == !SomeElectable(blank);
  }

  lemma SameWinner(ds: seq<Client>, es: seq<Client>, e: nat, zone: string, num: nat)
    requires SameMembers(ds, es) && Live(ds) == Live(es) && RolesFor(ds, zone, num)
    requires forall n :: n in InstNames(zone, num) ==> Mastered(ds, n, e) && Mastered(es, n, e)
    ensures ds == es
  {
    forall inst ensures SameRoles(ds, es, inst) {
      if inst in InstNames(zone, num) {
        assert Mastered(ds, inst, e) && Mastered(es, inst, e);
      } else {
        assert forall i :: 0 <= i < |ds| ==> inst !in ds[i].roles && inst !in es[i].roles;
      }
    }
    SameState(ds, es);
  }

  // ---------- convergence ----------

  function RunPasses(cs: seq<Client>, cfg: Config, passes: seq<seq<Round>>): (ds: seq<Client>)
    requires forall p :: 0 <= p < |passes| ==> AllFit(|cs|, passes[p])
    ensures |ds| == |cs|
  {
    if passes == [] then cs
    else
      var k := |passes| - 1;
      Pass(RunPasses(cs, cfg, passes[..k]), cfg, passes[k]).clients
  }

  // The third pass of any three changes nothing.
  lemma ThirdPassIsIdle(cs: seq<Client>, cfg: Config, p1: seq<Round>, p2: seq<Round>, p3: seq<Round>, zone: string)
    requires RolesFor(cs, zone, cfg.numInst) && forall inst :: AtMostOne(cs, inst)
    requires Steady(cs, p1, zone, cfg.numInst) && Steady(cs, p2, zone, cfg.numInst) && Steady(cs, p3, zone, cfg.numInst)
    ensures AllFit(|cs|, p1) && AllFit(|cs|, p2) && AllFit(|cs|, p3)
    ensures var ds := Pass(Pass(cs, cfg, p1).clients, cfg, p2).clients;
      && Pass(ds, cfg, p3).clients == ds && SameMembers(cs, ds) && Live(cs) == Live(ds)
  {
    hide RunRounds, SelectInst, NeedsRebalance, Cleared;
    SteadyIsQuiet(cs, p1, zone, cfg.numInst);
    SteadyIsQuiet(cs, p2, zone, cfg.numInst);
    SteadyIsQuiet(cs, p3, zone, cfg.numInst);
    if cfg.setRoles {
      QuietPass(cs, cfg, p1, zone);
      var bs := Pass(cs, cfg, p1).clients;
      AtMostOneAfter(cs, bs, zone, cfg.numInst);
      QuietPass(bs, cfg, p2, zone);
      if NeedsRebalance(bs, cfg) {
        RebalancedIsStable(bs, cfg, p2, p3, zone);
      } else {
        SettledPassIsIdle(bs, cfg, p2, zone);
        SettledPassIsIdle(bs, cfg, p3, zone);
      }
    }
  }

  // Convergence: with liveness held constant, however many passes run and in
  // whatever order each visits the instances, nothing changes after the second;
  // so rebalancing cannot oscillate.
  lemma {:induction false} Converges(cs: seq<Client>, cfg: Config, passes: seq<seq<Round>>, zone: string)
    requires RolesFor(cs, zone, cfg.numInst) && forall inst :: AtMostOne(cs, inst)
    requires |passes| >= 2 && forall p :: 0 <= p < |passes| ==> Steady(cs, passes[p], zone, cfg.numInst)
    ensures forall p :: 0 <= p < |passes| ==> AllFit(|cs|, passes[p])
    ensures RunPasses(cs, cfg, passes) == RunPasses(cs, cfg, passes[..2])
    decreases |passes|
  {
    hide RunRounds, SelectInst, Pass;
    forall p | 0 <= p < |passes| ensures AllFit(|cs|, passes[p]) {
      SteadyIsQuiet(cs, passes[p], zone, cfg.numInst);
    }
    if |passes| == 2 {
      assert passes[..2] == passes;
    } else {
      var k := |passes| - 1;
      var before := passes[..k];
      Converges(cs, cfg, before, zone);
      assert before[..2] == passes[..2] && passes[..2][..1] == passes[..1] && passes[..1][..0] == [];
      assert RunPasses(cs, cfg, passes[..1]) == Pass(cs, cfg, passes[0]).clients;
      assert RunPasses(cs, cfg, passes[..2]) == Pass(Pass(cs, cfg, passes[0]).clients, cfg, passes[1]).clients;
      ThirdPassIsIdle(cs, cfg, passes[0], passes[1], passes[k], zone);
    }
  }

  // A rebalance that is due moves roles whenever two clients could serve two
  // or more instances.
  lemma RebalanceMoves(cs: seq<Client>, cfg: Config, p: seq<Round>, zone: string)
    requires RolesFor(cs, zone, cfg.numInst) && Steady(cs, p, zone, cfg.numInst)
    requires cfg.setRoles && cfg.numInst >= 2 && TwoElectable(cs) && NeedsRebalance(cs, cfg)
    ensures AllFit(|cs|, p) && Pass(cs, cfg, p).clients != cs
  {
    hide RunRounds, Steady, RolesFor, MaxMasters, CountLive, MasterOfAll, TwoElectable, Cleared;
    var i := MaxMeansAll(cs, zone, cfg.numInst);
    RebalanceSpreads(cs, p, zone, cfg.numInst);
    assert Pass(cs, cfg, p).clients == RunRounds(Cleared(cs), p, 0).clients;
  }

  // ---------- exactly when a pass is idle ----------

  ghost predicate FirstElectable(cs: seq<Client>, m: nat)
  {
    m < |cs| && Electable(cs[m]) && forall i :: 0 <= i < m ==> !Electable(cs[i])
  }

  // A due rebalance has no effect: there is nothing to assign, one client to
  // assign it to, or one instance, which the reset gives back to its master.
  ghost predicate NothingToMove(cs: seq<Client>, zone: string, num: nat)
  {
    || num == 0
    || !TwoElectable(cs)
    || (num == 1 && exists m: nat :: FirstElectable(cs, m) && IsMaster(cs[m], GenZoneInstName(zone, 0)))
  }

  // One instance, from no roles: the first electable client wins.
  lemma LoneInstance(cs: seq<Client>, rounds: seq<Round>, zone: string) returns (m: nat)
    requires RolesFor(cs, zone, 1) && Steady(cs, rounds, zone, 1) && SomeElectable(cs)
    ensures AllFit(|cs|, rounds) && FirstElectable(cs, m)
    ensures Mastered(RunRounds(Cleared(cs), rounds, 0).clients, GenZoneInstName(zone, 0), m)
  {
    var blank := Cleared(cs);
    BlankStart(cs, rounds, zone, 1);
    OneInstanceOneOrder(cs, rounds, zone, 1);
    BlankStep(blank, rounds, 0);
    var s := SelectInst(blank, rounds[0], 0);
    assert rounds[1..] == [] && RunRounds(s.clients, rounds[1..], s.hint).clients == s.clients;
    assert RunRounds(blank, rounds, 0).clients == s.clients;
    m := s.hint;
    WinsFirst(blank, rounds[0].inst.name);
    assert forall i :: 0 <= i < |cs| ==> Electable(cs[i]) == Electable(blank[i]);
  }

  lemma WinsFirst(cs: seq<Client>, inst: string)
    requires Elect(cs, inst, 0).hint >= 0
    ensures FirstElectable(cs, Elect(cs, inst, 0).hint)
  {
    var t := FirstTurn(cs, 0, 0);
    assert forall u :: 0 <= u < |cs| ==> At(0, u, |cs|) == u;
    forall i | 0 <= i < t ensures !Electable(cs[i]) { assert !Electable(cs[At(0, i, |cs|)]); }
  }

  lemma FirstIsUnique(cs: seq<Client>, w: nat, n: string)
    requires FirstElectable(cs, w)
    ensures w < |cs| && ((exists m: nat :: FirstElectable(cs, m) && IsMaster(cs[m], n)) <==> IsMaster(cs[w], n))
  {
  }

  // With one electable client, a settled instance is its.
  lemma LoneOwnsAll(cs: seq<Client>, e: nat, n: string)
    requires Safe(cs) && Settled(cs, n) && e < |cs| && Electable(cs[e]) && !TwoElectable(cs)
    ensures Mastered(cs, n, e)
  {
    var m :| 0 <= m < |cs| && IsMaster(cs[m], n);
    assert Electable(cs[m]);
    assert m < e || e < m || m == e;
  }

  lemma LoneIsIdle(cs: seq<Client>, e: nat, rounds: seq<Round>, zone: string, num: nat)
    requires RolesFor(cs, zone, num) && Steady(cs, rounds, zone, num) && Safe(cs) && AllFit(|cs|, rounds)
    requires forall n :: n in InstNames(zone, num) ==> Settled(cs, n)
    requires e < |cs| && Electable(cs[e]) && !TwoElectable(cs)
    ensures RunRounds(Cleared(cs), rounds, 0).clients == cs
  {
    hide RunRounds, SelectInst, Steady, QuietRounds, RolesFor, Safe, Settled;
    LoneElectable(cs, rounds, e, zone, num);
    BlankStart(cs, rounds, zone, num);
    QuietRoundsSettle(Cleared(cs), rounds, 0);
    ClearedMasters(cs);
    forall n | n in InstNames(zone, num) ensures Mastered(cs, n, e) { LoneOwnsAll(cs, e, n); }
    SameWinner(cs, RunRounds(Cleared(cs), rounds, 0).clients, e, zone, num);
  }

  lemma ServersNeedElectable(cs: seq<Client>, zone: string, num: nat)
    requires RolesFor(cs, zone, num) && Safe(cs) && num >= 1 && MaxMasters(cs) >= num
    requires forall n :: n in InstNames(zone, num) ==> Settled(cs, n)
    ensures SomeElectable(cs)
  {
    var i := MaxMeansAll(cs, zone, num);
    var n0 := GenZoneInstName(zone, 0);
    assert n0 in InstNames(zone, num) && Settled(cs, n0) && IsMaster(cs[i], n0);
    assert Electable(cs[i]);
  }

  lemma LoneInstanceIdleIff(cs: seq<Client>, rounds: seq<Round>, zone: string)
    requires RolesFor(cs, zone, 1) && Steady(cs, rounds, zone, 1) && Safe(cs) && AllFit(|cs|, rounds)
    requires Settled(cs, GenZoneInstName(zone, 0)) && SomeElectable(cs)
    ensures RunRounds(Cleared(cs), rounds, 0).clients == cs <==>
      exists m: nat :: FirstElectable(cs, m) && IsMaster(cs[m], GenZoneInstName(zone, 0))
  {
    hide RunRounds, SelectInst, Steady, QuietRounds, FirstElectable, Safe, SomeElectable, Cleared;
    var n0, ds := GenZoneInstName(zone, 0), RunRounds(Cleared(cs), rounds, 0).clients;
    var w := LoneInstance(cs, rounds, zone);
    FirstIsUnique(cs, w, n0);
    assert InstNames(zone, 1) == {n0};
    BlankStart(cs, rounds, zone, 1);
    QuietRoundsSettle(Cleared(cs), rounds, 0);
    if IsMaster(cs[w], n0) {
      assert Mastered(cs, n0, w);
      SameMembersChain(cs, Cleared(cs), ds);
      SameWinner(cs, ds, w, zone, 1);
    }
  }

  lemma SameMembersChain(cs: seq<Client>, ds: seq<Client>, es: seq<Client>)
    requires SameMembers(cs, ds) && SameMembers(ds, es)
    ensures SameMembers(cs, es)
  {
  }

  // With every instance settled, a pass changes nothing if and only if no
  // rebalance is due or there is nothing to move. So with one instance and
  // rebalancing on, a live master gives way to an earlier electable client.
  lemma IdleIff(cs: seq<Client>, cfg: Config, rounds: seq<Round>, zone: string)
    requires RolesFor(cs, zone, cfg.numInst) && Steady(cs, rounds, zone, cfg.numInst) && cfg.setRoles && Safe(cs)
    requires forall n :: n in InstNames(zone, cfg.numInst) ==> Settled(cs, n)
    ensures AllFit(|cs|, rounds)
    ensures Pass(cs, cfg, rounds).clients == cs <==> !NeedsRebalance(cs, cfg) || NothingToMove(cs, zone, cfg.numInst)
  {
    hide RunRounds, SelectInst, Steady, MaxMasters, CountLive, Cleared, Settled, TwoElectable, FirstElectable;
    var num := cfg.numInst;
    SteadyIsQuiet(cs, rounds, zone, num);
    if !NeedsRebalance(cs, cfg) {
      SettledPassIsIdle(cs, cfg, rounds, zone);
    } else if num == 0 {
      NothingAssigned(cs, rounds, zone);
    } else {
      ServersNeedElectable(cs, zone, num);
      if !TwoElectable(cs) {
        var e :| 0 <= e < |cs| && Electable(cs[e]);
        LoneIsIdle(cs, e, rounds, zone, num);
      } else if num >= 2 {
        RebalanceMoves(cs, cfg, rounds, zone);
      } else {
        assert GenZoneInstName(zone, 0) in InstNames(zone, 1);
        LoneInstanceIdleIff(cs, rounds, zone);
      }
    }
  }

  lemma NothingAssigned(cs: seq<Client>, rounds: seq<Round>, zone: string)
    requires RolesFor(cs, zone, 0) && Steady(cs, rounds, zone, 0) && AllFit(|cs|, rounds)
    ensures RunRounds(Cleared(cs), rounds, 0).clients == cs
  {
    assert InstNames(zone, 0) == {} && rounds == [];
    forall i | 0 <= i < |cs| ensures Cleared(cs)[i] == cs[i] {
      assert ClearRoles(cs[i]).roles == cs[i].roles;
    }
  }

  // The pass after a pass is idle if and only if that began with the reset, or
  // left no rebalance due, or nothing for it to move.
  lemma SecondPassIdleIff(cs: seq<Client>, cfg: Config, p: seq<Round>, later: seq<Round>, zone: string)
    requires RolesFor(cs, zone, cfg.numInst) && cfg.setRoles && Safe(cs)
    requires Steady(cs, p, zone, cfg.numInst) && Steady(cs, later, zone, cfg.numInst)
    ensures AllFit(|cs|, p) && AllFit(|cs|, later)
    ensures var ds := Pass(cs, cfg, p).clients;
      Pass(ds, cfg, later).clients == ds <==>
        NeedsRebalance(cs, cfg) || !NeedsRebalance(ds, cfg) || NothingToMove(ds, zone, cfg.numInst)
  {
    hide RunRounds, SelectInst, Steady, NeedsRebalance, Cleared, Settled, NothingToMove;
    SteadyIsQuiet(cs, later, zone, cfg.numInst);
    QuietPass(cs, cfg, p, zone);
    PassKeepsSafe(cs, cfg, p);
    var ds := Pass(cs, cfg, p).clients;
    AtMostOneAfter(cs, ds, zone, cfg.numInst);
    SteadyTransfers(cs, ds, later, zone, cfg.numInst);
    IdleIff(ds, cfg, later, zone);
    if NeedsRebalance(cs, cfg) { RebalancedIsStable(cs, cfg, p, later, zone); }
  }

  // Two instances and two live clients, the first already serving instance 0.
  function ExampleClients(n0: string, n1: string): (cs: seq<Client>)
    ensures |cs| == 2
  {
    [Client("", "10.0.0.1", "a", true, false, map[n0 := true, n1 := false]),
     Client("", "10.0.0.2", "b", true, false, map[n0 := false, n1 := false])]
  }

  function ExampleRounds(n0: string, n1: string): (p: seq<Round>)
    ensures |p| == 2
  {
    var up := [true, true];
    [Round(Inst(n0, 0), up, up), Round(Inst(n1, 1), up, up)]
  }

  lemma ExampleFits(zone: string) returns (n0: string, n1: string)
    ensures n0 == GenZoneInstName(zone, 0) && n1 == GenZoneInstName(zone, 1) && n0 != n1
    ensures var cs := ExampleClients(n0, n1);
      && RolesFor(cs, zone, 2) && Safe(cs) && Steady(cs, ExampleRounds(n0, n1), zone, 2)
      && Live(cs) == [true, true] && Mastered(cs, n0, 0) && !HasMaster(cs, n1)
  {
    n0, n1 := GenZoneInstName(zone, 0), GenZoneInstName(zone, 1);
    if n0 == n1 { ZoneInstNameInjective(zone, 0, zone, 1); }
    var cs, insts := ExampleClients(n0, n1), ZoneInsts(zone, 2);
    assert InstNames(zone, 2) == {n0, n1};
    assert Live(cs) == [true, true];
    assert insts == [Inst(n0, 0), Inst(n1, 1)];
    assert ExampleRounds(n0, n1)[0].inst == insts[0] && ExampleRounds(n0, n1)[1].inst == insts[1];
    assert forall i, inst :: 0 <= i < 2 && IsMaster(cs[i], inst) ==> i == 0 && inst == n0;
  }

  // Two passes are needed: the first can complete an assignment that leaves one
  // client with everything, which the second then spreads.
  lemma OnePassMayNotSuffice() returns (cs: seq<Client>, cfg: Config, p: seq<Round>, zone: string)
    ensures RolesFor(cs, zone, cfg.numInst) && Safe(cs)
    ensures Steady(cs, p, zone, cfg.numInst) && AllFit(|cs|, p)
    ensures Pass(Pass(cs, cfg, p).clients, cfg, p).clients != Pass(cs, cfg, p).clients
  {
    hide RunRounds, SelectInst, Steady, RolesFor, MaxMasters, CountLive, Cleared, InstNames, Safe, HasMaster;
    zone, cfg := "llb", Config(true, true, 2);
    var n0, n1 := ExampleFits(zone);
    cs, p := ExampleClients(n0, n1), ExampleRounds(n0, n1);
    SmallCounts(cs[0], cs[1], n0, n1);
    assert cs == [cs[0], cs[1]];
    QuietPass(cs, cfg, p, zone);
    FirstTakesAll(cs, p, n0, n1);
    var bs := Pass(cs, cfg, p).clients;
    AtMostOneAfter(cs, bs, zone, 2);
    assert bs == [bs[0], bs[1]] && bs[0].alive == Live(bs)[0] && bs[1].alive == Live(bs)[1];
    AllCounted(bs[0], bs[1], n0, n1);
    assert Electable(bs[0]) && Electable(bs[1]);
    assert TwoElectable(bs);
    SteadyTransfers(cs, bs, p, zone, 2);
    RebalanceMoves(bs, cfg, p, zone);
  }

  lemma SteadyTransfers(cs: seq<Client>, ds: seq<Client>, p: seq<Round>, zone: string, num: nat)
    requires Steady(cs, p, zone, num) && Live(cs) == Live(ds)
    ensures Steady(ds, p, zone, num)
  {
  }

  lemma SmallCounts(a: Client, b: Client, n0: string, n1: string)
    requires a.roles == map[n0 := true, n1 := false] && b.roles == map[n0 := false, n1 := false] && n0 != n1
    ensures MaxMasters([a, b]) == 1
  {
    assert Held(a) == {n0} && Held(b) == {};
    assert [a][..0] == [] && MaxMasters([a]) == 1;
    assert [a, b][..1] == [a];
  }

  lemma AllCounted(a: Client, b: Client, n0: string, n1: string)
    requires n0 != n1 && IsMaster(a, n0) && IsMaster(a, n1)
    ensures MaxMasters([a, b]) >= 2
    ensures a.alive && b.alive ==> CountLive([a, b]) == 2
  {
    assert {n0, n1} <= Held(a);
    SubsetAtMost({n0, n1}, Held(a));
    assert [a][..0] == [] && MaxMasters([a]) == |Held(a)| && (a.alive ==> CountLive([a]) == 1);
    assert [a, b][..1] == [a];
  }

  lemma SubsetAtMost<T>(a: set<T>, b: set<T>)
    requires a <= b
    ensures |a| <= |b|
  {
    assert b == a + (b - a);
  }

  lemma FirstTakesAll(cs: seq<Client>, p: seq<Round>, n0: string, n1: string)
    requires |cs| == 2 && |p| == 2 && Electable(cs[0]) && p[0].inst.name == n0 && p[1].inst.name == n1
    requires forall i :: 0 <= i < 2 ==> n0 in cs[i].roles && n1 in cs[i].roles
    requires Quiet(p[0], Live(cs)) && Quiet(p[1], Live(cs))
    requires Mastered(cs, n0, 0) && !HasMaster(cs, n1) && p[0].inst.id == 0
    ensures AllFit(2, p)
    ensures IsMaster(RunRounds(cs, p, 0).clients[0], n0) && IsMaster(RunRounds(cs, p, 0).clients[0], n1)
  {
    hide SelectInst, Live;
    assert IsMaster(cs[0], n0);
    assert Settled(cs, n0);
    QuietSelect(cs, p[0], 0);
    QuietSelect(cs, p[1], 0);
    assert p[1..] == [p[1]] && p[1..][1..] == [];
    var s := Elect(cs, n1, 0);
    assert FirstTurn(cs, 0, 0) == 0;
    assert RunRounds(cs, p, 0).clients == RunRounds(cs, p[1..], -1).clients == s.clients;
  }
}
