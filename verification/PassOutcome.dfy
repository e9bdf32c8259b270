// What one quiet pass makes of the roles, read off the clients it starts from
// and the order in which it visits the instances
// (pkg/agent/manager/loadbalancer/loadbalancer.go:2226-2331).

module PassOutcome {
  import opened Names
  import opened Clients
  import opened Election
  import opened ElectionProperties

  ghost function LiveOwner(cs: seq<Client>, inst: string): (i: nat)
    requires LiveMaster(cs, inst)
    ensures i < |cs| && IsMaster(cs[i], inst) && cs[i].alive
  {
    var i: nat :| i < |cs| && IsMaster(cs[i], inst) && cs[i].alive; i
  }

  // The master each instance gets, in visiting order: the live one it has, or
  // else the first client that can serve, from the hint carried over. No turn is
  // run: the clients stay as they were.
  ghost function Owners(cs: seq<Client>, rounds: seq<Round>, carried: int): (w: seq<int>)
    requires carried >= -1
    ensures |w| == |rounds|
    decreases |rounds|
  {
    if rounds == [] then []
    else
      var inst := rounds[0].inst;
      if LiveMaster(cs, inst.name) then [LiveOwner(cs, inst.name)] + Owners(cs, rounds[1..], -1)
      else
        var w := Elect(cs, inst.name, NextHint(carried, inst)).hint;
        [w] + Owners(cs, rounds[1..], w)
  }

  // The same client, for every instance.
  ghost predicate OneOwner(w: seq<int>)
  {
    forall j :: 0 <= j < |w| ==> w[j] == w[0] >= 0
  }

  // ---------- one turn ----------

  lemma SameScan(cs: seq<Client>, ds: seq<Client>, a: string, b: string, hint: nat)
    requires SameElectable(cs, ds)
    ensures Elect(cs, a, hint).hint == Elect(ds, b, hint).hint
  {
    if cs != [] {
      var start := Start(hint, |cs|);
      var s, t := FirstTurn(cs, start, 0), FirstTurn(ds, start, 0);
      assert s < |cs| ==> Electable(cs[At(start, s, |cs|)]) == Electable(ds[At(start, s, |cs|)]);
      assert t < |cs| ==> Electable(cs[At(start, t, |cs|)]) == Electable(ds[At(start, t, |cs|)]);
    }
  }

  lemma LiveOwnerMasters(cs: seq<Client>, inst: string)
    requires AtMostOne(cs, inst) && LiveMaster(cs, inst)
    ensures Mastered(cs, inst, LiveOwner(cs, inst))
  {
    hide LiveOwner;
  }

  // A quiet turn keeps a live master, and elects from the hint otherwise.
  lemma TurnOwner(cs: seq<Client>, r: Round, hint: nat)
    requires Quiet(r, Live(cs)) && AtMostOne(cs, r.inst.name)
    requires forall i :: 0 <= i < |cs| ==> r.inst.name in cs[i].roles
    ensures var s, n := SelectInst(cs, r, hint), r.inst.name;
      if LiveMaster(cs, n) then s == Selection(cs, false, -1) && Mastered(cs, n, LiveOwner(cs, n))
      else s.hint == Elect(cs, n, hint).hint && Mastered(s.clients, n, s.hint) && s.selected == SomeElectable(cs)
  {
    hide LiveOwner, Elect, Settled, Mastered;
    var n := r.inst.name;
    if LiveMaster(cs, n) {
      LiveMasterIsSettled(cs, n);
      QuietSelect(cs, r, hint);
      LiveOwnerMasters(cs, n);
    } else {
      assert WithLive(cs, Live(cs)) == cs && FirstMissing(cs, n) == |cs|;
      var demoted := Demoted(cs, n, |cs|);
      assert WithLive(demoted, Live(cs)) == demoted;
      assert SelectInst(cs, r, hint) == Elect(demoted, n, hint);
      DemotedMasters(cs, n, |cs|);
      assert forall i :: 0 <= i < |cs| ==> !IsMaster(demoted[i], n);
      SameScan(cs, demoted, n, n, hint);
      ElectedMasters(demoted, n, hint);
      assert SomeElectable(demoted) == SomeElectable(cs) by { SameSome(cs, demoted); }
    }
  }

  lemma SameSome(cs: seq<Client>, ds: seq<Client>)
    requires SameElectable(cs, ds)
    ensures SomeElectable(cs) == SomeElectable(ds)
  {
  }

  lemma ElectedMasters(cs: seq<Client>, inst: string, hint: nat)
    requires forall i :: 0 <= i < |cs| ==> inst in cs[i].roles && !IsMaster(cs[i], inst)
    ensures Mastered(Elect(cs, inst, hint).clients, inst, Elect(cs, inst, hint).hint)
    ensures Elect(cs, inst, hint).selected == SomeElectable(cs)
  {
    ElectMasters(cs, inst, hint);
  }

  // ---------- a whole pass ----------

  // Nothing a pass looks at for these instances has changed.
  ghost predicate Alike(cs: seq<Client>, ds: seq<Client>, rounds: seq<Round>)
  {
    && SameMembers(cs, ds) && Live(cs) == Live(ds)
    && forall j :: 0 <= j < |rounds| ==> SameRoles(cs, ds, rounds[j].inst.name)
  }

  lemma AlikeElectable(cs: seq<Client>, ds: seq<Client>)
    requires SameMembers(cs, ds) && Live(cs) == Live(ds)
    ensures SameElectable(cs, ds)
  {
    assert forall i :: 0 <= i < |cs| ==> cs[i].alive == Live(cs)[i] && ds[i].alive == Live(ds)[i];
  }

  // The turn on clients that look the same.
  lemma AlikeTurn(cs: seq<Client>, ds: seq<Client>, rounds: seq<Round>, carried: int)
    requires QuietRounds(ds, rounds) && rounds != [] && Alike(cs, ds, rounds) && carried >= -1
    ensures Fits(|ds|, rounds[0])
    ensures var s, w := SelectInst(ds, rounds[0], NextHint(carried, rounds[0].inst)), Owners(cs, rounds, carried);
      && Mastered(s.clients, rounds[0].inst.name, w[0])
      && w[1..] == Owners(cs, rounds[1..], s.hint)
  {
    hide Elect, SelectInst, Mastered, LiveOwner;
    var n, hint := rounds[0].inst.name, NextHint(carried, rounds[0].inst);
    TurnOwner(ds, rounds[0], hint);
    AlikeElectable(cs, ds);
    SameScan(cs, ds, n, n, hint);
    assert SameRoles(cs, ds, n);
    assert forall i :: 0 <= i < |cs| ==> cs[i].alive == Live(cs)[i] && ds[i].alive == Live(ds)[i];
    assert LiveMaster(cs, n) == LiveMaster(ds, n);
    if LiveMaster(cs, n) { SameOwner(cs, ds, n); }
  }

  lemma SameOwner(cs: seq<Client>, ds: seq<Client>, n: string)
    requires AtMostOne(ds, n) && SameRoles(cs, ds, n) && LiveMaster(cs, n) && LiveMaster(ds, n)
    ensures LiveOwner(cs, n) == LiveOwner(ds, n)
  {
    hide LiveOwner;
    assert IsMaster(ds[LiveOwner(cs, n)], n) && IsMaster(ds[LiveOwner(ds, n)], n);
  }

  // Each instance ends with exactly its owner.
  lemma {:induction false} OwnersAreMasters(cs: seq<Client>, ds: seq<Client>, rounds: seq<Round>, carried: int, j: nat)
    requires QuietRounds(ds, rounds) && AllFit(|ds|, rounds) && Alike(cs, ds, rounds) && carried >= -1 && j < |rounds|
    ensures Mastered(RunRounds(ds, rounds, carried).clients, rounds[j].inst.name, Owners(cs, rounds, carried)[j])
    decreases j
  {
    hide SelectInst, Elect, Owners, Settled;
    var hint, n := NextHint(carried, rounds[0].inst), rounds[0].inst.name;
    var s, rest := SelectInst(ds, rounds[0], hint), rounds[1..];
    AlikeTurn(cs, ds, rounds, carried);
    QuietRoundsStep(ds, rounds, hint);
    if j == 0 {
      QuietRoundsSettle(s.clients, rest, s.hint);
      assert SameRoles(s.clients, RunRounds(ds, rounds, carried).clients, n);
    } else {
      StillAlike(cs, ds, s.clients, rounds);
      OwnersAreMasters(cs, s.clients, rest, s.hint, j - 1);
    }
  }

  lemma StillAlike(cs: seq<Client>, ds: seq<Client>, es: seq<Client>, rounds: seq<Round>)
    requires rounds != [] && Alike(cs, ds, rounds) && SameMembers(ds, es) && Live(ds) == Live(es)
    requires !Visits(rounds[1..], rounds[0].inst.name)
    requires forall other :: other != rounds[0].inst.name ==> SameRoles(ds, es, other)
    ensures Alike(cs, es, rounds[1..])
  {
    SameMembersChain(cs, ds, es);
    forall j | 0 <= j < |rounds| - 1 ensures SameRoles(cs, es, rounds[1..][j].inst.name) {
      assert rounds[1..][j] == rounds[j + 1];
      assert SameRoles(cs, ds, rounds[j + 1].inst.name) && SameRoles(ds, es, rounds[1..][j].inst.name);
    }
  }

  // ---------- a rebalance that a pass makes due ----------

  lemma {:induction false} SameCount(cs: seq<Client>, ds: seq<Client>)
    requires Live(cs) == Live(ds)
    ensures CountLive(cs) == CountLive(ds)
    decreases |cs|
  {
    if cs != [] {
      var k := |cs| - 1;
      assert cs[k].alive == Live(cs)[k] == Live(ds)[k] == ds[k].alive;
      assert Live(cs[..k]) == Live(cs)[..k] && Live(ds[..k]) == Live(ds)[..k];
      SameCount(cs[..k], ds[..k]);
    }
  }

  lemma {:induction false} HeldAtMostMax(cs: seq<Client>, i: nat)
    requires i < |cs|
    ensures |Held(cs[i])| <= MaxMasters(cs)
    decreases |cs|
  {
    if i < |cs| - 1 { HeldAtMostMax(cs[..|cs| - 1], i); }
  }

  lemma AllMeansMax(cs: seq<Client>, zone: string, num: nat, i: nat)
    requires i < |cs| && MasterOfAll(cs[i], zone, num)
    ensures MaxMasters(cs) >= num
  {
    InstNamesCount(zone, num);
    assert InstNames(zone, num) <= Held(cs[i]);
    SubsetAtMost(InstNames(zone, num), Held(cs[i]));
    HeldAtMostMax(cs, i);
  }

  // Some client counts as owner of everything exactly when the owners are one.
  lemma MaxIffOneOwner(ds: seq<Client>, rounds: seq<Round>, w: seq<int>, zone: string, num: nat)
    requires RolesFor(ds, zone, num) && num > 0 && |rounds| == |w| == num
    requires forall n :: n in InstNames(zone, num) <==> Visits(rounds, n)
    requires forall j :: 0 <= j < num ==> w[j] < |ds| && Mastered(ds, rounds[j].inst.name, w[j])
    ensures MaxMasters(ds) >= num <==> OneOwner(w)
  {
    hide RolesFor;
    if MaxMasters(ds) >= num {
      var i := MaxMeansAll(ds, zone, num);
      forall j | 0 <= j < num ensures w[j] == i {
        assert Visits(rounds, rounds[j].inst.name);
        assert IsMaster(ds[i], rounds[j].inst.name);
      }
    }
    if OneOwner(w) {
      assert w[0] == w[0] >= 0;
      forall n | n in InstNames(zone, num) ensures IsMaster(ds[w[0]], n) {
        var j :| 0 <= j < num && rounds[j].inst.name == n;
        assert w[j] == w[0];
      }
      AllMeansMax(ds, zone, num, w[0]);
    }
  }

  lemma {:induction false} OwnersInBounds(cs: seq<Client>, rounds: seq<Round>, carried: int, j: nat)
    requires carried >= -1 && j < |rounds|
    ensures -1 <= Owners(cs, rounds, carried)[j] < |cs|
    decreases j
  {
    if j > 0 {
      var inst := rounds[0].inst;
      if LiveMaster(cs, inst.name) { OwnersInBounds(cs, rounds[1..], -1, j - 1); }
      else { OwnersInBounds(cs, rounds[1..], Elect(cs, inst.name, NextHint(carried, inst)).hint, j - 1); }
    }
  }

  // A pass that does not reset leaves every instance with its owner, so that the
  // rebalance it leaves due can be told beforehand.
  lemma RebalanceDueIff(cs: seq<Client>, cfg: Config, p: seq<Round>, zone: string)
    requires RolesFor(cs, zone, cfg.numInst) && cfg.setRoles && Safe(cs) && cfg.numInst > 0
    requires Steady(cs, p, zone, cfg.numInst) && !NeedsRebalance(cs, cfg)
    ensures AllFit(|cs|, p)
    ensures var ds, w := Pass(cs, cfg, p).clients, Owners(cs, p, 0);
      && (forall j :: 0 <= j < |p| ==> Mastered(ds, p[j].inst.name, w[j]))
      && (NeedsRebalance(ds, cfg) <==> cfg.exclIPAM && CountLive(cs) >= cfg.numInst && OneOwner(w))
  {
    hide RunRounds, SelectInst, Settled, MaxMasters, CountLive, OneOwner, Owners, QuietRounds, Mastered;
    SteadyIsQuiet(cs, p, zone, cfg.numInst);
    QuietPass(cs, cfg, p, zone);
    var ds, w := Pass(cs, cfg, p).clients, Owners(cs, p, 0);
    AtMostOneAfter(cs, ds, zone, cfg.numInst);
    forall j | 0 <= j < |p| ensures w[j] < |ds| && Mastered(ds, p[j].inst.name, w[j]) {
      OwnersInBounds(cs, p, 0, j);
      OwnersAreMasters(cs, cs, p, 0, j);
    }
    MaxIffOneOwner(ds, p, w, zone, cfg.numInst);
    SameCount(cs, ds);
  }

  // One pass suffices, for every order of the next, if and only if it begins with
  // the reset, or rebalancing is off or has too few live clients, or fewer than
  // two clients can serve, or the instances get different owners, or the one
  // instance goes to the first client that can serve it.
  lemma OnePassSufficesIff(cs: seq<Client>, cfg: Config, p: seq<Round>, later: seq<Round>, zone: string)
    requires RolesFor(cs, zone, cfg.numInst) && cfg.setRoles && Safe(cs)
    requires Steady(cs, p, zone, cfg.numInst) && Steady(cs, later, zone, cfg.numInst)
    ensures AllFit(|cs|, p) && AllFit(|cs|, later)
    ensures var ds, w := Pass(cs, cfg, p).clients, Owners(cs, p, 0);
      Pass(ds, cfg, later).clients == ds <==>
        || NeedsRebalance(cs, cfg) || !cfg.exclIPAM || CountLive(cs) < cfg.numInst
        || cfg.numInst == 0 || !TwoElectable(cs) || !OneOwner(w)
        || (cfg.numInst == 1 && w[0] >= 0 && FirstElectable(cs, w[0]))
  {
    hide Pass, Steady, MaxMasters, CountLive, OneOwner, Owners, TwoElectable, FirstElectable, RolesFor, Safe;
    SecondPassIdleIff(cs, cfg, p, later, zone);
    var ds, w := Pass(cs, cfg, p).clients, Owners(cs, p, 0);
    if !NeedsRebalance(cs, cfg) && cfg.numInst > 0 {
      RebalanceDueIff(cs, cfg, p, zone);
      SafeOne(cs);
      QuietPass(cs, cfg, p, zone);
      NothingToMoveIff(cs, ds, p, w, zone, cfg.numInst);
    }
  }

  lemma SafeOne(cs: seq<Client>)
    requires Safe(cs)
    ensures forall inst :: AtMostOne(cs, inst)
  {
  }

  lemma NothingToMoveIff(cs: seq<Client>, ds: seq<Client>, p: seq<Round>, w: seq<int>, zone: string, num: nat)
    requires SameMembers(cs, ds) && Live(cs) == Live(ds) && num > 0 && |p| == |w| && Steady(cs, p, zone, num)
    requires forall j :: 0 <= j < |p| ==> Mastered(ds, p[j].inst.name, w[j])
    ensures NothingToMove(ds, zone, num) <==> !TwoElectable(cs) || (num == 1 && w[0] >= 0 && FirstElectable(cs, w[0]))
  {
    AlikeElectable(cs, ds);
    if num == 1 {
      OneInstanceOneOrder(cs, p, zone, 1);
      assert Mastered(ds, p[0].inst.name, w[0]);
    }
  }

  // ---------- the visiting order, written out ----------

  // Client i comes before client m when counting cyclically from start.
  predicate Precedes(start: nat, i: nat, m: nat)
  {
    if start <= m then start <= i < m else start <= i || i < m
  }

  ghost predicate HasLiveMaster(cs: seq<Client>, inst: string)
  {
    exists i :: 0 <= i < |cs| && IsMaster(cs[i], inst) && cs[i].alive
  }

  // The turn of an instance: no result when it has a live master or nobody can
  // serve it; otherwise the first client that can. It counts from the instance's
  // number when nothing came before or the result before was client 0, and from
  // the client after the result before otherwise; past the end, from 0.
  ghost predicate IsTurn(cs: seq<Client>, inst: Inst, before: int, m: int)
  {
    if HasLiveMaster(cs, inst.name) || !exists i :: 0 <= i < |cs| && Electable(cs[i]) then m == -1
    else
      var from := if before == 0 then inst.id else before + 1;
      && 0 <= m < |cs| && Electable(cs[m])
      && forall i :: 0 <= i < |cs| && Precedes(if 0 <= from < |cs| then from else 0, i, m) ==> !Electable(cs[i])
  }

  // The results of all turns, each from the one before.
  ghost predicate AreTurns(cs: seq<Client>, rounds: seq<Round>, before: int, w: seq<int>)
  {
    |w| == |rounds| && forall j :: 0 <= j < |w| ==> IsTurn(cs, rounds[j].inst, Prior(before, w, j), w[j])
  }

  function Prior(before: int, w: seq<int>, j: nat): int
    requires j < |w|
  {
    if j == 0 then before else w[j - 1]
  }

  lemma ElectIsFirst(cs: seq<Client>, inst: string, hint: nat)
    ensures var m := Elect(cs, inst, hint).hint;
      if !exists i :: 0 <= i < |cs| && Electable(cs[i]) then m == -1
      else && 0 <= m < |cs| && Electable(cs[m])
           && forall i :: 0 <= i < |cs| && Precedes(if hint < |cs| then hint else 0, i, m) ==> !Electable(cs[i])
  {
    if cs != [] {
      var n, start := |cs|, Start(hint, |cs|);
      ScanIsExhaustive(cs, start);
      var t := FirstTurn(cs, start, 0);
      if t < n {
        var m := At(start, t, n);
        forall i | 0 <= i < n && Precedes(start, i, m) ensures !Electable(cs[i]) {
          AtOfTurn(start, i, n);
          assert Turn(start, i, n) < t;
        }
      }
    }
  }

  lemma FirstIsTurn(cs: seq<Client>, inst: Inst, carried: int)
    requires carried >= -1
    ensures IsTurn(cs, inst, carried, if LiveMaster(cs, inst.name) then -1 else Elect(cs, inst.name, NextHint(carried, inst)).hint)
  {
    hide Elect, Electable;
    ElectIsFirst(cs, inst.name, NextHint(carried, inst));
  }

  lemma TurnsMore(cs: seq<Client>, rounds: seq<Round>, carried: int, m: int, rest: seq<int>)
    requires rounds != [] && IsTurn(cs, rounds[0].inst, carried, m) && AreTurns(cs, rounds[1..], m, rest)
    ensures AreTurns(cs, rounds, carried, [m] + rest)
  {
    hide IsTurn;
    var w := [m] + rest;
    forall j | 1 <= j < |w| ensures IsTurn(cs, rounds[j].inst, Prior(carried, w, j), w[j]) {
      assert rounds[1..][j - 1] == rounds[j] && Prior(m, rest, j - 1) == Prior(carried, w, j);
    }
  }

  lemma {:induction false} OwnersTakeTurns(cs: seq<Client>, rounds: seq<Round>, carried: int) returns (w: seq<int>)
    requires carried >= -1
    ensures AreTurns(cs, rounds, carried, w)
    ensures forall j :: 0 <= j < |w| && !HasLiveMaster(cs, rounds[j].inst.name) ==> w[j] == Owners(cs, rounds, carried)[j]
    decreases |rounds|
  {
    hide Elect, Electable, IsMaster, LiveOwner, IsTurn;
    w := [];
    if rounds != [] {
      var inst := rounds[0].inst;
      var m := if LiveMaster(cs, inst.name) then -1 else Elect(cs, inst.name, NextHint(carried, inst)).hint;
      FirstIsTurn(cs, inst, carried);
      var rest := OwnersTakeTurns(cs, rounds[1..], m);
      TurnsMore(cs, rounds, carried, m, rest);
      w := [m] + rest;
      assert forall j :: 1 <= j < |w| ==> rounds[1..][j - 1] == rounds[j];
    }
  }

  // A turn elects exactly when its instance has no live master and somebody can
  // serve it.
  lemma {:induction false} SelectedIff(cs: seq<Client>, ds: seq<Client>, rounds: seq<Round>, carried: int)
    requires QuietRounds(ds, rounds) && AllFit(|ds|, rounds) && Alike(cs, ds, rounds) && carried >= -1
    ensures RunRounds(ds, rounds, carried).selected <==>
      SomeElectable(cs) && exists j :: 0 <= j < |rounds| && !HasLiveMaster(cs, rounds[j].inst.name)
    decreases |rounds|
  {
    hide SelectInst, Elect, Owners, Mastered, LiveOwner, SomeElectable, Electable;
    if rounds != [] {
      var hint, n, rest := NextHint(carried, rounds[0].inst), rounds[0].inst.name, rounds[1..];
      var s := SelectInst(ds, rounds[0], hint);
      TurnOwner(ds, rounds[0], hint);
      QuietRoundsStep(ds, rounds, hint);
      AlikeElectable(cs, ds);
      SameSome(cs, ds);
      SameLiveMaster(cs, ds, n);
      StillAlike(cs, ds, s.clients, rounds);
      SelectedIff(cs, s.clients, rest, s.hint);
      assert forall j :: 0 < j < |rounds| ==> rest[j - 1] == rounds[j];
    }
  }

  lemma SameLiveMaster(cs: seq<Client>, ds: seq<Client>, n: string)
    requires SameRoles(cs, ds, n) && Live(cs) == Live(ds)
    ensures LiveMaster(ds, n) == HasLiveMaster(cs, n)
  {
    assert forall i :: 0 <= i < |cs| ==> cs[i].alive == Live(cs)[i] && ds[i].alive == Live(ds)[i];
  }

  lemma KeepsLiveMaster(cs: seq<Client>, rounds: seq<Round>, n: string)
    requires QuietRounds(cs, rounds) && AllFit(|cs|, rounds) && Visits(rounds, n) && HasLiveMaster(cs, n)
    ensures SameRoles(cs, RunRounds(cs, rounds, 0).clients, n)
  {
    hide RunRounds;
    LiveMasterIsSettled(cs, n);
    QuietRoundsSettle(cs, rounds, 0);
  }

  // Each instance keeps its live master or gets the result of its turn.
  ghost predicate Outcome(bs: seq<Client>, ds: seq<Client>, p: seq<Round>, w: seq<int>)
    requires |p| == |w|
  {
    forall j :: 0 <= j < |p| ==>
      if HasLiveMaster(bs, p[j].inst.name) then SameRoles(bs, ds, p[j].inst.name) else Mastered(ds, p[j].inst.name, w[j])
  }

  lemma RunTakesTurns(bs: seq<Client>, p: seq<Round>) returns (w: seq<int>)
    requires QuietRounds(bs, p) && AllFit(|bs|, p)
    ensures AreTurns(bs, p, 0, w) && Outcome(bs, RunRounds(bs, p, 0).clients, p, w)
    ensures RunRounds(bs, p, 0).selected <==> exists j :: 0 <= j < |w| && w[j] >= 0
  {
    hide RunRounds, Owners, QuietRounds, Mastered, IsTurn, HasLiveMaster;
    w := OwnersTakeTurns(bs, p, 0);
    forall j | 0 <= j < |p|
      ensures if HasLiveMaster(bs, p[j].inst.name) then SameRoles(bs, RunRounds(bs, p, 0).clients, p[j].inst.name)
              else Mastered(RunRounds(bs, p, 0).clients, p[j].inst.name, w[j])
    {
      if HasLiveMaster(bs, p[j].inst.name) { KeepsLiveMaster(bs, p, p[j].inst.name); }
      else { OwnersAreMasters(bs, bs, p, 0, j); }
    }
    SelectedIff(bs, bs, p, 0);
    ResultsIff(bs, p, w);
  }

  // What a quiet pass does, from the clients after a due reset; a publish is
  // asked for exactly when some turn has a result.
  lemma PassTakesTurns(cs: seq<Client>, cfg: Config, p: seq<Round>, zone: string) returns (w: seq<int>)
    requires RolesFor(cs, zone, cfg.numInst) && cfg.setRoles && Safe(cs) && Steady(cs, p, zone, cfg.numInst)
    ensures AllFit(|cs|, p)
    ensures var bs, s := if NeedsRebalance(cs, cfg) then Cleared(cs) else cs, Pass(cs, cfg, p);
      AreTurns(bs, p, 0, w) && Outcome(bs, s.clients, p, w) && (s.selected <==> exists j :: 0 <= j < |w| && w[j] >= 0)
  {
    hide RunRounds, MaxMasters, CountLive, QuietRounds, Cleared, AreTurns, Outcome;
    SteadyIsQuiet(cs, p, zone, cfg.numInst);
    BlankStart(cs, p, zone, cfg.numInst);
    w := RunTakesTurns(Rebalance(cs, cfg), p);
  }

  lemma ResultsIff(cs: seq<Client>, rounds: seq<Round>, w: seq<int>)
    requires AreTurns(cs, rounds, 0, w)
    ensures (exists j :: 0 <= j < |w| && w[j] >= 0) <==>
      SomeElectable(cs) && exists j :: 0 <= j < |rounds| && !HasLiveMaster(cs, rounds[j].inst.name)
  {
    hide Electable, HasLiveMaster;
    forall j | 0 <= j < |w|
      ensures w[j] >= 0 <==> SomeElectable(cs) && !HasLiveMaster(cs, rounds[j].inst.name)
    {
      assert IsTurn(cs, rounds[j].inst, Prior(0, w, j), w[j]);
    }
  }

  // So from no roles, where every client can serve, the instance visited first
  // goes to the client of its own number.
  lemma FirstGoesToItsNumber(cs: seq<Client>, cfg: Config, p: seq<Round>, zone: string)
    requires RolesFor(cs, zone, cfg.numInst) && cfg.setRoles && Steady(cs, p, zone, cfg.numInst)
    requires (forall i :: 0 <= i < |cs| ==> Electable(cs[i])) && forall i, n :: 0 <= i < |cs| ==> !IsMaster(cs[i], n)
    requires p != [] && p[0].inst.id < |cs|
    ensures AllFit(|cs|, p) && Mastered(Pass(cs, cfg, p).clients, p[0].inst.name, p[0].inst.id)
  {
    hide RunRounds, Pass, Steady, RolesFor, Mastered, Safe, NeedsRebalance, Cleared, Electable, IsTurn;
    NoRolesAtAll(cs, cfg);
    var w := PassTakesTurns(cs, cfg, p, zone);
    var bs := if NeedsRebalance(cs, cfg) then Cleared(cs) else cs;
    assert IsTurn(bs, p[0].inst, Prior(0, w, 0), w[0]);
    ItsNumber(bs, p[0].inst, w[0]);
  }

  lemma NoRolesAtAll(cs: seq<Client>, cfg: Config)
    requires (forall i :: 0 <= i < |cs| ==> Electable(cs[i])) && forall i, n :: 0 <= i < |cs| ==> !IsMaster(cs[i], n)
    ensures var bs := if NeedsRebalance(cs, cfg) then Cleared(cs) else cs;
      Safe(cs) && (forall i :: 0 <= i < |bs| ==> Electable(bs[i])) && forall i, n :: 0 <= i < |bs| ==> !IsMaster(bs[i], n)
  {
    hide NeedsRebalance;
    ClearedMasters(cs);
    assert forall i :: 0 <= i < |cs| ==> Electable(Cleared(cs)[i]) == Electable(cs[i]);
    assert forall n, i :: 0 <= i < |cs| ==> !IsMaster(cs[i], n);
    assert forall n :: AtMostOne(cs, n);
  }

  lemma ItsNumber(bs: seq<Client>, inst: Inst, m: int)
    requires (forall i :: 0 <= i < |bs| ==> Electable(bs[i])) && forall i :: 0 <= i < |bs| ==> !IsMaster(bs[i], inst.name)
    requires inst.id < |bs| && IsTurn(bs, inst, 0, m)
    ensures m == inst.id
  {
    assert Electable(bs[inst.id]) && !HasLiveMaster(bs, inst.name);
    assert m != inst.id ==> Precedes(inst.id, inst.id, m);
  }

  // ---------- one turn, whatever the liveness ----------

  // Some client, first client k, lacks the instance: nobody is elected, the next
  // turn counts from its own number, and only dead masters before k are demoted.
  lemma MissingEntryStops(cs: seq<Client>, r: Round, hint: nat, k: nat)
    requires Fits(|cs|, r) && k < |cs| && r.inst.name !in cs[k].roles && forall i :: 0 <= i < k ==> r.inst.name in cs[i].roles
    ensures var s := SelectInst(cs, r, hint);
      && !s.selected && s.hint == 0
      && forall i :: 0 <= i < |cs| ==> (IsMaster(s.clients[i], r.inst.name) <==> IsMaster(cs[i], r.inst.name) && (i >= k || r.before[i]))
  {
    var seen := WithLive(cs, r.before);
    assert forall i :: 0 <= i < |cs| ==> seen[i].roles == cs[i].roles;
    assert FirstMissing(seen, r.inst.name) == k;
    DemotedMasters(seen, r.inst.name, k);
  }

  // A live master, seen by the first loop, is left alone. Otherwise the second
  // loop elects the first client from the hint on that it sees alive and that is
  // not excluded, if there is one.
  lemma TurnIs(cs: seq<Client>, r: Round, hint: nat)
    requires Fits(|cs|, r) && AtMostOne(cs, r.inst.name) && forall i :: 0 <= i < |cs| ==> r.inst.name in cs[i].roles
    ensures var s, n := SelectInst(cs, r, hint), r.inst.name;
      if exists i :: 0 <= i < |cs| && IsMaster(cs[i], n) && r.before[i] then !s.selected && s.hint == -1 && SameRoles(cs, s.clients, n)
      else
        && (s.selected <==> exists i :: 0 <= i < |cs| && r.mid[i] && !cs[i].noRole)
        && Mastered(s.clients, n, s.hint)
        && (s.selected ==>
              && 0 <= s.hint < |cs| && r.mid[s.hint] && !cs[s.hint].noRole
              && forall i :: 0 <= i < |cs| && Precedes(if hint < |cs| then hint else 0, i, s.hint) ==> !(r.mid[i] && !cs[i].noRole))
  {
    hide Elect, Mastered, AtMostOne, FirstMissing, Electable, Precedes, Demoted;
    var n, seen := r.inst.name, WithLive(cs, r.before);
    assert forall i :: 0 <= i < |cs| ==> seen[i].roles == cs[i].roles && seen[i].alive == r.before[i];
    AllPresent(seen, n);
    OneLiveOrNone(cs, r.before, n);
    DemotedMasters(seen, n, |cs|);
    if !LiveMaster(seen, n) { ElectionAfter(cs, r, hint); }
  }

  // The election that follows the demotion of the masters seen dead.
  lemma ElectionAfter(cs: seq<Client>, r: Round, hint: nat)
    requires Fits(|cs|, r) && forall i :: 0 <= i < |cs| ==> r.inst.name in cs[i].roles
    requires !LiveMaster(WithLive(cs, r.before), r.inst.name)
    ensures var s := Elect(WithLive(Demoted(WithLive(cs, r.before), r.inst.name, |cs|), r.mid), r.inst.name, hint);
      && (s.selected <==> exists i :: 0 <= i < |cs| && r.mid[i] && !cs[i].noRole)
      && Mastered(s.clients, r.inst.name, s.hint)
      && (s.selected ==>
            && 0 <= s.hint < |cs| && r.mid[s.hint] && !cs[s.hint].noRole
            && forall i :: 0 <= i < |cs| && Precedes(if hint < |cs| then hint else 0, i, s.hint) ==> !(r.mid[i] && !cs[i].noRole))
  {
    hide Elect, Mastered, Precedes;
    var n, seen := r.inst.name, WithLive(cs, r.before);
    DemotedMasters(seen, n, |cs|);
    var again := WithLive(Demoted(seen, n, |cs|), r.mid);
    assert forall i :: 0 <= i < |cs| ==> !IsMaster(again[i], n) && n in again[i].roles;
    assert forall i :: 0 <= i < |cs| ==> Electable(again[i]) == (r.mid[i] && !cs[i].noRole);
    ElectedMasters(again, n, hint);
    ElectIsFirst(again, n, hint);
  }

  lemma AllPresent(cs: seq<Client>, n: string)
    requires forall i :: 0 <= i < |cs| ==> n in cs[i].roles
    ensures FirstMissing(cs, n) == |cs|
  {
  }

  lemma OneLiveOrNone(cs: seq<Client>, live: seq<bool>, n: string)
    requires AtMostOne(cs, n) && |live| == |cs|
    ensures LiveMaster(WithLive(cs, live), n) ==> !DeadMaster(WithLive(cs, live), n)
  {
    var seen := WithLive(cs, live);
    assert forall i :: 0 <= i < |cs| ==> IsMaster(seen[i], n) == IsMaster(cs[i], n);
  }

  // ---------- when a rebalance is due ----------

  lemma LiveMore(cs: seq<Client>)
    requires cs != []
    ensures var n := |cs| - 1;
      (set i: nat | i < |cs| && cs[i].alive) == (set i: nat | i < n && cs[..n][i].alive) + if cs[n].alive then {n} else {}
  {
    var n := |cs| - 1;
    assert forall i :: 0 <= i < n ==> cs[..n][i] == cs[i];
  }

  lemma NobodyLives(cs: seq<Client>)
    ensures cs == [] ==> |set i: nat | i < |cs| && cs[i].alive| == 0
  {
    var now := set i: nat | i < |cs| && cs[i].alive;
    assert cs == [] ==> now == {};
  }

  lemma {:induction false} CountLiveCounts(cs: seq<Client>)
    ensures CountLive(cs) == |set i: nat | i < |cs| && cs[i].alive|
  {
    NobodyLives(cs);
    if cs != [] {
      CountLiveCounts(cs[..|cs| - 1]);
      LiveMore(cs);
    }
  }

  // The reset is due if and only if rebalancing is on, as many clients live as
  // there are instances, and some client is master of them all.
  lemma RebalanceIff(cs: seq<Client>, cfg: Config, zone: string)
    requires RolesFor(cs, zone, cfg.numInst) && cfg.numInst > 0
    ensures NeedsRebalance(cs, cfg) <==>
      && cfg.exclIPAM && |set i: nat | i < |cs| && cs[i].alive| >= cfg.numInst
      && exists i :: 0 <= i < |cs| && forall n :: n in InstNames(zone, cfg.numInst) ==> IsMaster(cs[i], n)
  {
    hide CountLive, MaxMasters, RolesFor, InstNames;
    CountLiveCounts(cs);
    if MaxMasters(cs) >= cfg.numInst {
      var i := MaxMeansAll(cs, zone, cfg.numInst);
      assert MasterOfAll(cs[i], zone, cfg.numInst);
    } else {
      forall i | 0 <= i < |cs| && forall n :: n in InstNames(zone, cfg.numInst) ==> IsMaster(cs[i], n) ensures false {
        AllMeansMax(cs, zone, cfg.numInst, i);
      }
    }
  }

  // With fewer live clients than instances no live master loses its role.
  lemma TooFewLiveIsSticky(cs: seq<Client>, cfg: Config, p: seq<Round>, zone: string, i: nat, n: string)
    requires RolesFor(cs, zone, cfg.numInst) && cfg.setRoles && Safe(cs) && Steady(cs, p, zone, cfg.numInst)
    requires |set i: nat | i < |cs| && cs[i].alive| < cfg.numInst
    requires i < |cs| && IsMaster(cs[i], n) && cs[i].alive
    ensures AllFit(|cs|, p) && IsMaster(Pass(cs, cfg, p).clients[i], n)
  {
    hide RunRounds, Steady, RolesFor, MaxMasters, CountLive;
    CountLiveCounts(cs);
    QuietPass(cs, cfg, p, zone);
    LiveMasterIsSettled(cs, n);
  }
}
