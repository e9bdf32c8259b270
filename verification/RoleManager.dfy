// The arbitration loops, working in place on client objects
// (pkg/agent/manager/loadbalancer/loadbalancer.go:2226-2331, 2353-2399).
// Each method is proved to compute the function of the same name in Election.

module RoleManager {
  import opened Names
  import opened Clients
  import Election
  import opened ElectionProperties
  import opened Basics

  class LoxiClient {
    const url: string
    const host: string
    const name: string
    const noRole: bool
    var isAlive: bool
    var purge: bool
    var instRoles: map<string, bool>

    ghost function Value(): Client
      reads this
    {
      Client(url, host, name, isAlive, noRole, instRoles)
    }

    // NewLoxiClient, for an address that parses.
    constructor (url: string, host: string, name: string, noRole: bool, zone: string, num: nat)
      ensures Value() == NewClient(url, host, name, noRole, zone, num) && !purge
    {
      hide GenZoneInstName;
      this.url, this.host, this.noRole := url, host, noRole;
      this.name := if name == "" then host else name;
      var roles: map<string, bool> := map[];
      for i := 0 to num
        invariant roles == map n | n in InstNames(zone, i) :: false
      {
        assert InstNames(zone, i + 1) == InstNames(zone, i) + {GenZoneInstName(zone, i)};
        roles := roles[GenZoneInstName(zone, i) := false];
      }
      isAlive, purge, instRoles := false, false, roles;
    }

    // How many instances this client is master of.
    method CountMaster() returns (n: nat)
      ensures n == |Election.Held(Value())|
    {
      n := 0;
      var todo := instRoles.Keys;
      ghost var seen: set<string> := {};
      while todo != {}
        invariant todo + seen == instRoles.Keys && todo !! seen
        invariant n == |set x | x in seen && instRoles[x]|
        decreases |todo|
      {
        var x :| x in todo;
        ghost var before := set y | y in seen && instRoles[y];
        ghost var after := set y | y in seen + {x} && instRoles[y];
        assert after == if instRoles[x] then before + {x} else before;
        if instRoles[x] {
          n := n + 1;
        }
        todo, seen := todo - {x}, seen + {x};
      }
      assert seen == instRoles.Keys;
      assert Election.Held(Value()) == set x | x in seen && instRoles[x];
    }

    method ClearMaster()
      modifies this`instRoles
      ensures Value() == Election.ClearRoles(old(Value()))
    {
      var todo := instRoles.Keys;
      while todo != {}
        invariant instRoles.Keys == old(instRoles.Keys) && todo <= instRoles.Keys
        invariant forall x :: x in instRoles && x !in todo ==> !instRoles[x]
        decreases |todo|
      {
        var x :| x in todo;
        if instRoles[x] {
          instRoles := instRoles[x := false];
        }
        todo := todo - {x};
      }
    }
  }

  // One CIStatus call: client i is told its state for an instance.
  datatype Told = Told(client: nat, inst: string, master: bool)

  class Manager {
    var clients: seq<LoxiClient>
    var electionRunOnce: bool
    const cfg: Election.Config
    const zone: string

    ghost predicate Valid()
      reads this
    {
      forall i, j :: 0 <= i < j < |clients| ==> clients[i] != clients[j]
    }

    ghost function View(): (cs: seq<Client>)
      reads this, clients
      ensures |cs| == |clients|
      ensures forall i :: 0 <= i < |cs| ==> cs[i] == clients[i].Value()
    {
      seq(|clients|, i requires 0 <= i < |clients| reads this, clients => clients[i].Value())
    }

    // Health checks settle on new liveness values.
    method Observe(live: seq<bool>)
      requires Valid() && |live| == |clients|
      modifies clients
      ensures View() == Election.WithLive(old(View()), live)
    {
      for i := 0 to |clients|
        invariant forall k :: 0 <= k < |clients| ==>
          clients[k].Value() == if k < i then old(View())[k].(alive := live[k]) else old(View())[k]
      {
        clients[i].isAlive := live[i];
      }
    }

    // vi.MasterLB = master, for client i.
    method SetMaster(i: nat, inst: string, master: bool)
      requires Valid() && i < |clients|
      modifies clients[i]
      ensures View() == old(View())[i := Election.SetRole(old(View())[i], inst, master)]
    {
      clients[i].instRoles := clients[i].instRoles[inst := master];
    }

    static lemma DemotedStep(was: seq<Client>, inst: string, i: nat)
      requires i < |was|
      ensures Election.Demoted(was, inst, i)[i] == was[i]
      ensures Election.DeadMaster(was[..i + 1], inst) ==
        (Election.DeadMaster(was[..i], inst) || (IsMaster(was[i], inst) && !was[i].alive))
      ensures Election.LiveMaster(was[..i + 1], inst) ==
        (Election.LiveMaster(was[..i], inst) || (IsMaster(was[i], inst) && was[i].alive))
      ensures Election.Demoted(was, inst, i + 1) == Election.Demoted(was, inst, i)[i := Election.Demote(was[i], inst)]
    {
    }

    // One turn of the demotion loop, for a client that has the role entry.
    method DemoteTurn(i: nat, inst: string) returns (dead: bool, master: bool)
      requires Valid() && i < |clients| && inst in clients[i].instRoles
      modifies clients[i]
      ensures View() == old(View())[i := Election.Demote(old(View())[i], inst)]
      ensures dead == (IsMaster(old(View())[i], inst) && !old(View())[i].alive)
      ensures master == (IsMaster(old(View())[i], inst) && old(View())[i].alive)
    {
      var v := clients[i];
      dead, master := false, false;
      if v.instRoles[inst] && !v.isAlive {
        SetMaster(i, inst, false);
        dead := true;
      } else if v.instRoles[inst] {
        master := true;
      }
    }

    // The first loop of SelectInstLoxiLBRoles.
    method DemoteDead(inst: string) returns (missing: bool, reElect: bool, hasMaster: bool)
      requires Valid()
      modifies clients
      ensures var n := Election.FirstMissing(old(View()), inst);
        && missing == (n < |clients|)
        && View() == Election.Demoted(old(View()), inst, n)
      ensures !missing ==> reElect == Election.DeadMaster(old(View()), inst)
      ensures !missing ==> hasMaster == Election.LiveMaster(old(View()), inst)
    {
      ghost var was := View();
      missing, reElect, hasMaster := false, false, false;
      assert !Election.DeadMaster(was[..0], inst) && !Election.LiveMaster(was[..0], inst);
      assert Election.Demoted(was, inst, 0) == was;
      hide Election.Demoted, Election.Demote, Election.FirstMissing, Election.DeadMaster, Election.LiveMaster;
      var i := 0;
      while i < |clients|
        invariant 0 <= i <= |clients|
        invariant View() == Election.Demoted(was, inst, i)
        invariant i <= Election.FirstMissing(was, inst)
        invariant reElect == Election.DeadMaster(was[..i], inst)
        invariant hasMaster == Election.LiveMaster(was[..i], inst)
      {
        DemotedStep(was, inst, i);
        if inst !in clients[i].instRoles {
          missing := true;
          return;
        }
        var dead, master := DemoteTurn(i, inst);
        reElect, hasMaster := reElect || dead, hasMaster || master;
        i := i + 1;
      }
      assert was[..i] == was;
    }

    // The clients after the first nproc turns of the election loop.
    static ghost function Voted(was: seq<Client>, inst: string, start: nat, t: nat, nproc: nat): (cs: seq<Client>)
      requires was == [] || start < |was|
      ensures |cs| == |was|
    {
      seq(|was|, k requires 0 <= k < |was| =>
        var u := Election.Turn(start, k, |was|);
        if u < nproc then Election.Vote(was[k], inst, u, t) else was[k])
    }

    static lemma VotedNone(was: seq<Client>, inst: string, start: nat, t: nat)
      requires was == [] || start < |was|
      ensures Voted(was, inst, start, t, 0) == was
    {
    }

    static lemma VotedStep(was: seq<Client>, inst: string, start: nat, t: nat, nproc: nat)
      requires start < |was| && nproc < |was|
      ensures var i, now := Election.At(start, nproc, |was|), Voted(was, inst, start, t, nproc);
        && i < |was| && now[i] == was[i]
        && Voted(was, inst, start, t, nproc + 1) == now[i := Election.Vote(was[i], inst, nproc, t)]
    {
    }

    static lemma FirstIndex(start: nat, n: nat)
      requires start < n
      ensures Election.At(start, 0, n) == start
    {
    }

    static lemma NobodyVotes(was: seq<Client>, inst: string, hint: nat)
      requires was == []
      ensures Election.Elect(was, inst, hint) == Election.Selection(was, false, -1)
    {
    }

    static lemma NextIndex(start: nat, t: nat, n: nat)
      requires start < n && t < n
      ensures Election.At(start, t, n) < n
      ensures t + 1 < n ==>
        Election.At(start, t + 1, n) == if Election.At(start, t, n) + 1 >= n then 0 else Election.At(start, t, n) + 1
    {
    }

    static lemma VotedAll(was: seq<Client>, inst: string, hint: nat, t: nat)
      requires was != [] && t == Election.FirstTurn(was, Election.Start(hint, |was|), 0)
      ensures var start := Election.Start(hint, |was|);
        Election.Elect(was, inst, hint) ==
        Election.Selection(Voted(was, inst, start, t, |was|), t < |was|, if t < |was| then Election.At(start, t, |was|) else -1)
    {
    }

    // One turn of the election loop.
    method VoteTurn(i: nat, inst: string, selMaster: bool) returns (won: bool)
      requires Valid() && i < |clients|
      modifies clients[i]
      ensures won == (!selMaster && Electable(old(View())[i]))
      ensures View() == old(View())[i :=
        if won || (selMaster && !clients[i].noRole) then Election.SetRole(old(View())[i], inst, won)
        else old(View())[i]]
    {
      won := false;
      var v := clients[i];
      if v.noRole {
      } else if selMaster {
        SetMaster(i, inst, false);
      } else if v.isAlive {
        SetMaster(i, inst, true);
        won := true;
      }
    }

    // The second loop of SelectInstLoxiLBRoles: a cyclic scan from the hint.
    method ElectFrom(inst: string, hint: nat) returns (selMaster: bool, sel: int)
      requires Valid()
      modifies clients
      ensures Election.Elect(old(View()), inst, hint) == Election.Selection(View(), selMaster, sel)
    {
      hide Voted, Election.Elect, Election.Elected, Election.FirstTurn, Election.Turn, Election.At, Election.SetRole, View;
      ghost var was, n := View(), |clients|;
      ghost var start := Election.Start(hint, n);
      ghost var t := if n == 0 then 0 else Election.FirstTurn(was, start, 0);
      selMaster, sel := false, -1;
      VotedNone(was, inst, start, t);
      if n > 0 { FirstIndex(start, n); }
      var i, nproc := hint, 0;
      while nproc < |clients|
        invariant 0 <= nproc <= n && i >= 0
        invariant nproc < n ==> (if i >= n then 0 else i) == Election.At(start, nproc, n)
        invariant selMaster == (t < nproc)
        invariant sel == if selMaster then Election.At(start, t, n) else -1
        invariant View() == Voted(was, inst, start, t, nproc)
      {
        VotedStep(was, inst, start, t, nproc);
        NextIndex(start, nproc, n);
        nproc := nproc + 1;
        if i >= |clients| {
          i := 0;
        }
        var won := VoteTurn(i, inst, selMaster);
        if won {
          selMaster, sel := true, i;
        }
        i := i + 1;
      }
      if n > 0 {
        VotedAll(was, inst, hint, t);
      } else {
        NobodyVotes(was, inst, hint);
      }
    }

    // SelectInstLoxiLBRoles; r carries the liveness each loop reads.
    method SelectInst(r: Election.Round, hint: nat) returns (selMaster: bool, sel: int)
      requires Valid() && Election.Fits(|clients|, r)
      modifies clients
      ensures Election.SelectInst(old(View()), r, hint) == Election.Selection(View(), selMaster, sel)
    {
      Observe(r.before);
      var missing, reElect, hasMaster := DemoteDead(r.inst.name);
      if missing {
        return false, 0;
      }
      Observe(r.mid);
      selMaster, sel := false, -1;
      if reElect || !hasMaster {
        selMaster, sel := ElectFrom(r.inst.name, hint);
      }
    }

    // ResetRolesOnNeedRebalanceInstLoxiLBRoles.
    method ResetIfNeeded() returns (reset: bool)
      requires Valid()
      modifies clients
      ensures reset == Election.NeedsRebalance(old(View()), cfg)
      ensures View() == Election.Rebalance(old(View()), cfg)
    {
      ghost var was := View();
      var active, most := 0, 0;
      for i := 0 to |clients|
        invariant View() == was
        invariant active == Election.CountLive(was[..i]) && most == Election.MaxMasters(was[..i])
      {
        assert was[..i + 1][..i] == was[..i] && was[..i + 1][i] == clients[i].Value();
        if clients[i].isAlive {
          active := active + 1;
        }
        var n := clients[i].CountMaster();
        if n > most {
          most := n;
        }
      }
      assert was[..|was|] == was;
      reset := active >= cfg.numInst && most >= cfg.numInst && cfg.exclIPAM;
      if reset {
        ClearAll();
      }
    }

    method ClearAll()
      requires Valid()
      modifies clients
      ensures View() == Election.Cleared(old(View()))
    {
      for i := 0 to |clients|
        invariant forall k :: 0 <= k < |clients| ==>
          clients[k].Value() == if k < i then Election.ClearRoles(old(View())[k]) else old(View())[k]
      {
        clients[i].ClearMaster();
      }
    }

    // SelectLoxiLBRoles. The iteration order of the instance map and the
    // liveness each turn sees are the caller's choice of rounds; signal says
    // whether a publish sweep is requested.
    method SelectRoles(rounds: seq<Election.Round>, sendSig: bool) returns (signal: bool)
      requires Valid() && Election.AllFit(|clients|, rounds)
      modifies this`electionRunOnce, clients
      ensures clients == old(clients)
      ensures var s := Election.Pass(old(View()), cfg, rounds);
        && View() == s.clients
        && electionRunOnce == (old(electionRunOnce) || s.selected)
        && signal == (s.selected && sendSig)
      ensures !cfg.setRoles ==> View() == old(View()) && !signal && electionRunOnce == old(electionRunOnce)
    {
      hide Election.SelectInst;
      ghost var goal := Election.Pass(View(), cfg, rounds);
      var selMaster, pselhint := false, 0;
      if cfg.setRoles {
        var _ := ResetIfNeeded();
        var j := 0;
        while j < |rounds|
          invariant 0 <= j <= |rounds| && pselhint >= -1 && clients == old(clients)
          invariant electionRunOnce == old(electionRunOnce)
          invariant var rest := Election.RunRounds(View(), rounds[j..], pselhint);
            goal.clients == rest.clients && goal.selected == (selMaster || rest.selected)
        {
          var inst := rounds[j].inst;
          if pselhint == 0 {
            pselhint := inst.id;
          } else {
            pselhint := pselhint + 1;
          }
          var sel;
          assert rounds[j..][0] == rounds[j] && rounds[j..][1..] == rounds[j + 1..];
          sel, pselhint := SelectInst(rounds[j], pselhint);
          if sel {
            selMaster := true;
          }
          j := j + 1;
        }
      }
      signal := false;
      if selMaster {
        electionRunOnce := true;
        signal := sendSig;
      }
    }

    // The publish sweep: every live client is told its state for each of its
    // instances, and for the default zone's name as well if it serves another zone.
    method Publish() returns (told: seq<Told>)
      ensures forall m :: m in told <==> Published(View(), zone, m)
      ensures (forall i :: 0 <= i < |clients| ==> NoDefault(zone, clients[i].instRoles)) ==> Distinct(told)
    {
      told := [];
      for i := 0 to |clients|
        invariant forall m :: m in told <==> m.client < i && Published(View(), zone, m)
        invariant (forall k :: 0 <= k < i ==> NoDefault(zone, clients[k].instRoles)) ==> Distinct(told)
      {
        if clients[i].isAlive {
          var sent := Tell(i);
          if Distinct(told) && Distinct(sent) { DistinctConcat(told, sent); }
          told := told + sent;
        }
      }
    }

    method Tell(i: nat) returns (told: seq<Told>)
      requires i < |clients| && clients[i].isAlive
      ensures forall m :: m in told <==> m.client == i && Published(View(), zone, m)
      ensures NoDefault(zone, clients[i].instRoles) ==> Distinct(told)
    {
      told := [];
      var roles := clients[i].instRoles;
      var todo := roles.Keys;
      var first, default := GenZoneInstName(zone, 0), GenZoneInstName(DEFAULT_ZONE, 0);
      while todo != {}
        invariant todo <= roles.Keys
        invariant forall m :: m in told <==> m.client == i && SentFor(roles, zone, m, roles.Keys - todo)
        invariant NoDefault(zone, roles) ==> Distinct(told)
        decreases |todo|
      {
        var inst :| inst in todo;
        DistinctSnoc(told, Told(i, default, roles[inst]));
        DistinctSnoc(told, Told(i, inst, roles[inst]));
        DistinctSnoc(told + [Told(i, default, roles[inst])], Told(i, inst, roles[inst]));
        if inst == first && zone != DEFAULT_ZONE {
          told := told + [Told(i, default, roles[inst])];
        }
        told := told + [Told(i, inst, roles[inst])];
        todo := todo - {inst};
      }
    }
  }

  // The default zone's name is not one of another zone's.
  predicate NoDefault(zone: string, roles: map<string, bool>)
  {
    zone != DEFAULT_ZONE ==> GenZoneInstName(DEFAULT_ZONE, 0) !in roles
  }

  ghost predicate SentFor(roles: map<string, bool>, zone: string, m: Told, names: set<string>)
    requires names <= roles.Keys
  {
    || (m.inst in names && m.master == roles[m.inst])
    || (var first := GenZoneInstName(zone, 0);
        && zone != DEFAULT_ZONE && m.inst == GenZoneInstName(DEFAULT_ZONE, 0)
        && first in names && m.master == roles[first])
  }

  ghost predicate Published(cs: seq<Client>, zone: string, m: Told)
  {
    m.client < |cs| && cs[m.client].alive &&
    SentFor(cs[m.client].roles, zone, m, cs[m.client].roles.Keys)
  }

  // No two live clients are told MASTER for one instance in a sweep, under the
  // default zone's name either: that name is never a name of another zone.
  lemma OneMasterTold(cs: seq<Client>, zone: string, num: nat, a: Told, b: Told)
    requires Safe(cs) && RolesFor(cs, zone, num)
    requires Published(cs, zone, a) && Published(cs, zone, b)
    requires a.inst == b.inst && a.master && b.master
    ensures a.client == b.client && !cs[a.client].noRole
  {
    var first := GenZoneInstName(zone, 0);
    if a.inst == GenZoneInstName(DEFAULT_ZONE, 0) && zone != DEFAULT_ZONE {
      forall i | 0 <= i < num ensures GenZoneInstName(zone, i) != a.inst {
        if GenZoneInstName(zone, i) == a.inst { ZoneInstNameInjective(zone, i, DEFAULT_ZONE, 0); }
      }
      assert AtMostOne(cs, first) && IsMaster(cs[a.client], first) && IsMaster(cs[b.client], first);
    } else {
      assert AtMostOne(cs, a.inst) && IsMaster(cs[a.client], a.inst) && IsMaster(cs[b.client], b.inst);
    }
  }
}
