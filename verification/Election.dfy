// Arbitration of master roles among loxilb clients, as functions on the client
// list: SelectInstLoxiLBRoles, ResetRolesOnNeedRebalanceInstLoxiLBRoles and
// SelectLoxiLBRoles (pkg/agent/manager/loadbalancer/loadbalancer.go:2226-2331).
// RoleManager.dfy holds the loops that work in place and are proved to compute
// these functions; ElectionProperties.dfy proves what arbitration promises.

module Election {
  import opened Clients

  // One instance's turn in a pass. Health checks run concurrently with the
  // pass and a loop reads each client's liveness at most once, so every
  // interleaving is covered by letting liveness change before either loop:
  // before is what the demotion loop reads, mid what the election loop reads.
  datatype Round = Round(inst: Inst, before: seq<bool>, mid: seq<bool>)

  datatype Selection = Selection(clients: seq<Client>, selected: bool, hint: int)

  datatype Config = Config(setRoles: bool, exclIPAM: bool, numInst: nat)

  predicate Fits(n: nat, r: Round)
  {
    |r.before| == n && |r.mid| == n
  }

  predicate AllFit(n: nat, rounds: seq<Round>)
  {
    forall j :: 0 <= j < |rounds| ==> Fits(n, rounds[j])
  }

  function Live(cs: seq<Client>): (l: seq<bool>)
    ensures |l| == |cs|
  {
    seq(|cs|, i requires 0 <= i < |cs| => cs[i].alive)
  }

  function WithLive(cs: seq<Client>, l: seq<bool>): (r: seq<Client>)
    requires |l| == |cs|
    ensures |r| == |cs|
  {
    seq(|cs|, i requires 0 <= i < |cs| => cs[i].(alive := l[i]))
  }

  function SetRole(c: Client, inst: string, master: bool): Client
  {
    c.(roles := c.roles[inst := master])
  }

  // The first client that has no role entry for the instance, or |cs|.
  function FirstMissing(cs: seq<Client>, inst: string): (k: nat)
    ensures k <= |cs|
    ensures forall i :: 0 <= i < k ==> inst in cs[i].roles
    ensures k < |cs| ==> inst !in cs[k].roles
  {
    if cs == [] || inst !in cs[0].roles then 0 else 1 + FirstMissing(cs[1..], inst)
  }

  function Demote(c: Client, inst: string): Client
  {
    if IsMaster(c, inst) && !c.alive then SetRole(c, inst, false) else c
  }

  // The demotion loop, run over the first n clients.
  function Demoted(cs: seq<Client>, inst: string, n: nat): (r: seq<Client>)
    requires n <= |cs|
    ensures |r| == |cs|
  {
    seq(|cs|, i requires 0 <= i < |cs| =>
      if i < n then Demote(cs[i], inst) else cs[i])
  }

  predicate DeadMaster(cs: seq<Client>, inst: string)
  {
    exists i :: 0 <= i < |cs| && IsMaster(cs[i], inst) && !cs[i].alive
  }

  predicate LiveMaster(cs: seq<Client>, inst: string)
  {
    exists i :: 0 <= i < |cs| && IsMaster(cs[i], inst) && cs[i].alive
  }

  // Cyclic order from a hint: a hint past the end starts over at 0.
  function Start(hint: nat, n: nat): nat
  {
    if hint < n then hint else 0
  }

  // The index visited on turn t, and the turn on which an index is visited.
  function At(start: nat, t: nat, n: nat): nat
    requires start < n && t < n
  {
    if start + t < n then start + t else start + t - n
  }

  function Turn(start: nat, i: nat, n: nat): nat
    requires start < n && i < n
  {
    if start <= i then i - start else i + n - start
  }

  // The first turn from t on that meets an electable client, or |cs|.
  function FirstTurn(cs: seq<Client>, start: nat, t: nat): (k: nat)
    requires start < |cs| && t <= |cs|
    ensures t <= k <= |cs|
    ensures k < |cs| ==> Electable(cs[At(start, k, |cs|)])
    ensures forall u :: t <= u < k ==> !Electable(cs[At(start, u, |cs|)])
    decreases |cs| - t
  {
    if t == |cs| || Electable(cs[At(start, t, |cs|)]) then t else FirstTurn(cs, start, t + 1)
  }

  // What the election loop makes of a client visited on turn u when turn t wins.
  function Vote(c: Client, inst: string, u: nat, t: nat): Client
  {
    if u == t then SetRole(c, inst, true)
    else if u > t && !c.noRole then SetRole(c, inst, false)
    else c
  }

  // The election loop: the winner becomes master; eligible clients visited
  // after it lose the role.
  function Elected(cs: seq<Client>, inst: string, start: nat, t: nat): (r: seq<Client>)
    requires start < |cs| && t < |cs|
    ensures |r| == |cs|
  {
    seq(|cs|, i requires 0 <= i < |cs| =>
      Vote(cs[i], inst, Turn(start, i, |cs|), t))
  }

  function Elect(cs: seq<Client>, inst: string, hint: nat): (s: Selection)
    ensures |s.clients| == |cs| && s.hint >= -1
  {
    if cs == [] then Selection(cs, false, -1)
    else
      var start := Start(hint, |cs|);
      var t := FirstTurn(cs, start, 0);
      if t == |cs| then Selection(cs, false, -1)
      else Selection(Elected(cs, inst, start, t), true, At(start, t, |cs|))
  }

  function SelectInst(cs: seq<Client>, r: Round, hint: nat): (s: Selection)
    requires Fits(|cs|, r)
    ensures |s.clients| == |cs| && s.hint >= -1
  {
    var seen := WithLive(cs, r.before);
    var n := FirstMissing(seen, r.inst.name);
    var demoted := Demoted(seen, r.inst.name, n);
    if n < |cs| then Selection(demoted, false, 0)
    else
      var again := WithLive(demoted, r.mid);
      if DeadMaster(seen, r.inst.name) || !LiveMaster(seen, r.inst.name)
      then Elect(again, r.inst.name, hint)
      else Selection(again, false, -1)
  }

  function CountLive(cs: seq<Client>): nat
  {
    if cs == [] then 0 else (if cs[|cs| - 1].alive then 1 else 0) + CountLive(cs[..|cs| - 1])
  }

  function Held(c: Client): (names: set<string>)
    ensures names <= c.roles.Keys
  {
    set n | n in c.roles && c.roles[n]
  }

  function MaxMasters(cs: seq<Client>): (m: nat)
  {
    if cs == [] then 0 else
      var m := MaxMasters(cs[..|cs| - 1]);
      var held := |Held(cs[|cs| - 1])|;
      if held > m then held else m
  }

  predicate NeedsRebalance(cs: seq<Client>, cfg: Config)
  {
    CountLive(cs) >= cfg.numInst && MaxMasters(cs) >= cfg.numInst && cfg.exclIPAM
  }

  function ClearRoles(c: Client): Client
  {
    c.(roles := map n | n in c.roles :: false)
  }

  function Cleared(cs: seq<Client>): (r: seq<Client>)
    ensures |r| == |cs|
  {
    seq(|cs|, i requires 0 <= i < |cs| => ClearRoles(cs[i]))
  }

  function Rebalance(cs: seq<Client>, cfg: Config): (r: seq<Client>)
    ensures |r| == |cs|
  {
    if NeedsRebalance(cs, cfg) then Cleared(cs) else cs
  }

  // The hint an instance's turn starts from, given the one carried over.
  function NextHint(carried: int, inst: Inst): (h: nat)
    requires carried >= -1
  {
    if carried == 0 then inst.id else carried + 1
  }

  // A pass over the instances in some iteration order.
  function RunRounds(cs: seq<Client>, rounds: seq<Round>, carried: int): (s: Selection)
    requires carried >= -1
    requires AllFit(|cs|, rounds)
    ensures |s.clients| == |cs| && s.hint >= -1
    decreases |rounds|
  {
    if rounds == [] then Selection(cs, false, carried)
    else
      var s := SelectInst(cs, rounds[0], NextHint(carried, rounds[0].inst));
      var rest := RunRounds(s.clients, rounds[1..], s.hint);
      rest.(selected := s.selected || rest.selected)
  }

  // SelectLoxiLBRoles.
  function Pass(cs: seq<Client>, cfg: Config, rounds: seq<Round>): (s: Selection)
    requires AllFit(|cs|, rounds)
    ensures |s.clients| == |cs|
  {
    if cfg.setRoles then RunRounds(Rebalance(cs, cfg), rounds, 0)
    else Selection(cs, false, 0)
  }
}
