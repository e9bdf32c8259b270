// The loxilb clients a manager holds, as values, and the names of the zone
// instances they take roles for (pkg/api/client.go).

module Names {
  import opened IPText

  const INFIX := "-inst"

  // The zone an agent serves unless it is told otherwise (CIDefaultZone).
  const DEFAULT_ZONE := "llb"

  function GenZoneInstName(zone: string, id: nat): (name: string)
  {
    zone + INFIX + Digits(id)
  }

  // An instance name is the zone, "-inst" and the number in decimal.
  lemma InstNameReads(zone: string, id: nat) returns (digits: string)
    ensures GenZoneInstName(zone, id) == zone + "-inst" + digits && IsDecimal(digits) && Number(digits, 10) == id
  {
    digits := Digits(id);
    DigitsRead(id);
  }

  // No two (zone, id) pairs share an instance name, for any zone text at all,
  // even one that itself looks like an instance name.
  lemma ZoneInstNameInjective(zone: string, id: nat, zone': string, id': nat)
    requires GenZoneInstName(zone, id) == GenZoneInstName(zone', id')
    ensures zone == zone' && id == id'
  {
    LastDash(zone, id);
    LastDash(zone', id');
    var n := GenZoneInstName(zone, id);
    assert |zone| == |zone'|;
    assert zone == n[..|zone|] && zone' == n[..|zone'|];
    assert Digits(id) == n[|zone| + |INFIX|..] && Digits(id') == n[|zone'| + |INFIX|..];
    DigitsRead(id);
    DigitsRead(id');
  }

  // The dash that opens "-inst" is the last one in an instance name.
  lemma LastDash(zone: string, id: nat)
    ensures var n := GenZoneInstName(zone, id);
      |zone| < |n| && n[|zone|] == '-' && forall j :: |zone| < j < |n| ==> n[j] != '-'
  {
    hide Digits;
    DigitsRead(id);
    var n := GenZoneInstName(zone, id);
    assert forall j :: |zone| + |INFIX| <= j < |n| ==> n[j] == Digits(id)[j - |zone| - |INFIX|];
    assert forall j :: |zone| <= j < |zone| + |INFIX| ==> n[j] == INFIX[j - |zone|];
  }
}

module Clients {
  import opened Names

  // What a LoxiClient holds that arbitration, discovery and the LoxiURL
  // resource look at. roles is InstRoles: instance name -> MasterLB.
  datatype Client = Client(url: string, host: string, name: string,
                           alive: bool, noRole: bool, roles: map<string, bool>)

  datatype Inst = Inst(name: string, id: nat)

  // zoneInstRoleMap, in order of instID.
  function ZoneInsts(zone: string, num: nat): (insts: seq<Inst>)
    ensures |insts| == num
    ensures forall i :: 0 <= i < num ==> insts[i] == Inst(GenZoneInstName(zone, i), i)
  {
    seq(num, i requires 0 <= i => Inst(GenZoneInstName(zone, i), i))
  }

  // The names the constructor of a client registers roles under.
  function InstNames(zone: string, num: nat): (names: set<string>)
  {
    set i | 0 <= i < num :: GenZoneInstName(zone, i)
  }

  lemma InstNamesGrow(zone: string, num: nat)
    ensures var last := GenZoneInstName(zone, num);
      InstNames(zone, num + 1) == InstNames(zone, num) + {last} && last !in InstNames(zone, num)
  {
    hide GenZoneInstName;
    forall i | 0 <= i < num ensures GenZoneInstName(zone, i) != GenZoneInstName(zone, num) {
      if GenZoneInstName(zone, i) == GenZoneInstName(zone, num) { ZoneInstNameInjective(zone, i, zone, num); }
    }
  }

  lemma {:induction false} InstNamesCount(zone: string, num: nat)
    ensures |InstNames(zone, num)| == num
    decreases num
  {
    hide GenZoneInstName;
    if num > 0 {
      InstNamesCount(zone, num - 1);
      InstNamesGrow(zone, num - 1);
    }
  }

  // NewLoxiClient: not yet alive, master of nothing; an empty name defaults to
  // the host.
  function NewClient(url: string, host: string, name: string, noRole: bool, zone: string, num: nat): (c: Client)
  {
    Client(url, host, if name == "" then host else name, false, noRole,
           map n | n in InstNames(zone, num) :: false)
  }

  predicate IsMaster(c: Client, inst: string)
  {
    inst in c.roles && c.roles[inst]
  }

  predicate Electable(c: Client)
  {
    c.alive && !c.noRole
  }
}
