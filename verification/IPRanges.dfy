// Membership in an address range (pkg/ippool/ippool.go:153-195).

module IPRanges {
  import opened Bits

  type Octet = n: nat | n < 256

  // A parsed address: sixteen octets, an IPv4 one in the last four.
  type Address = a: seq<Octet> | |a| == 16 witness [0, 0, 0, 0, 0, 0, 0, 0, 0, 0, 0, 0, 0, 0, 0, 0]

  const NOT_ABOVE := 0xffff_ffff_ffff_ffff

  // The four octets the loop looks at.
  function Offset(isV4: bool): nat
  {
    if isV4 then 12 else 0
  }

  // uint64 shift: bits pushed out are lost.
  function ShiftLeft(x: nat, n: nat): nat
  {
    if n >= 64 then 0 else x * Pow2(n) % 0x1_0000_0000_0000_0000
  }

  // What the loop computes: each round forgets the one before, so only the last
  // octet's distance remains.
  function Distance(base: Address, ip: Address, isV4: bool): nat
  {
    var o := Offset(isV4);
    if exists j :: o <= j < o + 4 && base[j] > ip[j] then NOT_ABOVE else ip[o + 3] - base[o + 3]
  }

  lemma {:induction false} OrSame(x: nat)
    ensures Or(x, x) == x
  {
    if x > 0 { OrSame(x / 2); }
  }

  lemma LastShift(x: Octet, isV4: bool)
    ensures ShiftLeft(x, 8 * ((if isV4 then 4 else 16) - 3 - 1)) == if isV4 then x else 0
  {
  }

  lemma LastRound(x: Octet, isV4: bool)
    ensures Or(x, ShiftLeft(x, 8 * ((if isV4 then 4 else 16) - 3 - 1))) == x
  {
    hide Or, ShiftLeft, Pow2;
    LastShift(x, isV4);
    if isV4 { OrSame(x); } else { OrZero(x, 0); }
  }

  method DiffIPIndex(base: Address, ip: Address, isV4: bool) returns (index: nat)
    ensures index == Distance(base, ip, isV4)
  {
    hide Or, ShiftLeft;
    index := 0;
    var ipLen := if isV4 then 4 else 16;
    var arrIndex, arrIndex1 := 16 - ipLen, 16 - ipLen;
    ghost var o := Offset(isV4);
    var i := 0;
    while i < 4 && arrIndex < 16 && arrIndex1 < 16
      invariant 0 <= i <= 4 && arrIndex == arrIndex1 == o + i
      invariant forall j :: o <= j < o + i ==> base[j] <= ip[j]
      invariant i == 4 ==> index == ip[o + 3] - base[o + 3]
    {
      if base[arrIndex] > ip[arrIndex1] { return NOT_ABOVE; }
      var d: Octet := ip[arrIndex1] - base[arrIndex];
      if i == 3 { LastRound(d, isV4); }
      index := Or(d, ShiftLeft(d, 8 * (ipLen - i - 1)));
      arrIndex, arrIndex1, i := arrIndex + 1, arrIndex1 + 1, i + 1;
    }
  }

  predicate InRange(start: Address, last: Address, ip: Address, isV4: bool)
  {
    Distance(start, ip, isV4) <= Distance(start, last, isV4)
  }

  method Contains(start: Address, last: Address, ip: Address, isV4: bool) returns (r: bool)
    ensures r == InRange(start, last, ip, isV4)
  {
    var d1 := DiffIPIndex(start, last, isV4);
    var d2 := DiffIPIndex(start, ip, isV4);
    r := d2 <= d1;
  }

  // Some octet looked at is below the start's.
  predicate Below(start: Address, ip: Address, isV4: bool)
  {
    exists j :: Offset(isV4) <= j < Offset(isV4) + 4 && ip[j] < start[j]
  }

  // What the check accepts, for any two ends: everything when an octet of the
  // last address is below the start's; otherwise what is nowhere below the start
  // and not above the last address in the fourth octet.
  lemma InRangeIff(start: Address, last: Address, ip: Address, isV4: bool)
    ensures var o := Offset(isV4);
      InRange(start, last, ip, isV4) <==> Below(start, last, isV4) || (!Below(start, ip, isV4) && ip[o + 3] <= last[o + 3])
  {
  }

  // ---------- against the order of addresses ----------

  // An IPv4 address as a number.
  function Value(a: Address): nat
  {
    var w: nat, x: nat, y: nat, z: nat := a[12], a[13], a[14], a[15];
    ((w * 256 + x) * 256 + y) * 256 + z
  }

  predicate Between(start: Address, last: Address, ip: Address)
  {
    Value(start) <= Value(ip) <= Value(last)
  }

  predicate SameBlock(a: Address, b: Address)
  {
    a[12..15] == b[12..15]
  }

  lemma Blocks(a: Address, b: Address)
    ensures SameBlock(a, b) <==> a[12] == b[12] && a[13] == b[13] && a[14] == b[14]
  {
    assert a[12..15] == [a[12], a[13], a[14]] && b[12..15] == [b[12], b[13], b[14]];
  }

  lemma ValueOrder(a: Address, b: Address)
    requires !SameBlock(a, b)
    ensures Value(a) < Value(b) <==>
      a[12] < b[12] || (a[12] == b[12] && (a[13] < b[13] || (a[13] == b[13] && a[14] < b[14])))
  {
  }

  lemma BelowIs(start: Address, ip: Address)
    ensures Below(start, ip, true) <==>
      ip[12] < start[12] || ip[13] < start[13] || ip[14] < start[14] || ip[15] < start[15]
  {
    var low := ip[12] < start[12] || ip[13] < start[13] || ip[14] < start[14] || ip[15] < start[15];
    assert low ==> Below(start, ip, true);
  }

  // For a range inside one /24, the check is right about an address exactly
  // when it is in that block, or some octet is below the start's, or the last
  // octet is above the range's end.
  lemma RightIff(start: Address, last: Address, ip: Address)
    requires SameBlock(start, last) && start[15] <= last[15]
    ensures (InRange(start, last, ip, true) <==> Between(start, last, ip)) <==>
      SameBlock(start, ip) || Below(start, ip, true) || ip[15] > last[15]
  {
    Blocks(start, last);
    Blocks(start, ip);
    BelowIs(start, last);
    BelowIs(start, ip);
    InRangeIff(start, last, ip, true);
    if !SameBlock(start, ip) { OutsideBlock(start, last, ip); }
  }

  lemma OutsideBlock(start: Address, last: Address, ip: Address)
    requires SameBlock(start, last) && !SameBlock(start, ip)
    ensures !Between(start, last, ip)
  {
    Blocks(start, last);
    Blocks(start, ip);
    Blocks(ip, last);
    ValueOrder(start, ip);
    ValueOrder(ip, last);
  }

  // ---------- ranges the check is right about everywhere ----------

  function V4(a: Octet, b: Octet, c: Octet, d: Octet): Address
  {
    [0, 0, 0, 0, 0, 0, 0, 0, 0, 0, 255, 255, a, b, c, d]
  }

  // The range is a tail of the address space, or lies in its last /24.
  predicate IsTail(start: Address, last: Address)
  {
    && last[12] == last[13] == last[14] == 255 && start[15] <= last[15]
    && (start[12] < 255 ==> start[13] == 0) && (start[13] < 255 ==> start[14] == 0) && (start[14] < 255 ==> start[15] == 0)
    && (last[15] == 255 || start[12] == start[13] == start[14] == 255)
  }

  lemma TailIsRight(start: Address, last: Address, ip: Address)
    requires IsTail(start, last)
    ensures InRange(start, last, ip, true) <==> Between(start, last, ip)
  {
    hide InRange, Below;
    InRangeIff(start, last, ip, true);
    BelowIs(start, last);
    BelowIs(start, ip);
  }

  // An address the check is wrong about.
  lemma OtherIsWrong(start: Address, last: Address) returns (ip: Address)
    requires !IsTail(start, last)
    ensures InRange(start, last, ip, true) != Between(start, last, ip)
  {
    hide InRange, Below;
    BelowIs(start, last);
    ip :=
      if Below(start, last, true) then V4(0, 0, 0, 0)
      else if !(last[12] == last[13] == last[14] == 255) then V4(255, 255, 255, start[15])
      else if start[14] < 255 && start[15] > 0 then V4(start[12], start[13], start[14] + 1, 0)
      else if start[13] < 255 && start[14] > 0 then V4(start[12], start[13] + 1, 0, 0)
      else if start[12] < 255 && start[13] > 0 then V4(start[12] + 1, 0, 0, 0)
      else V4(start[12], start[13], start[14], 255);
    BelowIs(start, ip);
    InRangeIff(start, last, ip, true);
  }

  // The check agrees with the order of addresses, on every IPv4 address, exactly
  // for those ranges.
  lemma RightEverywhereIff(start: Address, last: Address)
    ensures (forall ip: Address :: InRange(start, last, ip, true) <==> Between(start, last, ip)) <==> IsTail(start, last)
  {
    hide InRange, Between, IsTail;
    if IsTail(start, last) {
      forall ip: Address ensures InRange(start, last, ip, true) <==> Between(start, last, ip) { TailIsRight(start, last, ip); }
    } else {
      var ip := OtherIsWrong(start, last);
    }
  }
}
