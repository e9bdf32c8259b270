// The address generator of pkg/ippool/generater.go: a lock-free counter whose
// low bits walk through an IPv4 block (section 3.1 of RFC 4632).

module Bits {
  function Pow2(n: nat): (p: nat)
    ensures p > 0
  {
    if n == 0 then 1 else 2 * Pow2(n - 1)
  }

  // Bitwise operations on unsigned integers, bit by bit.
  function And(x: nat, y: nat): nat
  {
    if x == 0 || y == 0 then 0 else 2 * And(x / 2, y / 2) + (if x % 2 == 1 && y % 2 == 1 then 1 else 0)
  }

  function Or(x: nat, y: nat): nat
  {
    if x == 0 then y else if y == 0 then x
    else 2 * Or(x / 2, y / 2) + (if x % 2 == 1 || y % 2 == 1 then 1 else 0)
  }

  lemma {:induction false} Pow2Add(m: nat, n: nat)
    ensures Pow2(m + n) == Pow2(m) * Pow2(n)
    decreases m
  {
    if m > 0 { Pow2Add(m - 1, n); }
  }

  lemma AndZero(x: nat, y: nat)
    requires x == 0 || y == 0
    ensures And(x, y) == 0
  {
  }

  // The last bit and the rest, zero included.
  lemma AndUnfold(x: nat, y: nat)
    ensures And(x, y) == 2 * And(x / 2, y / 2) + if x % 2 == 1 && y % 2 == 1 then 1 else 0
  {
    if x == 0 || y == 0 { AndZero(x / 2, y / 2); }
  }

  lemma AndOdd(x: nat, z: nat)
    ensures And(x, 2 * z + 1) == 2 * And(x / 2, z) + x % 2
  {
    hide And;
    AndUnfold(x, 2 * z + 1);
    assert (2 * z + 1) / 2 == z && (2 * z + 1) % 2 == 1;
  }

  // Masking with k ones keeps the remainder modulo 2^k.
  lemma {:induction false} AndOnes(x: nat, k: nat)
    ensures And(x, Pow2(k) - 1) == x % Pow2(k)
    decreases k
  {
    hide And;
    if k == 0 {
      AndZero(x, 0);
    } else {
      var p := Pow2(k - 1);
      AndOnes(x / 2, k - 1);
      HalfMod(x, p);
      AndOdd(x, p - 1);
      assert Pow2(k) - 1 == 2 * (p - 1) + 1;
    }
  }

  lemma HalfMod(x: nat, p: nat)
    requires p > 0
    ensures x % (2 * p) == 2 * ((x / 2) % p) + x % 2
  {
    var q, r := x / 2 / p, x / 2 % p;
    assert x == 2 * (q * p + r) + x % 2 == q * (2 * p) + (2 * r + x % 2);
    ModIs(q, 2 * p, 2 * r + x % 2);
  }

  lemma ModIs(q: nat, b: nat, t: nat)
    requires t < b
    ensures (q * b + t) % b == t && (q * b + t) / b == q
  {
    var x := q * b + t;
    var d := x / b - q;
    assert (d >= 1 ==> d * b >= b) && (d <= -1 ==> d * b <= 0 - b);
    assert x == (x / b) * b + x % b;
    assert d * b == (x / b) * b - q * b;
  }

  // Or of a multiple of 2^k and something below 2^k is their sum.
  lemma {:induction false} OrDisjoint(q: nat, k: nat, y: nat)
    requires y < Pow2(k)
    ensures Or(q * Pow2(k), y) == q * Pow2(k) + y
    decreases k
  {
    hide Or;
    if k > 0 {
      var p := Pow2(k - 1);
      assert q * (2 * p) == 2 * (q * p);
      OrDisjoint(q, k - 1, y / 2);
      OrUnfold(q * Pow2(k), y);
      assert 2 * (q * p) / 2 == q * p && 2 * (q * p) % 2 == 0;
    } else {
      OrZero(q, 0);
    }
  }

  lemma OrZero(x: nat, y: nat)
    ensures x == 0 ==> Or(x, y) == y
    ensures y == 0 ==> Or(x, y) == x
  {
  }

  lemma OrUnfold(x: nat, y: nat)
    ensures Or(x, y) == 2 * Or(x / 2, y / 2) + if x % 2 == 1 || y % 2 == 1 then 1 else 0
  {
    if x == 0 || y == 0 { OrZero(x / 2, y / 2); }
  }

  // Or works on the two halves of a number separately, for halves of 1, 2, 4
  // and 8 bits.
  lemma OrSplit1(x: nat, y: nat)
    ensures Or(x, y) == 2 * Or(x / 2, y / 2) + Or(x % 2, y % 2)
  {
    hide Or;
    OrUnfold(x, y);
    OrUnfold(x % 2, y % 2);
    OrZero(x % 2 / 2, y % 2 / 2);
  }

  lemma OrSplit2(x: nat, y: nat)
    ensures Or(x, y) == 4 * Or(x / 4, y / 4) + Or(x % 4, y % 4)
  {
    hide Or;
    OrSplit1(x, y);
    OrSplit1(x / 2, y / 2);
    OrSplit1(x % 4, y % 4);
    assert x / 2 / 2 == x / 4 && y / 2 / 2 == y / 4;
    assert x / 2 % 2 == x % 4 / 2 && y / 2 % 2 == y % 4 / 2;
  }

  lemma OrSplit4(x: nat, y: nat)
    ensures Or(x, y) == 16 * Or(x / 16, y / 16) + Or(x % 16, y % 16)
  {
    hide Or;
    OrSplit2(x, y);
    OrSplit2(x / 4, y / 4);
    OrSplit2(x % 16, y % 16);
    assert x / 4 / 4 == x / 16 && y / 4 / 4 == y / 16;
    assert x / 4 % 4 == x % 16 / 4 && y / 4 % 4 == y % 16 / 4;
  }

  lemma OrSplit8(x: nat, y: nat)
    ensures Or(x, y) == 256 * Or(x / 256, y / 256) + Or(x % 256, y % 256)
  {
    hide Or;
    OrSplit4(x, y);
    OrSplit4(x / 16, y / 16);
    OrSplit4(x % 256, y % 256);
    assert x / 16 / 16 == x / 256 && y / 16 / 16 == y / 256;
    assert x / 16 % 16 == x % 256 / 16 && y / 16 % 16 == y % 256 / 16;
  }

  lemma AndSplit1(x: nat, y: nat)
    ensures And(x, y) == 2 * And(x / 2, y / 2) + And(x % 2, y % 2)
  {
    hide And;
    AndUnfold(x, y);
    AndUnfold(x % 2, y % 2);
    AndZero(x % 2 / 2, y % 2 / 2);
  }

  lemma AndSplit2(x: nat, y: nat)
    ensures And(x, y) == 4 * And(x / 4, y / 4) + And(x % 4, y % 4)
  {
    hide And;
    AndSplit1(x, y);
    AndSplit1(x / 2, y / 2);
    AndSplit1(x % 4, y % 4);
    assert x / 2 / 2 == x / 4 && y / 2 / 2 == y / 4;
    assert x / 2 % 2 == x % 4 / 2 && y / 2 % 2 == y % 4 / 2;
  }

  lemma AndSplit4(x: nat, y: nat)
    ensures And(x, y) == 16 * And(x / 16, y / 16) + And(x % 16, y % 16)
  {
    hide And;
    AndSplit2(x, y);
    AndSplit2(x / 4, y / 4);
    AndSplit2(x % 16, y % 16);
    assert x / 4 / 4 == x / 16 && y / 4 / 4 == y / 16;
    assert x / 4 % 4 == x % 16 / 4 && y / 4 % 4 == y % 16 / 4;
  }

  lemma AndSplit8(x: nat, y: nat)
    ensures And(x, y) == 256 * And(x / 256, y / 256) + And(x % 256, y % 256)
  {
    hide And;
    AndSplit4(x, y);
    AndSplit4(x / 16, y / 16);
    AndSplit4(x % 256, y % 256);
    assert x / 16 / 16 == x / 256 && y / 16 / 16 == y / 256;
    assert x / 16 % 16 == x % 256 / 16 && y / 16 % 16 == y % 256 / 16;
  }

  // (x & (m << 8)) >> 8 is (x >> 8) & m.
  lemma AndShift8(x: nat, m: nat)
    ensures And(x, 256 * m) == 256 * And(x / 256, m)
  {
    hide And;
    AndSplit8(x, 256 * m);
    AndZero(x % 256, 0);
    assert (256 * m) / 256 == m && (256 * m) % 256 == 0;
  }
}

module IPGenerator {
  import opened Bits

  const WORD := 0x1_0000_0000

  datatype IPv4 = IPv4(a: nat, b: nat, c: nat, d: nat)

  function Value(ip: IPv4): nat
  {
    ((ip.a * 256 + ip.b) * 256 + ip.c) * 256 + ip.d
  }

  predicate IsAddress(ip: IPv4)
  {
    ip.a < 256 && ip.b < 256 && ip.c < 256 && ip.d < 256
  }

  // A parsed CIDR: the network address has no host bits.
  datatype Block = Block(network: IPv4, prefix: nat)

  function Size(blk: Block): (n: nat)
    requires blk.prefix <= 32
    ensures n > 0
  {
    Pow2(32 - blk.prefix)
  }

  predicate IsBlock(blk: Block)
  {
    blk.prefix <= 32 && IsAddress(blk.network) && Value(blk.network) % Size(blk) == 0
  }

  // InitIPGenerater: uint32(0xFFFFFFFF >> maskbit).
  function MaskBits(prefix: nat): nat
  {
    0xFFFF_FFFF / Pow2(prefix)
  }

  function Byte(x: nat): nat
  {
    x % 256
  }

  // What NextIP returns for the ticket it took.
  function AddressFor(blk: Block, counter: nat): IPv4
  {
    var bit := And(counter, MaskBits(blk.prefix));
    IPv4(Byte(Or(blk.network.a, And(bit, 0xFF00_0000) / 0x100_0000)),
         Byte(Or(blk.network.b, And(bit, 0x00FF_0000) / 0x1_0000)),
         Byte(Or(blk.network.c, And(bit, 0x0000_FF00) / 0x100)),
         Byte(Or(blk.network.d, And(bit, 0x0000_00FF))))
  }

  // Or on the bytes, most significant first, of two words.
  function OrEach(ip: IPv4, h: nat): IPv4
  {
    IPv4(Byte(Or(ip.a, h / 0x100_0000)), Byte(Or(ip.b, h / 0x1_0000)), Byte(Or(ip.c, h / 0x100)), Byte(Or(ip.d, h)))
  }

  // GetBroadcastIP.
  function Broadcast(blk: Block): IPv4
  {
    OrEach(blk.network, MaskBits(blk.prefix))
  }

  lemma MaskIsOnes(prefix: nat)
    requires prefix <= 32
    ensures MaskBits(prefix) == Pow2(32 - prefix) - 1
  {
    hide Pow2;
    Pow2Add(32 - prefix, prefix);
    Pow2Is32();
    var p, q := Pow2(prefix), Pow2(32 - prefix) - 1;
    assert 0xFFFF_FFFF == q * p + (p - 1) by { assert (q + 1) * p == q * p + p; }
    ModIs(q, p, p - 1);
  }

  lemma Pow2Is32()
    ensures Pow2(32) == WORD
  {
    assert Pow2(8) == 256;
    Pow2Add(8, 8);
    Pow2Add(16, 16);
  }

  lemma OneByte(x: nat)
    ensures And(x, 0xFF) == x % 256
  {
    assert Pow2(8) == 256;
    AndOnes(x, 8);
  }

  // Picking byte j of a word with a mask and a shift.
  lemma PickBytes(x: nat)
    ensures And(x, 0xFF00) / 0x100 == x / 0x100 % 256
    ensures And(x, 0xFF_0000) / 0x1_0000 == x / 0x1_0000 % 256
    ensures And(x, 0xFF00_0000) / 0x100_0000 == x / 0x100_0000 % 256
  {
    hide And;
    OneByte(x / 0x100);
    OneByte(x / 0x1_0000);
    OneByte(x / 0x100_0000);
    AndShift8(x, 0xFF);
    AndShift8(x, 0xFF00);
    AndShift8(x / 256, 0xFF);
    AndShift8(x, 0xFF_0000);
    AndShift8(x / 256, 0xFF00);
    AndShift8(x / 256 / 256, 0xFF);
    assert x / 256 / 256 == x / 0x1_0000 && x / 256 / 256 / 256 == x / 0x100_0000;
  }

  // The bytes of a word.
  lemma Digits(ip: IPv4)
    requires IsAddress(ip)
    ensures var v := Value(ip);
      && v % 256 == ip.d && v / 256 % 256 == ip.c && v / 0x1_0000 % 256 == ip.b && v / 0x100_0000 == ip.a
  {
    var hi := ip.a * 256 + ip.b;
    assert Value(ip) / 256 == hi * 256 + ip.c;
    Shifts(Value(ip));
    assert (hi * 256 + ip.c) / 256 == hi && hi / 256 == ip.a;
  }

  lemma Shifts(x: nat)
    ensures x / 256 / 256 == x / 0x1_0000 && x / 0x1_0000 / 256 == x / 0x100_0000
  {
  }

  // Or on the four bytes is Or on the words.
  lemma OrBytes(ip: IPv4, h: nat)
    requires IsAddress(ip) && h < WORD
    ensures Value(OrEach(ip, h)) == Or(Value(ip), h)
  {
    hide Or, Value;
    var v := Value(ip);
    Digits(ip);
    Shifts(v);
    Shifts(h);
    OrSplit8(v, h);
    OrSplit8(v / 256, h / 256);
    OrSplit8(v / 0x1_0000, h / 0x1_0000);
    ByteOr(ip.a, h / 0x100_0000);
    ByteOr(ip.b, h / 0x1_0000);
    ByteOr(ip.c, h / 0x100);
    ByteOr(ip.d, h);
    SumUp(OrEach(ip, h));
  }

  lemma SumUp(ip: IPv4)
    ensures Value(ip) == 256 * (256 * (256 * ip.a + ip.b) + ip.c) + ip.d
  {
  }

  lemma ByteOr(x: nat, h: nat)
    requires x < 256
    ensures Byte(Or(x, h)) == Or(x, h % 256) < 256
    ensures Byte(Or(x, h % 256)) == Or(x, h % 256)
  {
    OrSplit8(x, h);
    OrBelow(x, h % 256);
    hide Or;
  }

  lemma OrBelow(x: nat, y: nat)
    requires x < 256 && y < 256
    ensures Or(x, y) < 256
  {
    OrBound(x, y, 8);
    assert Pow2(8) == 256;
  }

  lemma {:induction false} OrBound(x: nat, y: nat, k: nat)
    requires x < Pow2(k) && y < Pow2(k)
    ensures Or(x, y) < Pow2(k)
    decreases k
  {
    hide Or;
    if k > 0 {
      OrBound(x / 2, y / 2, k - 1);
      OrUnfold(x, y);
    } else {
      OrZero(x, y);
    }
  }

  // The ticket's low bits, added to the network address.
  lemma AddressValue(blk: Block, counter: nat)
    requires IsBlock(blk)
    ensures Value(AddressFor(blk, counter)) == Value(blk.network) + counter % Size(blk)
    ensures IsAddress(AddressFor(blk, counter))
  {
    hide And, Or, Value, AddressFor, OrEach, MaskBits, Pow2, Size;
    var bit := counter % Size(blk);
    AddressIsOr(blk, counter);
    SizeFits(blk.prefix);
    LowBits(blk, counter);
    OrBytes(blk.network, bit);
    OrAligned(blk, bit);
  }

  lemma LowBits(blk: Block, counter: nat)
    requires blk.prefix <= 32
    ensures And(counter, MaskBits(blk.prefix)) == counter % Size(blk) < Size(blk) <= WORD
  {
    hide And, Pow2;
    MaskIsOnes(blk.prefix);
    AndOnes(counter, 32 - blk.prefix);
    SizeFits(blk.prefix);
  }

  lemma AddressIsOr(blk: Block, counter: nat)
    requires IsBlock(blk)
    ensures AddressFor(blk, counter) == OrEach(blk.network, And(counter, MaskBits(blk.prefix)))
    ensures IsAddress(AddressFor(blk, counter))
  {
    hide And, Or, MaskBits;
    SameBytes(blk.network, And(counter, MaskBits(blk.prefix)));
  }

  // Masking each byte before the Or makes no difference.
  lemma SameBytes(ip: IPv4, bit: nat)
    requires IsAddress(ip)
    ensures IPv4(Byte(Or(ip.a, And(bit, 0xFF00_0000) / 0x100_0000)), Byte(Or(ip.b, And(bit, 0x00FF_0000) / 0x1_0000)),
                 Byte(Or(ip.c, And(bit, 0x0000_FF00) / 0x100)), Byte(Or(ip.d, And(bit, 0x0000_00FF)))) == OrEach(ip, bit)
  {
    hide And, Or;
    PickBytes(bit);
    OneByte(bit);
    ByteOr(ip.a, bit / 0x100_0000);
    ByteOr(ip.b, bit / 0x1_0000);
    ByteOr(ip.c, bit / 0x100);
    ByteOr(ip.d, bit);
  }

  lemma SizeFits(prefix: nat)
    requires prefix <= 32
    ensures Pow2(32 - prefix) <= WORD && WORD % Pow2(32 - prefix) == 0
  {
    hide Pow2;
    Pow2Is32();
    Pow2Add(32 - prefix, prefix);
    var b, q := Pow2(32 - prefix), Pow2(prefix);
    assert b * q == q * b + 0 == WORD && b <= q * b;
    ModIs(q, b, 0);
  }

  lemma OrAligned(blk: Block, h: nat)
    requires IsBlock(blk) && h < Size(blk)
    ensures Or(Value(blk.network), h) == Value(blk.network) + h
  {
    hide Or, Pow2, Value;
    var v, b := Value(blk.network), Size(blk);
    assert v == (v / b) * b + v % b;
    OrDisjoint(v / b, 32 - blk.prefix, h);
  }

  lemma BroadcastValue(blk: Block)
    requires IsBlock(blk)
    ensures Value(Broadcast(blk)) == Value(blk.network) + Size(blk) - 1
  {
    hide Or, Pow2, Value, OrEach;
    MaskIsOnes(blk.prefix);
    SizeFits(blk.prefix);
    OrBytes(blk.network, Size(blk) - 1);
    OrAligned(blk, Size(blk) - 1);
  }

  // ---------- many threads in NextIP ----------

  // Where a thread is: outside, holding a counter value it read, or about to
  // read again after a failed compare-and-swap.
  datatype Local = Outside | Holding(seen: nat) | Failed

  // counter is the shared 32-bit word; taken lists the tickets in the order in
  // which compare-and-swaps succeeded.
  datatype Machine = Machine(counter: nat, threads: map<nat, Local>, taken: seq<nat>)

  datatype Action = Load(t: nat) | Cas(t: nat)

  function At(m: Machine, t: nat): Local
  {
    if t in m.threads then m.threads[t] else Outside
  }

  predicate Enabled(m: Machine, act: Action)
  {
    match act
    case Load(t) => !At(m, t).Holding?
    case Cas(t) => At(m, t).Holding?
  }

  // One atomic access by one thread. A successful swap ends the call, which
  // returns AddressFor of the value swapped out.
  function Act(m: Machine, act: Action): Machine
    requires Enabled(m, act)
  {
    match act
    case Load(t) => m.(threads := m.threads[t := Holding(m.counter)])
    case Cas(t) =>
      var seen := At(m, t).seen;
      if m.counter == seen
      then Machine((seen + 1) % WORD, m.threads[t := Outside], m.taken + [seen])
      else m.(threads := m.threads[t := Failed])
  }

  ghost predicate IsRun(ms: seq<Machine>, acts: seq<Action>)
  {
    |ms| == |acts| + 1 && ms[0].counter == 0 && ms[0].taken == [] &&
    forall k :: 0 <= k < |acts| ==> Enabled(ms[k], acts[k]) && ms[k + 1] == Act(ms[k], acts[k])
  }

  // The n-th success took n mod 2^32.
  ghost predicate Sequential(m: Machine)
  {
    m.counter == |m.taken| % WORD && forall n :: 0 <= n < |m.taken| ==> m.taken[n] == n % WORD
  }

  lemma NextTicket(n: nat)
    ensures (n % WORD + 1) % WORD == (n + 1) % WORD
  {
    ModIs(n / WORD, WORD, n % WORD);
  }

  lemma ActKeepsSequential(m: Machine, act: Action)
    requires Enabled(m, act) && Sequential(m)
    ensures Sequential(Act(m, act))
  {
    NextTicket(|m.taken|);
  }

  // So it is under every interleaving.
  lemma {:induction false} TicketsAreSequential(ms: seq<Machine>, acts: seq<Action>, k: nat)
    requires IsRun(ms, acts) && k < |ms|
    ensures ms[k].counter == |ms[k].taken| % WORD
    ensures forall n :: 0 <= n < |ms[k].taken| ==> ms[k].taken[n] == n % WORD
    decreases k
  {
    hide Act;
    if k > 0 {
      TicketsAreSequential(ms, acts, k - 1);
      ActKeepsSequential(ms[k - 1], acts[k - 1]);
    }
  }

  // The one offset from start that lands on a residue.
  function OffsetTo(start: nat, residue: nat, size: nat): (d: nat)
    requires residue < size
    ensures d < size && (start + d) % size == residue
  {
    var q, r := start / size, start % size;
    assert start == q * size + r;
    if residue >= r then
      ModIs(q, size, residue);
      residue - r
    else
      ModIs(q + 1, size, residue);
      assert (q + 1) * size == q * size + size;
      residue + size - r
  }

  lemma OffsetUnique(start: nat, d: nat, e: nat, size: nat)
    requires d < size && e < size && (start + d) % size == (start + e) % size
    ensures d == e
  {
    var x, y := start + d, start + e;
    assert x == (x / size) * size + x % size && y == (y / size) * size + y % size;
    var k := x / size - y / size;
    assert d - e == k * size by { assert k * size == (x / size) * size - (y / size) * size; }
    assert (k >= 1 ==> k * size >= size) && (k <= -1 ==> k * size <= 0 - size);
  }

  // Reducing to 32 bits first does not change the low bits.
  lemma WrapKeepsLowBits(n: nat, blk: Block)
    requires blk.prefix <= 32
    ensures (n % WORD) % Size(blk) == n % Size(blk)
  {
    hide Pow2;
    SizeFits(blk.prefix);
    var b, r := Size(blk), n % WORD;
    var q := WORD / b;
    assert n == (n / WORD) * WORD + r && WORD == q * b && r == (r / b) * b + r % b;
    assert n == ((n / WORD) * q + r / b) * b + r % b by {
      assert (n / WORD) * WORD == ((n / WORD) * q) * b;
      assert ((n / WORD) * q + r / b) * b == ((n / WORD) * q) * b + (r / b) * b;
    }
    ModIs((n / WORD) * q + r / b, b, r % b);
  }

  // The address that the n-th success returns.
  function Ticket(blk: Block, n: nat): IPv4
  {
    AddressFor(blk, n % WORD)
  }

  predicate InBlock(blk: Block, ip: IPv4)
  {
    IsAddress(ip) && Value(blk.network) <= Value(ip) <= Value(Broadcast(blk))
  }

  lemma TicketInBlock(blk: Block, n: nat)
    requires IsBlock(blk)
    ensures InBlock(blk, Ticket(blk, n)) && Value(Ticket(blk, n)) == Value(blk.network) + n % Size(blk)
  {
    hide AddressFor, Value, Broadcast, Size;
    AddressValue(blk, n % WORD);
    WrapKeepsLowBits(n, blk);
    BroadcastValue(blk);
  }

  lemma SameValue(x: IPv4, y: IPv4)
    requires IsAddress(x) && IsAddress(y) && Value(x) == Value(y)
    ensures x == y
  {
    Digits(x);
    Digits(y);
  }

  // Any Size consecutive successes hand out every address of the block exactly
  // once, also across the wrap of the counter.
  lemma WindowCoversBlock(blk: Block, start: nat, ip: IPv4) returns (t: nat)
    requires IsBlock(blk) && InBlock(blk, ip)
    ensures start <= t < start + Size(blk) && Ticket(blk, t) == ip
    ensures forall n :: start <= n < start + Size(blk) && Ticket(blk, n) == ip ==> n == t
  {
    hide AddressFor, Value, Broadcast, Size, Ticket, OffsetTo;
    BroadcastValue(blk);
    t := start + OffsetTo(start, Value(ip) - Value(blk.network), Size(blk));
    TicketInBlock(blk, t);
    SameValue(Ticket(blk, t), ip);
    forall n | start <= n < start + Size(blk) && Ticket(blk, n) == ip ensures n == t {
      TicketInBlock(blk, n);
      OffsetUnique(start, n - start, t - start, Size(blk));
    }
  }

  // The same for the log of a run: any window of successes in it.
  lemma RunCoversBlock(ms: seq<Machine>, acts: seq<Action>, k: nat, blk: Block, start: nat, ip: IPv4) returns (t: nat)
    requires IsRun(ms, acts) && k < |ms| && IsBlock(blk) && InBlock(blk, ip)
    requires start + Size(blk) <= |ms[k].taken|
    ensures start <= t < start + Size(blk) && AddressFor(blk, ms[k].taken[t]) == ip
    ensures forall n :: start <= n < start + Size(blk) && AddressFor(blk, ms[k].taken[n]) == ip ==> n == t
  {
    hide AddressFor, Value, Broadcast, Size;
    TicketsAreSequential(ms, acts, k);
    t := WindowCoversBlock(blk, start, ip);
    forall n | start <= n < start + Size(blk) && AddressFor(blk, ms[k].taken[n]) == ip ensures n == t {
      assert Ticket(blk, n) == ip;
    }
  }
}
