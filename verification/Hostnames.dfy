// Host names for external addresses and their parser
// (pkg/agent/manager/common/util_extip.go), over the text forms of section 2.2
// of RFC 4291 as Go's net.ParseIP reads them.

module Text {
  function IndexOf(s: string, c: char): (i: nat)
    ensures i <= |s| && (i < |s| ==> s[i] == c)
    ensures forall j :: 0 <= j < i ==> s[j] != c
  {
    if s == [] || s[0] == c then 0 else 1 + IndexOf(s[1..], c)
  }

  // strings.Split on a one-character separator.
  function Split(s: string, c: char): (parts: seq<string>)
    ensures |parts| > 0 && (|parts| == 1 <==> IndexOf(s, c) == |s|)
    ensures parts[0] == s[..IndexOf(s, c)]
    decreases |s|
  {
    var i := IndexOf(s, c);
    if i == |s| then [s] else [s[..i]] + Split(s[i + 1..], c)
  }

  // strings.Join with a one-character separator.
  function Join(parts: seq<string>, c: char): string
  {
    if parts == [] then "" else if |parts| == 1 then parts[0]
    else parts[0] + [c] + Join(parts[1..], c)
  }

  function Replace(s: string, c: char, d: char): (r: string)
    ensures |r| == |s|
    ensures forall i :: 0 <= i < |s| ==> r[i] == if s[i] == c then d else s[i]
  {
    seq(|s|, i requires 0 <= i < |s| => if s[i] == c then d else s[i])
  }

  lemma ReplaceAbsent(s: string, c: char, d: char)
    requires IndexOf(s, c) == |s|
    ensures Replace(s, c, d) == s
  {
  }

  // Splitting on one separator and joining with another replaces it.
  lemma {:induction false} JoinSplit(s: string, c: char, d: char)
    ensures Join(Split(s, c), d) == Replace(s, c, d)
    decreases |s|
  {
    hide IndexOf, Replace;
    var i := IndexOf(s, c);
    if i == |s| {
      ReplaceAbsent(s, c, d);
    } else {
      var a, t := s[..i], s[i + 1..];
      JoinSplit(t, c, d);
      assert Join(Split(s, c), d) == a + [d] + Replace(t, c, d) by {
        assert Split(s, c) == [a] + Split(t, c);
        assert Split(s, c)[1..] == Split(t, c);
      }
      assert Replace(s, c, d) == a + [d] + Replace(t, c, d);
    }
  }

  lemma IndexIs(s: string, c: char, i: nat)
    requires i <= |s| && (i < |s| ==> s[i] == c) && forall j :: 0 <= j < i ==> s[j] != c
    ensures IndexOf(s, c) == i
  {
    hide IndexOf;
  }

  lemma SplitAt(s: string, c: char, i: nat)
    requires i == IndexOf(s, c)
    ensures Split(s, c) == if i == |s| then [s] else [s[..i]] + Split(s[i + 1..], c)
  {
    hide IndexOf;
  }

  lemma Around(a: string, c: char, b: string, i: nat)
    requires i <= |a|
    ensures var s := a + [c] + b;
      && s[..i] == a[..i] && (i == |a| ==> s[i] == c && s[i + 1..] == b && a[..i] == a)
      && (i < |a| ==> s[i] == a[i] && s[i + 1..] == a[i + 1..] + [c] + b)
  {
  }

  lemma FirstOfConcat(a: string, c: char, b: string)
    ensures IndexOf(a + [c] + b, c) == IndexOf(a, c)
  {
    hide IndexOf;
    var s, i := a + [c] + b, IndexOf(a, c);
    assert s[i] == c && forall j :: 0 <= j < i ==> s[j] == a[j];
    IndexIs(s, c, i);
  }

  lemma {:induction false} SplitConcat(a: string, b: string, c: char)
    ensures Split(a + [c] + b, c) == Split(a, c) + Split(b, c)
    decreases |a|
  {
    hide IndexOf, Split;
    var i := IndexOf(a, c);
    FirstOfConcat(a, c, b);
    Around(a, c, b, i);
    SplitAt(a + [c] + b, c, i);
    SplitAt(a, c, i);
    if i < |a| {
      SplitConcat(a[i + 1..], b, c);
      assert [a[..i]] + (Split(a[i + 1..], c) + Split(b, c)) == [a[..i]] + Split(a[i + 1..], c) + Split(b, c);
    }
  }

  lemma ReplaceBack(s: string, c: char, d: char)
    requires d !in s
    ensures Replace(Replace(s, c, d), d, c) == s
  {
  }
}

module IPText {
  import opened Basics
  import opened Text

  predicate IsDigit(c: char) { '0' <= c <= '9' }

  predicate IsHex(c: char) { IsDigit(c) || 'a' <= c <= 'f' || 'A' <= c <= 'F' }

  function HexValue(c: char): (v: nat)
    requires IsHex(c)
    ensures v < 16
  {
    if IsDigit(c) then (c - '0') as nat
    else if 'a' <= c <= 'f' then (c - 'a') as nat + 10
    else (c - 'A') as nat + 10
  }

  function Number(s: string, base: nat): nat
    requires forall i :: 0 <= i < |s| ==> IsHex(s[i])
  {
    if s == [] then 0 else Number(s[..|s| - 1], base) * base + HexValue(s[|s| - 1])
  }

  // A dotted-decimal field: no sign, no leading zero, at most 255.
  predicate IsOctet(s: string)
  {
    0 < |s| <= 3 && (forall i :: 0 <= i < |s| ==> IsDigit(s[i])) && (|s| > 1 ==> s[0] != '0') && Number(s, 10) <= 255
  }

  function ParseV4(s: string): (r: Option<seq<nat>>)
    ensures r.Some? ==> |r.value| == 4
  {
    var f := Split(s, '.');
    if |f| == 4 && IsOctet(f[0]) && IsOctet(f[1]) && IsOctet(f[2]) && IsOctet(f[3])
    then Some([Number(f[0], 10), Number(f[1], 10), Number(f[2], 10), Number(f[3], 10)])
    else None
  }

  // ---------- dotted decimal, exactly ----------

  // The digits of a number, without leading zero.
  function Digits(n: nat): (s: string)
  {
    if n < 10 then [n as char + '0'] else Digits(n / 10) + [(n % 10) as char + '0']
  }

  predicate IsDecimal(s: string)
  {
    s != [] && (forall i :: 0 <= i < |s| ==> IsDigit(s[i])) && (|s| > 1 ==> s[0] != '0')
  }

  lemma {:induction false} DigitsRead(n: nat)
    ensures IsDecimal(Digits(n)) && Number(Digits(n), 10) == n && (n > 0 ==> Digits(n)[0] != '0')
    ensures n < 1000 ==> |Digits(n)| <= 3
  {
    var s := Digits(n);
    if n < 10 {
      assert s[..0] == "" && HexValue(s[0]) == n;
    } else {
      DigitsRead(n / 10);
      assert s[..|s| - 1] == Digits(n / 10);
      if n < 1000 { AtMostTwo(n / 10); }
    }
  }

  lemma AtMostTwo(n: nat)
    requires n < 100
    ensures |Digits(n)| <= 2
  {
  }

  lemma {:induction false} ReadDigits(s: string)
    requires IsDecimal(s)
    ensures Digits(Number(s, 10)) == s && (s[0] != '0' ==> Number(s, 10) > 0)
  {
    var k := |s| - 1;
    var t, d := s[..k], HexValue(s[k]);
    assert s == t + [s[k]] && [d as char + '0'] == [s[k]] && d < 10;
    if k == 0 {
      assert Number(t, 10) == 0;
    } else {
      ReadDigits(t);
      assert (Number(t, 10) * 10 + d) / 10 == Number(t, 10) && (Number(t, 10) * 10 + d) % 10 == d;
    }
  }

  lemma OctetIff(s: string)
    ensures IsOctet(s) <==> IsDecimal(s) && Number(s, 10) <= 255
  {
    if IsDecimal(s) && Number(s, 10) <= 255 {
      ReadDigits(s);
      DigitsRead(Number(s, 10));
    }
  }

  function Dotted(v: seq<nat>): string
    requires |v| == 4
  {
    Digits(v[0]) + "." + Digits(v[1]) + "." + Digits(v[2]) + "." + Digits(v[3])
  }

  lemma SplitDigits(n: nat)
    ensures Split(Digits(n), '.') == [Digits(n)]
  {
    DigitsRead(n);
    IndexIs(Digits(n), '.', |Digits(n)|);
    SplitAt(Digits(n), '.', |Digits(n)|);
  }

  lemma SplitDotted(v: seq<nat>)
    requires |v| == 4
    ensures Split(Dotted(v), '.') == [Digits(v[0]), Digits(v[1]), Digits(v[2]), Digits(v[3])]
  {
    hide Split, Digits;
    var a, b, c, d := Digits(v[0]), Digits(v[1]), Digits(v[2]), Digits(v[3]);
    SplitDigits(v[0]);
    SplitDigits(v[1]);
    SplitDigits(v[2]);
    SplitDigits(v[3]);
    SplitConcat(c, d, '.');
    SplitConcat(b, c + ['.'] + d, '.');
    SplitConcat(a, b + ['.'] + (c + ['.'] + d), '.');
    assert Dotted(v) == a + ['.'] + (b + ['.'] + (c + ['.'] + d));
  }

  // A text is an IPv4 address if and only if it is its four octets in decimal,
  // without leading zeros, with dots between.
  lemma V4Iff(s: string, v: seq<nat>)
    ensures ParseV4(s) == Some(v) <==> |v| == 4 && (forall i :: 0 <= i < 4 ==> v[i] < 256) && s == Dotted(v)
  {
    hide Split, Digits, Number;
    var f := Split(s, '.');
    if ParseV4(s) == Some(v) {
      forall i | 0 <= i < 4 ensures Digits(v[i]) == f[i] { ReadDigits(f[i]); }
      JoinSplit(s, '.', '.');
      assert Replace(s, '.', '.') == s;
      JoinFour(f);
    }
    if |v| == 4 && (forall i :: 0 <= i < 4 ==> v[i] < 256) && s == Dotted(v) {
      SplitDotted(v);
      forall i | 0 <= i < 4 ensures IsOctet(Digits(v[i])) && IsDecimal(Digits(v[i])) && Number(Digits(v[i]), 10) == v[i] {
        DigitsRead(v[i]);
        OctetIff(Digits(v[i]));
      }
      assert f[0] == Digits(v[0]) && f[1] == Digits(v[1]) && f[2] == Digits(v[2]) && f[3] == Digits(v[3]);
      assert v == [v[0], v[1], v[2], v[3]];
    }
  }

  lemma JoinFour(f: seq<string>)
    requires |f| == 4
    ensures Join(f, '.') == f[0] + "." + f[1] + "." + f[2] + "." + f[3]
  {
    assert f[1..][1..] == f[2..] && f[2..][1..] == f[3..];
    assert Join(f[3..], '.') == f[3];
    assert Join(f[2..], '.') == f[2] + "." + f[3];
    assert Join(f[1..], '.') == f[1] + "." + (f[2] + "." + f[3]);
    assert Join(f, '.') == f[0] + "." + (f[1] + "." + (f[2] + "." + f[3]));
  }

  function HexRun(s: string): (n: nat)
    ensures n <= |s| && (n < |s| ==> !IsHex(s[n]))
    ensures forall i :: 0 <= i < n ==> IsHex(s[i])
  {
    if s == [] || !IsHex(s[0]) then 0 else 1 + HexRun(s[1..])
  }

  // The bytes read, and the byte offset of the ellipsis if there was one.
  datatype Groups = Bad | Groups(bytes: seq<nat>, ellipsis: int)

  // The loop of the IPv6 reader: 16-bit groups, at most one "::", and a
  // trailing dotted-decimal tail where four bytes are left for it.
  function ReadGroups(s: string, bytes: seq<nat>, ellipsis: int): (g: Groups)
    requires |bytes| <= 16 && |bytes| % 2 == 0 && -1 <= ellipsis <= |bytes|
    ensures g.Groups? ==> |g.bytes| <= 16 && -1 <= g.ellipsis <= |g.bytes|
    decreases |s|
  {
    var n := HexRun(s);
    if |bytes| == 16 || n == 0 || n > 4 then Bad
    else if n < |s| && s[n] == '.' then
      if (ellipsis < 0 && |bytes| != 12) || |bytes| > 12 then Bad
      else match ParseV4(s)
        case None => Bad
        case Some(f) => Groups(bytes + f, ellipsis)
    else
      var v := Number(s[..n], 16);
      var more := bytes + [v / 256, v % 256];
      if n == |s| then Groups(more, ellipsis)
      else if s[n] != ':' || n + 1 == |s| then Bad
      else if s[n + 1] != ':' then ReadGroups(s[n + 1..], more, ellipsis)
      else if ellipsis >= 0 then Bad
      else if n + 2 == |s| then Groups(more, |more|)
      else ReadGroups(s[n + 2..], more, |more|)
  }

  function Zeros(n: nat): (z: seq<nat>)
    ensures |z| == n
  {
    seq(n, _ => 0)
  }

  function ParseV6(s: string): (r: Option<seq<nat>>)
    ensures r.Some? ==> |r.value| == 16
  {
    if "::" == s then Some(Zeros(16))
    else
      var g := if "::" <= s then ReadGroups(s[2..], [], 0) else ReadGroups(s, [], -1);
      if g.Bad? || (|g.bytes| == 16) == (g.ellipsis >= 0) then None
      else if g.ellipsis < 0 then Some(g.bytes)
      else Some(g.bytes[..g.ellipsis] + Zeros(16 - |g.bytes|) + g.bytes[g.ellipsis..])
  }

  // Where the first '.', ':' or '%' is; it decides the address family.
  function Mark(s: string): (i: nat)
    ensures i <= |s| && (i < |s| ==> s[i] in ".:%")
    ensures forall j :: 0 <= j < i ==> s[j] !in ".:%"
  {
    if s == [] || s[0] in ".:%" then 0 else 1 + Mark(s[1..])
  }

  const V4_IN_V6: seq<nat> := Zeros(10) + [255, 255]

  // net.ParseIP: sixteen bytes, or None for nil.
  function ParseIP(s: string): (r: Option<seq<nat>>)
  {
    var i := Mark(s);
    if i == |s| || s[i] == '%' then None
    else if s[i] == '.' then
      match ParseV4(s)
      case None => None
      case Some(f) => Some(V4_IN_V6 + f)
    else if '%' in s then None
    else ParseV6(s)
  }

  predicate IsLiteral(s: string) { ParseIP(s).Some? }

  // IP.IsUnspecified: 0.0.0.0, in its own form or mapped, or ::.
  predicate IsUnspecified(s: string)
  {
    IsLiteral(s) && (ParseIP(s).value == V4_IN_V6 + Zeros(4) || ParseIP(s).value == Zeros(16))
  }

  predicate LiteralChar(c: char) { IsHex(c) || c == '.' || c == ':' }

  lemma V4Chars(s: string)
    requires ParseV4(s).Some?
    ensures forall i :: 0 <= i < |s| ==> IsDigit(s[i]) || s[i] == '.'
  {
    SplitChars(s, '.');
  }

  // A property of all parts of a split holds of every other character.
  lemma {:induction false} SplitChars(s: string, c: char)
    requires forall p :: 0 <= p < |Split(s, c)| ==> forall i :: 0 <= i < |Split(s, c)[p]| ==> IsDigit(Split(s, c)[p][i])
    ensures forall i :: 0 <= i < |s| ==> IsDigit(s[i]) || s[i] == c
    decreases |s|
  {
    hide IndexOf;
    var k, parts := IndexOf(s, c), Split(s, c);
    assert forall i :: 0 <= i < k ==> s[i] == parts[0][i];
    if k < |s| {
      var t := s[k + 1..];
      assert parts[1..] == Split(t, c);
      SplitChars(t, c);
      assert forall i :: k < i < |s| ==> s[i] == t[i - k - 1];
    }
  }

  lemma {:induction false} GroupChars(s: string, bytes: seq<nat>, ellipsis: int)
    requires |bytes| <= 16 && |bytes| % 2 == 0 && -1 <= ellipsis <= |bytes|
    requires ReadGroups(s, bytes, ellipsis).Groups?
    ensures forall i :: 0 <= i < |s| ==> LiteralChar(s[i])
    decreases |s|
  {
    hide Number, ParseV4, HexRun, Split;
    var n := HexRun(s);
    var v := Number(s[..n], 16);
    var more := bytes + [v / 256, v % 256];
    if n < |s| && s[n] == '.' {
      V4Chars(s);
    } else if n < |s| && s[n + 1] != ':' {
      GroupChars(s[n + 1..], more, ellipsis);
      assert forall i :: n + 1 <= i < |s| ==> s[i] == s[n + 1..][i - n - 1];
    } else if n + 2 < |s| {
      GroupChars(s[n + 2..], more, |more|);
      assert forall i :: n + 2 <= i < |s| ==> s[i] == s[n + 2..][i - n - 2];
    }
  }

  // Valid literals hold only hexadecimal digits, dots and colons.
  lemma LiteralChars(s: string)
    requires IsLiteral(s)
    ensures s != "" && forall i :: 0 <= i < |s| ==> LiteralChar(s[i])
  {
    if s[Mark(s)] == '.' {
      V4Chars(s);
    } else if s != "::" {
      if "::" <= s {
        GroupChars(s[2..], [], 0);
        assert forall i :: 2 <= i < |s| ==> s[i] == s[2..][i - 2];
      } else {
        GroupChars(s, [], -1);
      }
    }
  }

  // What precedes the first colon of a literal is not itself a literal.
  lemma FirstGroup(s: string)
    requires IsLiteral(s) && ':' in s
    ensures !IsLiteral(s[..IndexOf(s, ':')])
  {
    var k := IndexOf(s, ':');
    var g := s[..k];
    LiteralChars(s);
    assert s[k] == ':' && k < |s|;
    if s[Mark(s)] == '.' {
      V4Chars(s);
    } else {
      assert Mark(s) >= k;
      assert Mark(g) == |g|;
    }
  }
}

module ExtIPName {
  import opened Text
  import opened IPText

  const ANY_EXT_IP := "llbanyextip"
  const ANY_IP := "0.0.0.0"

  function Prefix(zone: string): string
  {
    if zone == "" then "" else zone + "-"
  }

  // The single name of an address that is not unspecified. isV6 is loxilib's
  // classification of the text; nothing is assumed about its answer.
  function ZoneName(zone: string, ip: string, isV6: bool): string
  {
    Prefix(zone) + if isV6 then Join(Split(ip, ':'), '-') else ip
  }

  // GenExtIPName. The instance addresses are given by their texts; the order in
  // which the Go map yields them is left open.
  method GenExtIPName(zone: string, instAddrs: map<string, string>, ip: string, isV6: bool) returns (hosts: seq<string>)
    ensures !IsUnspecified(ip) ==> hosts == [ZoneName(zone, ip, isV6)]
    ensures IsUnspecified(ip) && instAddrs == map[] ==> hosts == ["llbanyextip"]
    ensures IsUnspecified(ip) && instAddrs != map[] ==>
      |hosts| == |instAddrs| && forall h :: h in hosts <==> h in instAddrs.Values
  {
    if IsUnspecified(ip) {
      if instAddrs == map[] {
        return [ANY_EXT_IP];
      }
      hosts := [];
      var todo := instAddrs.Keys;
      while todo != {}
        invariant todo <= instAddrs.Keys && |hosts| + |todo| == |instAddrs.Keys|
        invariant forall h :: h in hosts <==> exists k :: k in instAddrs && k !in todo && instAddrs[k] == h
        decreases |todo|
      {
        var k :| k in todo;
        hosts := hosts + [instAddrs[k]];
        todo := todo - {k};
      }
      return;
    }
    hosts := [ZoneName(zone, ip, isV6)];
  }

  // ParseIngressHostname.
  function ParseIngressHostname(name: string, zone: string): string
  {
    if name == ANY_EXT_IP then ANY_IP
    else
      var all := Split(name, '-');
      if |all| < 2 then (if IsLiteral(all[0]) then all[0] else "")
      else
        var host := if zone != "" && all[0] == zone then all[1..] else all;
        if IsLiteral(host[0]) then host[0]
        else if |host| > 1 && IsLiteral(Join(host, ':')) then Join(host, ':')
        else ""
  }

  // What a host name reads as, written out. The stand-in is 0.0.0.0. Otherwise the
  // zone and its dash are dropped, if the zone is dash-free and the name starts
  // with them; then what precedes the first dash is the address, or the whole with
  // colons for dashes is, or there is none.
  lemma ParseIs(name: string, zone: string)
    ensures var text := if zone != "" && '-' !in zone && zone + "-" <= name then name[|zone| + 1..] else name;
      var first, whole := text[..IndexOf(text, '-')], Replace(text, '-', ':');
      ParseIngressHostname(name, zone) ==
        if name == "llbanyextip" then "0.0.0.0"
        else if IsLiteral(first) then first
        else if '-' in text && IsLiteral(whole) then whole
        else ""
  {
    hide IsLiteral, Split, Join, Replace, IndexOf;
    if zone != "" && '-' !in zone && zone + "-" <= name {
      ZoneFirst(name, zone);
      SplitText(name[|zone| + 1..]);
    }
    FirstIsZone(name, zone);
    SplitText(name);
  }

  // How the parts of a text give its beginning and the whole.
  lemma SplitText(text: string)
    ensures var all := Split(text, '-');
      all[0] == text[..IndexOf(text, '-')] && Join(all, ':') == Replace(text, '-', ':') && (|all| > 1 <==> '-' in text)
  {
    hide IsLiteral, Join, Replace;
    JoinSplit(text, '-', ':');
    assert '-' in text <==> IndexOf(text, '-') < |text|;
  }

  lemma ZoneFirst(name: string, zone: string)
    requires '-' !in zone && zone + "-" <= name
    ensures Split(name, '-') == [zone] + Split(name[|zone| + 1..], '-')
  {
    assert name[|zone|] == (zone + "-")[|zone|] == '-' && name[..|zone|] == zone;
    assert forall j :: 0 <= j < |zone| ==> name[j] == zone[j] && zone[j] in zone;
    IndexIs(name, '-', |zone|);
    SplitAt(name, '-', |zone|);
  }

  lemma FirstIsZone(name: string, zone: string)
    ensures |Split(name, '-')| >= 2 && Split(name, '-')[0] == zone ==> '-' !in zone && zone + "-" <= name
  {
    var i := IndexOf(name, '-');
    if |Split(name, '-')| >= 2 && Split(name, '-')[0] == zone {
      assert i < |name| && name[..i] == zone && name[i] == '-';
      assert forall j :: 0 <= j < i ==> zone[j] == name[j];
      assert name[..i + 1] == zone + "-";
    }
  }

  // The part of a name that encodes the address.
  function Body(ip: string, isV6: bool): string
  {
    if isV6 then Replace(ip, ':', '-') else ip
  }

  // Reading the encoded address back, whichever way it was split.
  lemma ReadBack(ip: string, isV6: bool)
    requires IsLiteral(ip)
    ensures var host := Split(Body(ip, isV6), '-');
      if IsLiteral(host[0]) then host[0] == ip else |host| > 1 && Join(host, ':') == ip
  {
    LiteralChars(ip);
    var body := Body(ip, isV6);
    assert '-' !in ip;
    if isV6 && ':' in ip {
      FirstGroup(ip);
      assert IndexOf(body, '-') == IndexOf(ip, ':');
      assert body[..IndexOf(body, '-')] == ip[..IndexOf(ip, ':')];
      JoinSplit(body, '-', ':');
      ReplaceBack(ip, ':', '-');
      assert exists i :: 0 <= i < |ip| && ip[i] == ':';
    } else {
      assert body == ip && IndexOf(ip, '-') == |ip|;
      assert Split(ip, '-') == [ip];
    }
  }

  // The name of an address, written out: the zone and a dash, if there is a zone,
  // then the text, with dashes for the colons of what is taken for IPv6.
  lemma NameIs(zone: string, ip: string, isV6: bool)
    ensures var name, n := ZoneName(zone, ip, isV6), if zone == "" then 0 else |zone| + 1;
      && |name| == n + |ip| && name[..n] == (if zone == "" then "" else zone + "-")
      && forall i :: 0 <= i < |ip| ==> name[n + i] == if isV6 && ip[i] == ':' then '-' else ip[i]
  {
    hide Split, Join;
    JoinSplit(ip, ':', '-');
  }

  lemma NameShape(zone: string, ip: string, isV6: bool)
    requires IsLiteral(ip)
    ensures var name := ZoneName(zone, ip, isV6);
      && name == Prefix(zone) + Body(ip, isV6) && name != ANY_EXT_IP
      && Split(name, '-') == (if zone == "" then [] else Split(zone, '-')) + Split(Body(ip, isV6), '-')
  {
    hide IndexOf, Split, Join, IsLiteral;
    JoinSplit(ip, ':', '-');
    LiteralChars(ip);
    var name, body := ZoneName(zone, ip, isV6), Body(ip, isV6);
    if zone == "" {
      assert name == body;
      assert name[0] == body[0] != 'l';
    } else {
      assert name == zone + ['-'] + body;
      SplitConcat(zone, body, '-');
      assert name[|zone|] == '-' && forall i :: 0 <= i < |ANY_EXT_IP| ==> ANY_EXT_IP[i] != '-';
    }
  }

  ghost predicate RoundTrips(zone: string, ip: string, isV6: bool)
  {
    ParseIngressHostname(ZoneName(zone, ip, isV6), zone) == ip
  }

  // Parsing a generated name with the zone it was generated for gives back the
  // identical text, exactly when the zone has no dash, or what precedes its
  // first dash is that very address.
  lemma RoundTripIff(zone: string, ip: string, isV6: bool)
    requires IsLiteral(ip)
    ensures RoundTrips(zone, ip, isV6) <==> '-' !in zone || Split(zone, '-')[0] == ip
  {
    if '-' in zone {
      DashedZone(zone, ip, isV6);
    } else {
      PlainZone(zone, ip, isV6);
    }
  }

  lemma PlainZone(zone: string, ip: string, isV6: bool)
    requires IsLiteral(ip) && '-' !in zone
    ensures RoundTrips(zone, ip, isV6)
  {
    NameShape(zone, ip, isV6);
    ReadBack(ip, isV6);
    var all, host := Split(ZoneName(zone, ip, isV6), '-'), Split(Body(ip, isV6), '-');
    if zone != "" {
      assert Split(zone, '-') == [zone];
      assert all[0] == zone && all[1..] == host;
    } else {
      assert all == host;
    }
  }

  // How a name of two or more parts reads when the zone is not the first part.
  lemma ForeignName(name: string, zone: string)
    requires name != ANY_EXT_IP && |Split(name, '-')| >= 2 && Split(name, '-')[0] != zone
    ensures var p, j := ParseIngressHostname(name, zone), Replace(name, '-', ':');
      p == if IsLiteral(Split(name, '-')[0]) then Split(name, '-')[0] else if IsLiteral(j) then j else ""
  {
    hide Split, Join, IsLiteral, Replace;
    JoinSplit(name, '-', ':');
  }

  lemma DashedZone(zone: string, ip: string, isV6: bool)
    requires IsLiteral(ip) && '-' in zone
    ensures RoundTrips(zone, ip, isV6) <==> Split(zone, '-')[0] == ip
  {
    hide IndexOf, Split, Join, IsLiteral, ParseIngressHostname;
    NameShape(zone, ip, isV6);
    LiteralChars(ip);
    var name := ZoneName(zone, ip, isV6);
    var all, z := Split(name, '-'), Split(zone, '-');
    assert IndexOf(zone, '-') < |zone| by { assert exists i :: 0 <= i < |zone| && zone[i] == '-'; }
    assert all[0] == z[0] && |z[0]| < |zone|;
    ForeignName(name, zone);
    assert |Replace(name, '-', ':')| == |name| > |ip|;
  }

  // Names generated for one dash-free zone never collide.
  lemma NamesAreInjective(zone: string, ip: string, isV6: bool, ip': string, isV6': bool)
    requires IsLiteral(ip) && IsLiteral(ip') && '-' !in zone
    requires ZoneName(zone, ip, isV6) == ZoneName(zone, ip', isV6')
    ensures ip == ip'
  {
    PlainZone(zone, ip, isV6);
    PlainZone(zone, ip', isV6');
  }

  // The stand-in name reads back as 0.0.0.0, and the address of an instance
  // reads back as itself, whatever the zone.
  lemma UnspecifiedNames(zone: string, host: string)
    requires IsLiteral(host)
    ensures ParseIngressHostname(ANY_EXT_IP, zone) == ANY_IP
    ensures ParseIngressHostname(host, zone) == host
  {
    LiteralChars(host);
    assert host[0] != 'l' && IndexOf(host, '-') == |host|;
    assert Split(host, '-') == [host];
  }

  // 0.0.0.0 itself round-trips through the stand-in name.
  lemma AnyIPIsUnspecified()
    ensures IsUnspecified(ANY_IP)
  {
    ZeroParts();
    hide IndexOf, Split;
    assert Number("0", 10) == 0 by { assert "0"[..0] == ""; }
    assert Mark(ANY_IP) == 1 by { assert ANY_IP[1..][0] == '.'; }
    assert Zeros(4) == [0, 0, 0, 0];
  }

  lemma ZeroPart(s: string)
    requires |s| > 1 && s[0] == '0' && s[1] == '.'
    ensures Split(s, '.') == ["0"] + Split(s[2..], '.')
  {
    assert IndexOf(s, '.') == 1;
    assert s[..1] == "0";
  }

  lemma ZeroAlone()
    ensures Split("0", '.') == ["0"]
  {
  }

  lemma ZeroParts()
    ensures Split(ANY_IP, '.') == ["0", "0", "0", "0"]
  {
    hide Split, IndexOf;
    ZeroAlone();
    assert "0.0"[2..] == "0";
    ZeroPart("0.0");
    assert "0.0.0"[2..] == "0.0";
    ZeroPart("0.0.0");
    assert ANY_IP[2..] == "0.0.0";
    ZeroPart(ANY_IP);
  }
}
