/** Reverse DNS: the in-addr.arpa zone of the client's network and its PTR records
    (client/internal/dns.go; section 3.5 of RFC 1035). */
module ReverseDns {
  import opened Text

  const LIMIT := 0x1_0000_0000
  const TYPE_A := 1
  const TYPE_PTR := 12
  const ARPA := ".in-addr.arpa"

  /** A network: IPv4 address and mask length, or anything else. */
  datatype Network = Net4(addr: nat, bits: nat) | OtherNet

  predicate ValidNet(net: Network) {
    net.Net4? ==> net.addr < LIMIT && net.bits <= 32
  }

  datatype Ip = Ip4(a: nat) | OtherIp

  /** The address parser; None stands for a parse error. */
  type AddrParser = string -> Option<Ip>

  datatype SimpleRecord = SimpleRecord(name: string, kind: int, class_: string, ttl: int, rdata: string)

  datatype CustomZone = CustomZone(domain: string, records: seq<SimpleRecord>, searchDomainDisabled: bool,
                                   nonAuthoritative: bool)

  // ---------- Addresses ----------

  function Pow2(n: nat): (p: nat)
    ensures p > 0
  {
    if n == 0 then 1 else 2 * Pow2(n - 1)
  }

  function BlockSize(bits: nat): (p: nat)
    requires bits <= 32
    ensures p > 0
  {
    Pow2(32 - bits)
  }

  /** The block of size `p` that holds the address. */
  function Block(a: nat, p: nat): nat
    requires p > 0
  {
    a / p
  }

  function BlockStart(m: nat, p: nat): nat {
    m * p
  }

  function Masked(addr: nat, bits: nat): nat
    requires bits <= 32
  {
    BlockStart(Block(addr, BlockSize(bits)), BlockSize(bits))
  }

  predicate Contains(net: Network, ip: Ip) {
    net.Net4? && ip.Ip4? && net.bits <= 32 && Block(ip.a, BlockSize(net.bits)) == Block(net.addr, BlockSize(net.bits))
  }

  /** What one step of octet `i` is worth, the first octet being the highest. */
  function Weight(i: nat): (w: nat)
    requires i < 4
    ensures w > 0
  {
    if i == 0 then 16777216 else if i == 1 then 65536 else if i == 2 then 256 else 1
  }

  function Octet(a: nat, i: nat): (o: nat)
    requires i < 4
    ensures o < 256
  {
    a / Weight(i) % 256
  }

  /** Decimal digits without leading zeros. */
  function Dec(n: nat): (s: string)
    ensures s != "" && '.' !in s
  {
    if n < 10 then ['0' + n as char] else Dec(n / 10) + ['0' + (n % 10) as char]
  }

  lemma {:induction false} DecInjective(m: nat, n: nat)
    requires Dec(m) == Dec(n)
    ensures m == n
  {
    var s, t := Dec(m), Dec(n);
    assert s[|s| - 1] == t[|t| - 1];
    if m >= 10 && n >= 10 {
      assert s[..|s| - 1] == Dec(m / 10) && t[..|t| - 1] == Dec(n / 10);
      DecInjective(m / 10, n / 10);
    }
  }

  /** The dotted octets of an address. */
  function Octets(a: nat): (os: seq<string>)
    ensures |os| == 4
    ensures forall i :: 0 <= i < 4 ==> os[i] == Dec(Octet(a, i))
  {
    [Dec(Octet(a, 0)), Dec(Octet(a, 1)), Dec(Octet(a, 2)), Dec(Octet(a, 3))]
  }

  // ---------- Names ----------

  function Reversed(parts: seq<string>): (r: seq<string>)
    ensures |r| == |parts|
    ensures forall i :: 0 <= i < |parts| ==> r[i] == parts[|parts| - 1 - i]
  {
    seq(|parts|, i requires 0 <= i < |parts| => parts[|parts| - 1 - i])
  }

  predicate IsFqdn(s: string) {
    s != "" && s[|s| - 1] == '.' && TrailingBackslashes(s[..|s| - 1]) % 2 == 0
  }

  function TrailingBackslashes(s: string): nat {
    if s == "" || s[|s| - 1] != '\\' then 0 else TrailingBackslashes(s[..|s| - 1]) + 1
  }

  function Fqdn(s: string): string {
    if IsFqdn(s) then s else s + "."
  }

  /** The name of a list of octets, highest last. */
  function ArpaName(octets: seq<string>): string {
    Fqdn(Join(octets, '.') + ARPA)
  }

  lemma ArpaNameIs(octets: seq<string>)
    ensures ArpaName(octets) == Join(octets, '.') + ".in-addr.arpa."
  {
    var s := Join(octets, '.') + ARPA;
    assert s[|s| - 1] == 'a';
  }

  function PtrName(a: nat): string {
    ArpaName(Reversed(Octets(a)))
  }

  /** The number of octets in the zone name: the mask length rounded up to bytes. */
  function ZoneOctets(net: Network): nat
    requires net.Net4?
  {
    (net.bits + 7) / 8
  }

  /** The name made of the first `k` octets of an address. */
  function LeadingName(base: nat, k: nat): string
    requires k <= 4
  {
    ArpaName(Reversed(Octets(base)[..k]))
  }

  function ZoneName(net: Network): string
    requires net.Net4? && net.bits <= 32
  {
    LeadingName(Masked(net.addr, net.bits), ZoneOctets(net))
  }

  method GenerateReverseZoneName(net: Network) returns (r: Option<string>)
    requires ValidNet(net)
    ensures r == if net.Net4? then Some(ZoneName(net)) else None
  {
    if !net.Net4? {
      return None;
    }
    var octetsToUse := (net.bits + 7) / 8;
    var octets := Octets(Masked(net.addr, net.bits));
    if octetsToUse > |octets| {
      return None;
    }
    var reverseOctets := ReverseLeading(octets, octetsToUse);
    return Some(Fqdn(Join(reverseOctets, '.') + ARPA));
  }

  /** The first `k` parts from the last to the first, filled in place. */
  method ReverseLeading(octets: seq<string>, k: nat) returns (r: seq<string>)
    requires k <= |octets|
    ensures r == Reversed(octets[..k])
  {
    var reverseOctets := new string[k];
    for i := 0 to k
      invariant forall j :: k - i <= j < k ==> reverseOctets[j] == octets[k - 1 - j]
    {
      reverseOctets[k - 1 - i] := octets[i];
    }
    r := reverseOctets[..];
  }

  // ---------- Containment of names ----------

  /** The name is the zone or lies below it. */
  ghost predicate Under(name: string, zone: string) {
    name == zone || exists prefix: string :: name == prefix + "." + zone
  }

  /** For two octet lists: the longer name is under the shorter exactly when it ends in it. */
  lemma UnderMeansSuffix(long: seq<string>, short: seq<string>)
    requires |long| > 0 && |short| > 0 && (forall p :: p in long ==> '.' !in p) && (forall p :: p in short ==> '.' !in p)
    requires Under(ArpaName(long), ArpaName(short))
    ensures |short| <= |long| && long[|long| - |short|..] == short
  {
    ArpaNameIs(long);
    ArpaNameIs(short);
    var l, s := Join(long, '.'), Join(short, '.');
    SplitJoin(long, '.');
    SplitJoin(short, '.');
    var tail := ".in-addr.arpa.";
    if l + tail == s + tail {
      assert l == (l + tail)[..|l|] && s == (s + tail)[..|s|];
    } else {
      var prefix: string :| l + tail == prefix + "." + (s + tail);
      assert prefix + "." + (s + tail) == (prefix + "." + s) + tail;
      assert l == (l + tail)[..|l|] == ((prefix + "." + s) + tail)[..|l|] == prefix + "." + s;
      SplitAt(prefix, s, '.');
    }
  }

  lemma SuffixMeansUnder(long: seq<string>, short: seq<string>)
    requires 0 < |short| <= |long| && long[|long| - |short|..] == short
    ensures Under(ArpaName(long), ArpaName(short))
  {
    ArpaNameIs(long);
    ArpaNameIs(short);
    if |short| < |long| {
      var front := long[..|long| - |short|];
      assert long == front + short;
      JoinAppend(front, short, '.');
      var tail := ".in-addr.arpa.";
      assert Join(front, '.') + "." + Join(short, '.') + tail == Join(front, '.') + "." + (Join(short, '.') + tail);
    } else {
      assert long == short;
    }
  }

  lemma ReversedSuffix(a: seq<string>, b: seq<string>, k: nat)
    requires k <= |a| == |b|
    ensures Reversed(a)[|a| - k..] == Reversed(b[..k]) <==> a[..k] == b[..k]
  {
    var x, y := Reversed(a)[|a| - k..], Reversed(b[..k]);
    forall i | 0 <= i < k ensures x[k - 1 - i] == a[i] && y[k - 1 - i] == b[i] {
    }
    if x == y {
      forall i | 0 <= i < k ensures a[i] == b[i] {
        assert x[k - 1 - i] == y[k - 1 - i];
      }
    }
    if a[..k] == b[..k] {
      forall j | 0 <= j < k ensures x[j] == y[j] {
        assert a[..k][k - 1 - j] == b[..k][k - 1 - j];
      }
    }
  }

  lemma OctetTextsExactly(base: nat, k: nat, ip: nat)
    requires k <= 4
    ensures Octets(ip)[..k] == Octets(base)[..k] <==> forall i :: 0 <= i < k ==> Octet(ip, i) == Octet(base, i)
  {
    if Octets(ip)[..k] == Octets(base)[..k] {
      forall i | 0 <= i < k ensures Octet(ip, i) == Octet(base, i) {
        assert Octets(ip)[..k][i] == Octets(base)[..k][i];
        DecInjective(Octet(ip, i), Octet(base, i));
      }
    }
  }

  /** The label lists of a zone and an address agree exactly when the leading octets do. */
  lemma SuffixExactly(base: nat, k: nat, ip: nat)
    requires 1 <= k <= 4
    ensures Reversed(Octets(ip))[4 - k..] == Reversed(Octets(base)[..k]) <==>
            forall i :: 0 <= i < k ==> Octet(ip, i) == Octet(base, i)
  {
    ReversedSuffix(Octets(ip), Octets(base), k);
    OctetTextsExactly(base, k, ip);
  }

  /** An address name is under a zone name exactly when the leading octets agree. */
  lemma UnderZoneExactly(base: nat, k: nat, ip: nat)
    requires 1 <= k <= 4
    ensures Under(PtrName(ip), LeadingName(base, k)) <==> forall i :: 0 <= i < k ==> Octet(ip, i) == Octet(base, i)
  {
    var long, short := Reversed(Octets(ip)), Reversed(Octets(base)[..k]);
    SuffixExactly(base, k, ip);
    if Under(ArpaName(long), ArpaName(short)) {
      UnderMeansSuffix(long, short);
    }
    if long[4 - k..] == short {
      SuffixMeansUnder(long, short);
    }
  }

  // ---------- Masks ----------

  lemma {:induction false} PowAdd(a: nat, b: nat)
    ensures Pow2(a + b) == Pow2(a) * Pow2(b)
  {
    if a > 0 {
      PowAdd(a - 1, b);
    }
  }

  lemma SmallMultiple(x: int, p: int)
    requires p > 0 && -p < x * p < p
    ensures x == 0
  {
    assert x >= 1 ==> x * p >= p;
    assert x <= -1 ==> x * p <= -p;
  }

  lemma DivUnique(a: nat, p: nat, m: nat, r: nat)
    requires p > 0 && a == m * p + r && r < p
    ensures a / p == m
  {
    var d := a / p;
    assert a == d * p + a % p;
    assert (d - m) * p == r - a % p;
    SmallMultiple(d - m, p);
  }

  lemma MaskedInNet(addr: nat, bits: nat)
    requires bits <= 32
    ensures Block(Masked(addr, bits), BlockSize(bits)) == Block(addr, BlockSize(bits))
  {
    DivUnique(Masked(addr, bits), BlockSize(bits), Block(addr, BlockSize(bits)), 0);
  }

  /** The weights of the octets are the block sizes of the aligned masks. */
  lemma WeightIsBlockSize(k: nat)
    requires 1 <= k <= 4
    ensures BlockSize(8 * k) == Weight(k - 1)
  {
    assert Pow2(0) == 1 && Pow2(8) == 256;
    PowAdd(8, 8);
    PowAdd(8, 16);
  }

  lemma WeightStep(a: nat, i: nat)
    requires i < 3
    ensures a / Weight(i) == a / Weight(i + 1) / 256
  {
  }

  lemma {:induction false} CoarserDivision(a: nat, b: nat, j: nat, i: nat)
    requires i <= j < 4 && a / Weight(j) == b / Weight(j)
    ensures a / Weight(i) == b / Weight(i)
  {
    if i < j {
      WeightStep(a, j - 1);
      WeightStep(b, j - 1);
      CoarserDivision(a, b, j - 1, i);
    }
  }

  /** With a byte-aligned mask the addresses of the network share its leading octets. */
  lemma AlignedSharesOctets(net: Network, ip: nat, i: nat)
    requires ValidNet(net) && net.Net4? && net.bits in {8, 16, 24, 32} && Contains(net, Ip4(ip)) && i < ZoneOctets(net)
    ensures Octet(ip, i) == Octet(Masked(net.addr, net.bits), i)
  {
    var k := ZoneOctets(net);
    MaskedInNet(net.addr, net.bits);
    WeightIsBlockSize(k);
    assert net.bits == 8 * k;
    CoarserDivision(ip, Masked(net.addr, net.bits), k - 1, i);
  }

  /** The address one octet step above the start of a block of `q * r` addresses. */
  lemma OneStepUp(m: nat, q: nat, r: nat, p: nat)
    requires q > 0 && r >= 2 && p == q * r
    ensures Block(BlockStart(m, p) + q, p) == m
    ensures (BlockStart(m, p) + q) / q == BlockStart(m, p) / q + 1
  {
    assert q < p;
    DivUnique(m * p + q, p, m, q);
    assert m * p == (m * r) * q;
    assert m * p + q == (m * r + 1) * q;
    DivUnique(m * p, q, m * r, 0);
    DivUnique(m * p + q, q, m * r + 1, 0);
  }

  /** A block of a mask that is not aligned is at least two steps of its last octet wide. */
  lemma BlockSplits(bits: nat, k: nat) returns (r: nat)
    requires 0 < bits < 8 * k <= 32
    ensures r >= 2 && BlockSize(bits) == Weight(k - 1) * r
  {
    r := Pow2(8 * k - bits);
    WeightIsBlockSize(k);
    PowAdd(32 - 8 * k, 8 * k - bits);
    assert 32 - 8 * k + (8 * k - bits) == 32 - bits;
  }

  /** With any other mask some address of the network differs from it in the last octet used. */
  lemma UnalignedSpills(net: Network) returns (ip: nat)
    requires ValidNet(net) && net.Net4? && 0 < net.bits && net.bits % 8 != 0
    ensures Contains(net, Ip4(ip))
    ensures Octet(ip, ZoneOctets(net) - 1) != Octet(Masked(net.addr, net.bits), ZoneOctets(net) - 1)
  {
    var k := ZoneOctets(net);
    var r := BlockSplits(net.bits, k);
    var q, p := Weight(k - 1), BlockSize(net.bits);
    OneStepUp(Block(net.addr, p), q, r, p);
    ip := Masked(net.addr, net.bits) + q;
    NextOctetDiffers(Masked(net.addr, net.bits) / q);
  }

  lemma NextOctetDiffers(x: nat)
    ensures (x + 1) % 256 != x % 256
  {
  }

  lemma {:induction false} JoinLast(parts: seq<string>, sep: char)
    requires |parts| > 0 && parts[|parts| - 1] != ""
    ensures var s, p := Join(parts, sep), parts[|parts| - 1]; s != "" && s[|s| - 1] == p[|p| - 1]
  {
    if |parts| > 1 {
      JoinLast(parts[1..], sep);
    }
  }

  /** With mask length 0 the zone name starts with an empty label and holds no address name. */
  lemma ZeroMaskHoldsNothing(net: Network, ip: nat)
    requires ValidNet(net) && net.Net4? && net.bits == 0
    ensures !Under(PtrName(ip), ZoneName(net))
  {
    var long := Reversed(Octets(ip));
    var short: seq<string> := Reversed(Octets(Masked(net.addr, 0))[..0]);
    assert short == [];
    ArpaNameIs(long);
    ArpaNameIs(short);
    JoinLast(long, '.');
    var l, tail := Join(long, '.'), ".in-addr.arpa.";
    assert ZoneName(net) == tail;
    assert |l + tail| > |tail|;
    forall prefix: string ensures l + tail != prefix + "." + tail {
      assert (l + tail)[|l| - 1] != '.';
      assert (prefix + "." + tail)[|prefix|] == '.';
    }
  }

  /** Every address of a network has its PTR name under the generated zone name exactly when the mask
      is byte-aligned and not zero. */
  lemma ContainmentExactly(net: Network)
    requires ValidNet(net) && net.Net4?
    ensures (forall ip: nat :: Contains(net, Ip4(ip)) ==> Under(PtrName(ip), ZoneName(net))) <==>
            net.bits in {8, 16, 24, 32}
  {
    if net.bits in {8, 16, 24, 32} {
      forall ip: nat | Contains(net, Ip4(ip)) ensures Under(PtrName(ip), ZoneName(net)) {
        forall i | 0 <= i < ZoneOctets(net) ensures Octet(ip, i) == Octet(Masked(net.addr, net.bits), i) {
          AlignedSharesOctets(net, ip, i);
        }
        UnderZoneExactly(Masked(net.addr, net.bits), ZoneOctets(net), ip);
      }
    } else if net.bits == 0 {
      ZeroMaskHoldsNothing(net, net.addr);
      assert Contains(net, Ip4(net.addr));
    } else {
      var ip := UnalignedSpills(net);
      UnderZoneExactly(Masked(net.addr, net.bits), ZoneOctets(net), ip);
    }
  }

  lemma FromDigits(a: nat, h0: nat, h1: nat, h2: nat, o1: nat, o2: nat, o3: nat)
    requires h1 == 256 * h0 + o1 && h2 == 256 * h1 + o2 && a == 256 * h2 + o3
    ensures a == h0 * 16777216 + o1 * 65536 + o2 * 256 + o3
  {
  }

  lemma AddressFromOctets(a: nat)
    requires a < LIMIT
    ensures a == Octet(a, 0) * 16777216 + Octet(a, 1) * 65536 + Octet(a, 2) * 256 + Octet(a, 3)
  {
    WeightStep(a, 0);
    WeightStep(a, 1);
    WeightStep(a, 2);
    var h0, h1, h2 := a / Weight(0), a / Weight(1), a / Weight(2);
    assert h0 < 256;
    FromDigits(a, h0, h1, h2, h1 % 256, h2 % 256, a % 256);
  }

  /** Different addresses have different PTR names. */
  lemma PtrNameInjective(a: nat, b: nat)
    requires a < LIMIT && b < LIMIT && PtrName(a) == PtrName(b)
    ensures a == b
  {
    var x, y := Reversed(Octets(a)), Reversed(Octets(b));
    UnderMeansSuffix(x, y);
    forall i | 0 <= i < 4 ensures Octet(a, i) == Octet(b, i) {
      assert x[0..][3 - i] == y[3 - i];
      DecInjective(Octet(a, i), Octet(b, i));
    }
    AddressFromOctets(a);
    AddressFromOctets(b);
  }

  // ---------- Records ----------

  /** The PTR record of an A record whose address lies in the network. */
  function PtrRecord(a: SimpleRecord, net: Network, parse: AddrParser): Option<SimpleRecord> {
    var ip := parse(a.rdata);
    if ip.None? || !Contains(net, ip.value) then None
    else Some(SimpleRecord(PtrName(ip.value.a), TYPE_PTR, a.class_, a.ttl, Fqdn(a.name)))
  }

  /** What becomes of an A record. */
  type PtrMaker = SimpleRecord -> Option<SimpleRecord>

  function Maker(net: Network, parse: AddrParser): PtrMaker {
    (a: SimpleRecord) => PtrRecord(a, net, parse)
  }

  function ZoneRecords(records: seq<SimpleRecord>, make: PtrMaker): seq<SimpleRecord> {
    if records == [] then []
    else
      var n := |records| - 1;
      var r := if records[n].kind == TYPE_A then make(records[n]) else None;
      ZoneRecords(records[..n], make) + (if r.Some? then [r.value] else [])
  }

  function Collected(zones: seq<CustomZone>, make: PtrMaker): seq<SimpleRecord> {
    if zones == [] then []
    else
      var n := |zones| - 1;
      Collected(zones[..n], make) + (if zones[n].nonAuthoritative then [] else ZoneRecords(zones[n].records, make))
  }

  method CollectPTRRecords(zones: seq<CustomZone>, net: Network, parse: AddrParser) returns (records: seq<SimpleRecord>)
    ensures records == Collected(zones, Maker(net, parse))
  {
    var make := Maker(net, parse);
    records := [];
    for i := 0 to |zones|
      invariant records == Collected(zones[..i], make)
    {
      assert zones[..i + 1][..i] == zones[..i];
      if zones[i].nonAuthoritative {
        continue;
      }
      ghost var before := records;
      var rs := zones[i].records;
      for j := 0 to |rs|
        invariant records == before + ZoneRecords(rs[..j], make)
      {
        assert rs[..j + 1][..j] == rs[..j];
        if rs[j].kind == TYPE_A {
          var ptr := make(rs[j]);
          if ptr.Some? {
            records := records + [ptr.value];
          }
        }
      }
      assert rs[..|rs|] == rs;
    }
    assert zones[..|zones|] == zones;
  }

  /** The record comes from an A record of the zone. */
  ghost predicate FromZone(r: SimpleRecord, zone: CustomZone, make: PtrMaker) {
    !zone.nonAuthoritative && exists a :: a in zone.records && a.kind == TYPE_A && make(a) == Some(r)
  }

  lemma {:induction false} ZoneRecordsExactly(records: seq<SimpleRecord>, make: PtrMaker, r: SimpleRecord)
    ensures r in ZoneRecords(records, make) <==> exists a :: a in records && a.kind == TYPE_A && make(a) == Some(r)
  {
    if records != [] {
      var n := |records| - 1;
      ZoneRecordsExactly(records[..n], make, r);
      assert records == records[..n] + [records[n]];
    }
  }

  /** The collected records are exactly the PTR records of the A records of authoritative zones. */
  lemma {:induction false} CollectedExactly(zones: seq<CustomZone>, make: PtrMaker, r: SimpleRecord)
    ensures r in Collected(zones, make) <==> exists z :: z in zones && FromZone(r, z, make)
  {
    if zones != [] {
      var n := |zones| - 1;
      CollectedExactly(zones[..n], make, r);
      ZoneRecordsExactly(zones[n].records, make, r);
      assert zones == zones[..n] + [zones[n]];
      assert FromZone(r, zones[n], make) <==> !zones[n].nonAuthoritative && r in ZoneRecords(zones[n].records, make);
    }
  }

  /** With a byte-aligned mask every collected record lies in the generated zone and comes from an A
      record of an authoritative zone. */
  lemma CollectedUnderZone(zones: seq<CustomZone>, net: Network, parse: AddrParser, r: SimpleRecord)
    requires ValidNet(net) && net.Net4? && net.bits in {8, 16, 24, 32} && r in Collected(zones, Maker(net, parse))
    ensures r.kind == TYPE_PTR && Under(r.name, ZoneName(net))
    ensures exists z :: z in zones && FromZone(r, z, Maker(net, parse))
  {
    CollectedExactly(zones, Maker(net, parse), r);
    var z :| z in zones && FromZone(r, z, Maker(net, parse));
    var a :| a in z.records && a.kind == TYPE_A && PtrRecord(a, net, parse) == Some(r);
    ContainmentExactly(net);
    assert Contains(net, Ip4(parse(a.rdata).value.a));
  }

  /** Dotted decimal of an address, the octets from the last to the first. */
  ghost predicate NamesInReverse(name: string, x: nat) {
    name == Dec(x % 256) + "." + Dec(x / 256 % 256) + "." + Dec(x / 65536 % 256) + "." + Dec(x / 16777216 % 256) +
            ".in-addr.arpa."
  }

  lemma JoinTwo(a: string, b: string)
    ensures Join([a, b], '.') == a + "." + b
  {
    assert [a, b][1..] == [b];
  }

  lemma JoinThree(a: string, b: string, c: string)
    ensures Join([a, b, c], '.') == a + "." + b + "." + c
  {
    assert [a, b, c][1..] == [b, c];
    JoinTwo(b, c);
  }

  lemma JoinFour(a: string, b: string, c: string, d: string)
    ensures Join([a, b, c, d], '.') == a + "." + b + "." + c + "." + d
  {
    assert [a, b, c, d][1..] == [b, c, d];
    JoinThree(b, c, d);
  }

  lemma PtrNameInReverse(x: nat)
    ensures NamesInReverse(PtrName(x), x)
  {
    var r := Reversed(Octets(x));
    ArpaNameIs(r);
    assert r == [r[0], r[1], r[2], r[3]];
    JoinFour(r[0], r[1], r[2], r[3]);
  }

  /** A name is fully qualified when it ends in a dot that is not escaped. */
  lemma QualifiedExamples()
    ensures IsFqdn("a.") && !IsFqdn("a") && !IsFqdn("") && !IsFqdn("a\\.") && IsFqdn("a\\\\.")
  {
    assert "a."[..1] == "a" && "a\\."[..2] == "a\\" && "a\\\\."[..3] == "a\\\\";
    assert "a\\"[..1] == "a" && "a\\\\"[..2] == "a\\";
  }

  /** The A record lies in an authoritative zone, its text parses to the IPv4 address `x`, and `x` has
      the leading bits of the network. */
  ghost predicate Answers(zones: seq<CustomZone>, net: Network, parse: AddrParser, a: SimpleRecord, x: nat) {
    && (exists z :: z in zones && !z.nonAuthoritative && a in z.records)
    && a.kind == 1 && parse(a.rdata) == Some(Ip4(x))
    && net.Net4? && net.bits <= 32 && x / Pow2(32 - net.bits) == net.addr / Pow2(32 - net.bits)
  }

  /** The PTR record `r` that points from address `x` to the name of the A record. */
  ghost predicate PointsBack(r: SimpleRecord, a: SimpleRecord, x: nat) {
    && NamesInReverse(r.name, x) && r.kind == 12 && r.class_ == a.class_ && r.ttl == a.ttl
    && r.rdata == (if IsFqdn(a.name) then a.name else a.name + ".")
  }

  lemma PointsBackUnique(r: SimpleRecord, q: SimpleRecord, a: SimpleRecord, x: nat)
    requires PointsBack(r, a, x) && PointsBack(q, a, x)
    ensures r == q
  {
  }

  lemma MadeExactly(net: Network, parse: AddrParser, a: SimpleRecord, r: SimpleRecord)
    ensures PtrRecord(a, net, parse) == Some(r) <==>
            exists x :: parse(a.rdata) == Some(Ip4(x)) && Contains(net, Ip4(x)) && PointsBack(r, a, x)
  {
    var ip := parse(a.rdata);
    if ip.Some? && Contains(net, ip.value) {
      var x := ip.value.a;
      PtrNameInReverse(x);
      var made := PtrRecord(a, net, parse).value;
      assert PointsBack(made, a, x);
      if PointsBack(r, a, x) {
        PointsBackUnique(r, made, a, x);
      }
    }
  }

  lemma ZoneAnswers(z: CustomZone, net: Network, parse: AddrParser, a: SimpleRecord, x: nat)
    ensures Answers([z], net, parse, a, x) <==>
            !z.nonAuthoritative && a in z.records && a.kind == TYPE_A && parse(a.rdata) == Some(Ip4(x)) && Contains(net, Ip4(x))
  {
    assert z in [z];
  }

  lemma FromZoneAnswers(z: CustomZone, net: Network, parse: AddrParser, r: SimpleRecord) returns (a: SimpleRecord, x: nat)
    requires FromZone(r, z, Maker(net, parse))
    ensures Answers([z], net, parse, a, x) && PointsBack(r, a, x)
  {
    a :| a in z.records && a.kind == TYPE_A && Maker(net, parse)(a) == Some(r);
    x := parse(a.rdata).value.a;
    PtrNameInReverse(x);
    ZoneAnswers(z, net, parse, a, x);
  }

  lemma AnswersFromZone(z: CustomZone, net: Network, parse: AddrParser, r: SimpleRecord, a: SimpleRecord, x: nat)
    requires Answers([z], net, parse, a, x) && PointsBack(r, a, x)
    ensures FromZone(r, z, Maker(net, parse))
  {
    ZoneAnswers(z, net, parse, a, x);
    MadeExactly(net, parse, a, r);
    assert Maker(net, parse)(a) == Some(r);
  }

  /** For all zones and networks: a record is collected exactly when it points back from the address of
      an A record of an authoritative zone that lies in the network. */
  lemma CollectedPointsBack(zones: seq<CustomZone>, net: Network, parse: AddrParser, r: SimpleRecord)
    ensures r in Collected(zones, Maker(net, parse)) <==>
            exists a, x :: Answers(zones, net, parse, a, x) && PointsBack(r, a, x)
  {
    CollectedExactly(zones, Maker(net, parse), r);
    if z :| z in zones && FromZone(r, z, Maker(net, parse)) {
      var a, x := FromZoneAnswers(z, net, parse, r);
      assert Answers(zones, net, parse, a, x);
    }
    if a, x :| Answers(zones, net, parse, a, x) && PointsBack(r, a, x) {
      var z :| z in zones && !z.nonAuthoritative && a in z.records;
      assert z in [z];
      AnswersFromZone(z, net, parse, r, a, x);
    }
  }

  lemma {:induction false} ZoneRecordsInOrder(a: seq<SimpleRecord>, b: seq<SimpleRecord>, make: PtrMaker)
    ensures ZoneRecords(a + b, make) == ZoneRecords(a, make) + ZoneRecords(b, make)
  {
    if b == [] {
      assert a + b == a;
    } else {
      var n := |b| - 1;
      assert (a + b)[..|a + b| - 1] == a + b[..n];
      ZoneRecordsInOrder(a, b[..n], make);
    }
  }

  function FromOne(z: CustomZone, make: PtrMaker): seq<SimpleRecord> {
    if z.nonAuthoritative then [] else ZoneRecords(z.records, make)
  }

  lemma CollectedLast(zones: seq<CustomZone>, z: CustomZone, make: PtrMaker)
    ensures Collected(zones + [z], make) == Collected(zones, make) + FromOne(z, make)
  {
    assert (zones + [z])[..|zones|] == zones;
  }

  /** The zones of the two lists are collected one list after the other. */
  ghost predicate InOrder(a: seq<CustomZone>, b: seq<CustomZone>, make: PtrMaker) {
    Collected(a + b, make) == Collected(a, make) + Collected(b, make)
  }

  lemma InOrderEmpty(a: seq<CustomZone>, make: PtrMaker)
    ensures InOrder(a, [], make)
  {
    assert a + [] == a;
  }

  lemma InOrderStep(a: seq<CustomZone>, front: seq<CustomZone>, z: CustomZone, make: PtrMaker)
    requires InOrder(a, front, make)
    ensures InOrder(a, front + [z], make)
  {
    CollectedLast(a + front, z, make);
    CollectedLast(front, z, make);
    Associative(a, front, [z]);
    Associative(Collected(a, make), Collected(front, make), FromOne(z, make));
  }

  lemma SplitLast<T>(b: seq<T>) returns (front: seq<T>, z: T)
    requires |b| > 0
    ensures b == front + [z] && |front| < |b|
  {
    front, z := b[..|b| - 1], b[|b| - 1];
  }

  /** Records are collected in the order of the zones, and in each zone in the order of its records, one
      for every A record that answers. */
  lemma {:induction false} CollectedInOrder(a: seq<CustomZone>, b: seq<CustomZone>, make: PtrMaker)
    ensures InOrder(a, b, make)
    decreases |b|
  {
    if |b| == 0 {
      InOrderEmpty(a, make);
    } else {
      var front, z := SplitLast(b);
      CollectedInOrder(a, front, make);
      InOrderStep(a, front, z, make);
    }
  }

  lemma Associative<T>(x: seq<T>, y: seq<T>, z: seq<T>)
    ensures (x + y) + z == x + (y + z)
  {
  }

  lemma CollectedOne(z: CustomZone, a: SimpleRecord, make: PtrMaker)
    requires z.records == [a]
    ensures Collected([z], make) ==
            if z.nonAuthoritative || a.kind != TYPE_A || make(a).None? then [] else [make(a).value]
  {
    assert [z] == [] + [z];
    CollectedLast([], z, make);
    assert Collected([], make) == [];
    ZoneRecordsOne(a, make);
  }

  lemma ZoneRecordsOne(a: SimpleRecord, make: PtrMaker)
    ensures ZoneRecords([a], make) == if a.kind != TYPE_A || make(a).None? then [] else [make(a).value]
  {
    assert [a][..0] == [];
    assert ZoneRecords([], make) == [];
  }

  lemma OneRecord(z: CustomZone, a: SimpleRecord, net: Network, parse: AddrParser)
    requires z.records == [a]
    ensures var rs := Collected([z], Maker(net, parse));
            && (forall x :: Answers([z], net, parse, a, x) ==> |rs| == 1 && PointsBack(rs[0], a, x))
            && ((forall x :: !Answers([z], net, parse, a, x)) ==> rs == [])
  {
    var make := Maker(net, parse);
    CollectedOne(z, a, make);
    assert make(a) == PtrRecord(a, net, parse);
    forall x | Answers([z], net, parse, a, x)
      ensures |Collected([z], make)| == 1 && PointsBack(Collected([z], make)[0], a, x)
    {
      ZoneAnswers(z, net, parse, a, x);
      PtrNameInReverse(x);
    }
    if Collected([z], make) != [] {
      ZoneAnswers(z, net, parse, a, parse(a.rdata).value.a);
    }
  }

  /** Two collected records have the same name only if their A records have the same address. */
  lemma SameNameSameAddress(r: SimpleRecord, q: SimpleRecord, a: SimpleRecord, b: SimpleRecord, x: nat, y: nat)
    requires PointsBack(r, a, x) && PointsBack(q, b, y) && x < LIMIT && y < LIMIT
    ensures r.name == q.name <==> x == y
  {
    PtrNameInReverse(x);
    PtrNameInReverse(y);
    if r.name == q.name {
      PtrNameInjective(x, y);
    }
  }

  lemma DecExamples()
    ensures Dec(1) == "1" && Dec(2) == "2" && Dec(64) == "64" && Dec(100) == "100"
  {
    assert Dec(6) == "6" && Dec(64) == Dec(6) + "4";
    assert Dec(10) == Dec(1) + "0" && Dec(100) == Dec(10) + "0";
  }

  /** 100.64.1.2 is named 2.1.64.100.in-addr.arpa. */
  lemma ReverseNameExample(name: string)
    ensures NamesInReverse(name, 0x64400102) <==> name == "2.1.64.100.in-addr.arpa."
  {
    DecExamples();
    assert 0x64400102 % 256 == 2 && 0x64400102 / 256 % 256 == 1;
    assert 0x64400102 / 65536 % 256 == 64 && 0x64400102 / 16777216 % 256 == 100;
    assert "2" + "." + "1" + "." + "64" + "." + "100" + ".in-addr.arpa." == "2.1.64.100.in-addr.arpa.";
  }

  predicate ZoneExists(zones: seq<CustomZone>, name: string) {
    exists z :: z in zones && z.domain == name
  }

  /** The zones after addReverseZone. */
  function WithReverseZone(zones: seq<CustomZone>, net: Network, parse: AddrParser): seq<CustomZone>
    requires ValidNet(net)
  {
    if !net.Net4? || ZoneExists(zones, ZoneName(net)) then zones
    else zones + [CustomZone(ZoneName(net), Collected(zones, Maker(net, parse)), true, false)]
  }

  class DnsConfig {
    var customZones: seq<CustomZone>

    constructor (zones: seq<CustomZone>)
      ensures customZones == zones
    {
      customZones := zones;
    }

    method HasZone(name: string) returns (found: bool)
      ensures found <==> ZoneExists(customZones, name)
    {
      for i := 0 to |customZones|
        invariant forall z :: z in customZones[..i] ==> z.domain != name
      {
        if customZones[i].domain == name {
          return true;
        }
        assert customZones[..i + 1] == customZones[..i] + [customZones[i]];
      }
      assert customZones[..|customZones|] == customZones;
      return false;
    }

    method AddReverseZone(net: Network, parse: AddrParser)
      requires ValidNet(net)
      modifies this
      ensures customZones == WithReverseZone(old(customZones), net, parse)
    {
      var name := GenerateReverseZoneName(net);
      if name.None? {
        return;
      }
      var found := HasZone(name.value);
      if found {
        return;
      }
      var records := CollectPTRRecords(customZones, net, parse);
      customZones := customZones + [CustomZone(name.value, records, true, false)];
    }
  }

  /** The first `k` octets of an address from the last to the first. */
  lemma LeadingNameInReverse(base: nat, k: nat)
    requires k <= 4
    ensures var o0, o1 := Dec(base / 16777216 % 256), Dec(base / 65536 % 256);
            var o2, o3 := Dec(base / 256 % 256), Dec(base % 256);
            LeadingName(base, k) == (if k == 0 then "" else if k == 1 then o0 else if k == 2 then o1 + "." + o0
                                     else if k == 3 then o2 + "." + o1 + "." + o0
                                     else o3 + "." + o2 + "." + o1 + "." + o0) + ".in-addr.arpa."
  {
    var os := Octets(base);
    var r := Reversed(os[..k]);
    ArpaNameIs(r);
    if k == 0 {
      assert r == [];
    } else if k == 1 {
      assert r == [os[0]];
    } else if k == 2 {
      assert r == [os[1], os[0]];
      JoinTwo(os[1], os[0]);
    } else if k == 3 {
      assert r == [os[2], os[1], os[0]];
      JoinThree(os[2], os[1], os[0]);
    } else {
      assert r == [os[3], os[2], os[1], os[0]];
      JoinFour(os[3], os[2], os[1], os[0]);
    }
  }

  /** The number of octets that the mask length, rounded up to bytes, leaves in the zone name. */
  function BytesUp(bits: nat): nat {
    if bits == 0 then 0 else if bits <= 8 then 1 else if bits <= 16 then 2 else if bits <= 24 then 3 else 4
  }

  /** The zone is named by that many leading octets of the network's first address. */
  lemma ZoneNameExactly(net: Network)
    requires ValidNet(net) && net.Net4?
    ensures var size := Pow2(32 - net.bits);
            ZoneName(net) == LeadingName(BlockStart(Block(net.addr, size), size), BytesUp(net.bits))
  {
  }

  /** What addReverseZone appends: nothing for a network that is not IPv4 or whose zone exists, else one
      authoritative zone of that name, not used for searching, with exactly the records that point
      back into the network. */
  lemma ReverseZoneExactly(zones: seq<CustomZone>, net: Network, parse: AddrParser)
    requires ValidNet(net)
    ensures var after := WithReverseZone(zones, net, parse);
            if !net.Net4? || ZoneExists(zones, ZoneName(net)) then after == zones
            else
              && |after| == |zones| + 1 && after[..|zones|] == zones
              && var zone := after[|zones|];
                 && zone.domain == ZoneName(net) && zone.searchDomainDisabled && !zone.nonAuthoritative
                 && forall r :: r in zone.records <==>
                      exists a, x :: Answers(zones, net, parse, a, x) && PointsBack(r, a, x)
  {
    forall r ensures r in Collected(zones, Maker(net, parse)) <==>
                     exists a, x :: Answers(zones, net, parse, a, x) && PointsBack(r, a, x)
    {
      CollectedPointsBack(zones, net, parse, r);
    }
  }

  /** Adding the reverse zone twice is adding it once; zones that were there stay. */
  lemma AddTwiceIsOnce(zones: seq<CustomZone>, net: Network, parse: AddrParser)
    requires ValidNet(net)
    ensures var once := WithReverseZone(zones, net, parse);
            && WithReverseZone(once, net, parse) == once
            && zones <= once && (net.Net4? ==> ZoneExists(once, ZoneName(net)))
  {
    var once := WithReverseZone(zones, net, parse);
    if once != zones {
      assert once[|zones|].domain == ZoneName(net);
    }
  }
}
