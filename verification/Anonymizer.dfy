/** The IP anonymizer: a cache plus two address allocators (client/anonymize/anonymize.go). */
module Anonymizer {

  /** An IP address; IPv4-mapped addresses belong to the second family. */
  datatype Addr = V4(a: nat) | V6(a: nat, zone: string)

  const LIMIT4 := 0x1_0000_0000
  const LIMIT6 := 0x1_00000000_00000000_00000000_00000000

  /** Addresses that are returned as they are: loopback, link-local, multicast, private,
      unspecified and well-known ones. */
  type Exempt = Addr -> bool

  datatype State = State(cache: map<Addr, Addr>, start4: nat, current4: nat, start6: nat, current6: nat)

  function New(start4: nat, start6: nat): State {
    State(map[], start4, start4, start6, start6)
  }

  /** isInAnonymizedRange: from the start up to and including the next address to hand out. With
      equal numbers an address with a zone compares greater. */
  predicate InRange(st: State, ip: Addr) {
    match ip
    case V4(a) => st.start4 <= a <= st.current4
    case V6(a, zone) => st.start6 <= a && (a < st.current6 || (a == st.current6 && zone == ""))
  }

  predicate Kept(st: State, exempt: Exempt, ip: Addr) {
    exempt(ip) || InRange(st, ip)
  }

  function Anonymize(st: State, exempt: Exempt, ip: Addr): (State, Addr) {
    if Kept(st, exempt, ip) then (st, ip)
    else if ip in st.cache then (st, st.cache[ip])
    else if ip.V4? then
      (st.(cache := st.cache[ip := V4(st.current4)], current4 := st.current4 + 1), V4(st.current4))
    else
      (st.(cache := st.cache[ip := V6(st.current6, "")], current6 := st.current6 + 1), V6(st.current6, ""))
  }

  function Run(st: State, exempt: Exempt, ips: seq<Addr>): State {
    if ips == [] then st
    else Anonymize(Run(st, exempt, ips[..|ips| - 1]), exempt, ips[|ips| - 1]).0
  }

  // ---------- The invariant ----------

  /** Addresses handed out so far. */
  predicate HandedOut(st: State, y: Addr) {
    match y
    case V4(b) => st.start4 <= b < st.current4
    case V6(b, zone) => zone == "" && st.start6 <= b < st.current6
  }

  ghost predicate IsImage(st: State, y: Addr) {
    exists ip :: ip in st.cache && st.cache[ip] == y
  }

  /** The images are exactly the handed-out addresses, each of one address of its own family. */
  ghost predicate Inv(st: State) {
    && st.start4 <= st.current4 && st.start6 <= st.current6
    && (forall y :: IsImage(st, y) <==> HandedOut(st, y))
    && (forall x, y :: x in st.cache && y in st.cache && st.cache[x] == st.cache[y] ==> x == y)
    && (forall x :: x in st.cache ==> x.V4? == st.cache[x].V4?)
  }

  lemma CallKeepsInv(st: State, exempt: Exempt, ip: Addr)
    requires Inv(st)
    ensures Inv(Anonymize(st, exempt, ip).0)
  {
    var (st', y) := Anonymize(st, exempt, ip);
    if st' != st {
      assert ip in st'.cache && st'.cache[ip] == y;
      forall z ensures IsImage(st', z) <==> HandedOut(st', z) {
        assert IsImage(st, z) <==> HandedOut(st, z);
        if IsImage(st, z) {
          var x :| x in st.cache && st.cache[x] == z;
          assert x in st'.cache && st'.cache[x] == z;
        }
      }
      forall x | x in st.cache ensures st.cache[x] != y {
        assert IsImage(st, st.cache[x]);
      }
    }
  }

  /** Over any call history: per family the images are exactly the contiguous block from the start
      to the next address, and the cache is injective. */
  lemma {:induction false} RunKeepsInv(st: State, exempt: Exempt, ips: seq<Addr>)
    requires Inv(st)
    ensures Inv(Run(st, exempt, ips))
  {
    if ips != [] {
      RunKeepsInv(st, exempt, ips[..|ips| - 1]);
      CallKeepsInv(Run(st, exempt, ips[..|ips| - 1]), exempt, ips[|ips| - 1]);
    }
  }

  lemma NewInv(start4: nat, start6: nat)
    ensures Inv(New(start4, start6))
  {
  }

  /** A later state: entries stay, the blocks only grow. */
  ghost predicate Later(a: State, b: State) {
    && a.start4 == b.start4 && a.start6 == b.start6 && a.current4 <= b.current4 && a.current6 <= b.current6
    && forall ip :: ip in a.cache ==> ip in b.cache && b.cache[ip] == a.cache[ip]
  }

  lemma {:induction false} RunIsLater(st: State, exempt: Exempt, ips: seq<Addr>)
    ensures Later(st, Run(st, exempt, ips))
    ensures var st' := Run(st, exempt, ips);
            st'.current4 <= st.current4 + |ips| && st'.current6 <= st.current6 + |ips|
  {
    if ips != [] {
      RunIsLater(st, exempt, ips[..|ips| - 1]);
    }
  }

  /** A history no longer than the room left never runs out of addresses. */
  lemma NoExhaustion(start4: nat, start6: nat, exempt: Exempt, ips: seq<Addr>)
    requires start4 + |ips| < LIMIT4 && start6 + |ips| < LIMIT6
    ensures var st := Run(New(start4, start6), exempt, ips); st.current4 < LIMIT4 && st.current6 < LIMIT6
  {
    RunIsLater(New(start4, start6), exempt, ips);
  }

  /** The number of the address was handed out in its family, whatever its zone. */
  predicate InBlock(st: State, ip: Addr) {
    match ip
    case V4(a) => st.start4 <= a < st.current4
    case V6(a, _) => st.start6 <= a < st.current6
  }

  /** The address to be handed out next in the family of `ip`. */
  function Next(st: State, ip: Addr): Addr {
    if ip.V4? then V4(st.current4) else V6(st.current6, "")
  }

  /** Exactly which addresses are returned as they are: exempt ones, those whose number was handed
      out, and the next one itself. Any other gets the image it has or else the next address. */
  lemma AnswerExactly(st: State, exempt: Exempt, ip: Addr)
    requires Inv(st)
    ensures var (st', y) := Anonymize(st, exempt, ip);
            && (y == ip <==> exempt(ip) || InBlock(st, ip) || ip == Next(st, ip))
            && (y == ip || ip in st.cache ==> st' == st)
            && (y != ip ==> y == if ip in st.cache then st.cache[ip] else Next(st, ip))
            && (y != ip && ip !in st.cache ==> st'.cache == st.cache[ip := y] && Next(st', ip) != Next(st, ip))
  {
    if ip in st.cache {
      assert IsImage(st, st.cache[ip]);
    }
  }

  // ---------- Idempotence and stability ----------

  /** Anonymizing an image gives the image, at once and at all later times. */
  lemma IdempotentForever(st: State, exempt: Exempt, ip: Addr, later: seq<Addr>)
    requires Inv(st)
    ensures var (st1, y) := Anonymize(st, exempt, ip);
            var st2 := Run(st1, exempt, later);
            Anonymize(st2, exempt, y) == (st2, y)
  {
    var (st1, y) := Anonymize(st, exempt, ip);
    RunIsLater(st1, exempt, later);
    if !Kept(st, exempt, ip) && ip in st.cache {
      assert IsImage(st, y);
    }
  }

  /** The image of an address is the same at a later time exactly when the block has not grown over
      the address in between. */
  lemma StableExactly(st: State, exempt: Exempt, ip: Addr, later: seq<Addr>)
    requires Inv(st)
    ensures var (st1, y) := Anonymize(st, exempt, ip);
            var st2 := Run(st1, exempt, later);
            Anonymize(st2, exempt, ip).1 == y <==> (Kept(st, exempt, ip) || !InRange(st2, ip))
  {
    var (st1, y) := Anonymize(st, exempt, ip);
    RunIsLater(st1, exempt, later);
    if !Kept(st, exempt, ip) && ip in st.cache {
      assert IsImage(st, y);
    }
  }

  /** Anonymized first, 198.51.100.2 gets the image 198.51.100.0. After one more address the block
      has grown over it, and it is returned as it is. */
  lemma ImageChanges(exempt: Exempt)
    requires !exempt(V4(0xC6336402)) && !exempt(V4(0x01020304))
    ensures var st := New(0xC6336400, 0);
            var ip := V4(0xC6336402);
            && Anonymize(st, exempt, ip).1 == V4(0xC6336400)
            && Anonymize(Run(st, exempt, [ip, V4(0x01020304)]), exempt, ip).1 == ip
  {
    var st, ip := New(0xC6336400, 0), V4(0xC6336402);
    RunTwo(st, exempt, ip, V4(0x01020304));
  }

  lemma RunTwo(st: State, exempt: Exempt, x: Addr, y: Addr)
    ensures Run(st, exempt, [x]) == Anonymize(st, exempt, x).0
    ensures Run(st, exempt, [x, y]) == Anonymize(Anonymize(st, exempt, x).0, exempt, y).0
  {
    assert [x][..0] == [];
    assert [x, y][..1] == [x];
  }

  // ---------- Shared images ----------

  /** What the i-th call of a history returned. */
  function Answer(st: State, exempt: Exempt, ips: seq<Addr>, i: nat): Addr
    requires i < |ips|
  {
    Anonymize(Run(st, exempt, ips[..i]), exempt, ips[i]).1
  }

  lemma LaterTwice(a: State, b: State, c: State)
    requires Later(a, b) && Later(b, c)
    ensures Later(a, c)
  {
  }

  lemma {:induction false} RunFromPrefix(st: State, exempt: Exempt, ips: seq<Addr>, i: nat)
    requires i <= |ips|
    ensures Later(Run(st, exempt, ips[..i]), Run(st, exempt, ips))
    decreases |ips|
  {
    if i == |ips| {
      assert ips[..i] == ips;
    } else {
      var n := |ips| - 1;
      RunFromPrefix(st, exempt, ips[..n], i);
      assert ips[..n][..i] == ips[..i];
      LaterTwice(Run(st, exempt, ips[..i]), Run(st, exempt, ips[..n]), Run(st, exempt, ips));
    }
  }

  /** The answer to a call that is not kept was handed out by then. */
  lemma AnswerIsHandedOut(st: State, exempt: Exempt, ips: seq<Addr>, i: nat)
    requires Inv(st) && i < |ips| && !Kept(Run(st, exempt, ips[..i]), exempt, ips[i])
    ensures HandedOut(Run(st, exempt, ips[..i + 1]), Answer(st, exempt, ips, i))
    ensures HandedOut(Run(st, exempt, ips), Answer(st, exempt, ips, i))
  {
    var before, after := Run(st, exempt, ips[..i]), Run(st, exempt, ips[..i + 1]);
    RunKeepsInv(st, exempt, ips[..i]);
    assert ips[..i + 1][..i] == ips[..i];
    assert after == Anonymize(before, exempt, ips[i]).0;
    if ips[i] in before.cache {
      assert IsImage(before, before.cache[ips[i]]);
    }
    RunFromPrefix(st, exempt, ips, i + 1);
  }

  /** The address was asked for and returned as it is. */
  ghost predicate PassedThrough(st: State, exempt: Exempt, ips: seq<Addr>, y: Addr) {
    exists i :: 0 <= i < |ips| && ips[i] == y && Kept(Run(st, exempt, ips[..i]), exempt, y)
  }

  /** A new image was returned before, by some earlier call of the history, exactly when it was
      itself asked for at a time when it was exempt or already counted as handed out. */
  lemma NewImageSharedExactly(st: State, exempt: Exempt, ips: seq<Addr>, z: Addr)
    requires Inv(st) && !Kept(Run(st, exempt, ips), exempt, z) && z !in Run(st, exempt, ips).cache
    ensures var y := Anonymize(Run(st, exempt, ips), exempt, z).1;
            && y == Next(Run(st, exempt, ips), z)
            && ((exists i :: 0 <= i < |ips| && Answer(st, exempt, ips, i) == y) <==>
                PassedThrough(st, exempt, ips, y))
  {
    var y := Next(Run(st, exempt, ips), z);
    if i :| 0 <= i < |ips| && Answer(st, exempt, ips, i) == y {
      if !Kept(Run(st, exempt, ips[..i]), exempt, ips[i]) {
        AnswerIsHandedOut(st, exempt, ips, i);
        assert false;
      }
      assert PassedThrough(st, exempt, ips, y);
    }
    if PassedThrough(st, exempt, ips, y) {
      var i :| 0 <= i < |ips| && ips[i] == y && Kept(Run(st, exempt, ips[..i]), exempt, y);
      assert Answer(st, exempt, ips, i) == y;
    }
  }

  /** At any time, asking for the next address of a family and then for a new one gives the same
      answer twice. */
  lemma NextAddressIsShared(st: State, exempt: Exempt, z: Addr)
    requires Inv(st) && !Kept(st, exempt, z) && z !in st.cache
    ensures var x := Next(st, z);
            x != z && Answer(st, exempt, [x, z], 0) == Answer(st, exempt, [x, z], 1) == x
  {
    var x := Next(st, z);
    assert [x, z][..0] == [] && [x, z][..1] == [x];
    RunTwo(st, exempt, x, z);
    assert InRange(st, x);
  }

  /** With a block that starts below a well-known address: 8.8.8.8 is returned as it is, and two
      addresses later it is handed out. */
  lemma ExemptAddressIsShared(exempt: Exempt)
    requires exempt(V4(0x08080808)) && !exempt(V4(0x01020304)) && !exempt(V4(0x01020305))
    ensures var st := New(0x08080807, 0);
            var ips := [V4(0x08080808), V4(0x01020304), V4(0x01020305)];
            Answer(st, exempt, ips, 0) == V4(0x08080808) == Answer(st, exempt, ips, 2)
  {
    var st := New(0x08080807, 0);
    var ips := [V4(0x08080808), V4(0x01020304), V4(0x01020305)];
    assert ips[..0] == [] && ips[..2] == [V4(0x08080808), V4(0x01020304)];
    RunTwo(st, exempt, V4(0x08080808), V4(0x01020304));
  }

  /** The address lies outside the part of its family that `n` calls can hand out. */
  predicate OutsideBlock(st: State, n: nat, ip: Addr) {
    match ip
    case V4(a) => a < st.start4 || st.current4 + n <= a
    case V6(a, _) => a < st.start6 || st.current6 + n <= a
  }

  lemma OutsideAnswer(st: State, exempt: Exempt, ips: seq<Addr>, i: nat)
    requires Inv(st) && i < |ips| && OutsideBlock(st, |ips|, ips[i])
    ensures var at := Run(st, exempt, ips[..i]);
            && (Kept(at, exempt, ips[i]) <==> exempt(ips[i]))
            && (!exempt(ips[i]) ==>
                  var last := Run(st, exempt, ips);
                  ips[i] in last.cache && last.cache[ips[i]] == Answer(st, exempt, ips, i))
  {
    RunIsLater(st, exempt, ips[..i]);
    assert ips[..i + 1][..i] == ips[..i];
    RunFromPrefix(st, exempt, ips, i + 1);
  }

  /** A history without addresses from the block it may hand out is answered injectively and
      consistently, whichever of its addresses are exempt. */
  lemma CleanHistoryIsInjective(st: State, exempt: Exempt, ips: seq<Addr>, i: nat, j: nat)
    requires Inv(st) && i < |ips| && j < |ips| && forall k :: 0 <= k < |ips| ==> OutsideBlock(st, |ips|, ips[k])
    ensures Answer(st, exempt, ips, i) == Answer(st, exempt, ips, j) <==> ips[i] == ips[j]
  {
    RunKeepsInv(st, exempt, ips);
    RunIsLater(st, exempt, ips);
    ImageOrSelf(st, exempt, ips, i);
    ImageOrSelf(st, exempt, ips, j);
    OutsideAnswer(st, exempt, ips, i);
    OutsideAnswer(st, exempt, ips, j);
  }

  /** In such a history an answer is the address itself, outside the block, or was handed out. */
  lemma ImageOrSelf(st: State, exempt: Exempt, ips: seq<Addr>, i: nat)
    requires Inv(st) && i < |ips| && OutsideBlock(st, |ips|, ips[i])
    ensures if exempt(ips[i]) then Answer(st, exempt, ips, i) == ips[i]
            else HandedOut(Run(st, exempt, ips), Answer(st, exempt, ips, i))
  {
    OutsideAnswer(st, exempt, ips, i);
    if !exempt(ips[i]) {
      AnswerIsHandedOut(st, exempt, ips, i);
    }
  }

  // ---------- The object ----------

  class IpAnonymizer {
    const exempt: Exempt
    var ipAnonymizer: map<Addr, Addr>
    var currentAnonIPv4: nat
    var currentAnonIPv6: nat
    const startAnonIPv4: nat
    const startAnonIPv6: nat

    ghost function View(): State
      reads this
    {
      State(ipAnonymizer, startAnonIPv4, currentAnonIPv4, startAnonIPv6, currentAnonIPv6)
    }

    constructor (exempt: Exempt, startIPv4: nat, startIPv6: nat)
      ensures this.exempt == exempt && View() == New(startIPv4, startIPv6) && Inv(View())
    {
      this.exempt := exempt;
      ipAnonymizer := map[];
      currentAnonIPv4, currentAnonIPv6 := startIPv4, startIPv6;
      startAnonIPv4, startAnonIPv6 := startIPv4, startIPv6;
      new;
      NewInv(startIPv4, startIPv6);
    }

    method IsInAnonymizedRange(ip: Addr) returns (inRange: bool)
      ensures inRange == InRange(View(), ip)
    {
      match ip {
        case V4(a) => inRange := startAnonIPv4 <= a <= currentAnonIPv4;
        case V6(a, zone) =>
          inRange := startAnonIPv6 <= a && (a < currentAnonIPv6 || (a == currentAnonIPv6 && zone == ""));
      }
    }

    method AnonymizeIP(ip: Addr) returns (image: Addr)
      requires Inv(View())
      modifies this
      ensures Inv(View()) && (View(), image) == Anonymize(old(View()), exempt, ip)
    {
      CallKeepsInv(View(), exempt, ip);
      var inRange := IsInAnonymizedRange(ip);
      if exempt(ip) || inRange {
        return ip;
      }
      if ip !in ipAnonymizer {
        if ip.V4? {
          ipAnonymizer := ipAnonymizer[ip := V4(currentAnonIPv4)];
          currentAnonIPv4 := currentAnonIPv4 + 1;
        } else {
          ipAnonymizer := ipAnonymizer[ip := V6(currentAnonIPv6, "")];
          currentAnonIPv6 := currentAnonIPv6 + 1;
        }
      }
      return ipAnonymizer[ip];
    }
  }
}
