/** Equality of nameserver groups by length and membership (dns/nameserver.go). */
module Nameservers {

  datatype NameServer = NameServer(ip: string, nsType: int, port: int)

  datatype NameServerGroup = NameServerGroup(
    id: string, accountId: string, name: string, description: string, nameServers: seq<NameServer>,
    groups: seq<string>, primary: bool, domains: seq<string>, enabled: bool, searchDomainsEnabled: bool)

  // ---------- The list test ----------

  /** What both comparison loops decide: same length, and every element of the first list occurs in
      the second. */
  predicate LengthAndMembers<T(==)>(list: seq<T>, other: seq<T>) {
    |list| == |other| && forall i :: 0 <= i < |list| ==> list[i] in other
  }

  method ContainsNameServer(element: NameServer, list: seq<NameServer>) returns (found: bool)
    ensures found <==> element in list
  {
    for i := 0 to |list|
      invariant element !in list[..i]
    {
      if list[i].ip == element.ip && list[i].nsType == element.nsType && list[i].port == element.port {
        assert list[i] == element;
        return true;
      }
      assert list[..i + 1] == list[..i] + [list[i]];
    }
    assert list[..|list|] == list;
    return false;
  }

  method CompareNameServerList(list: seq<NameServer>, other: seq<NameServer>) returns (same: bool)
    ensures same <==> LengthAndMembers(list, other)
  {
    if |list| != |other| {
      return false;
    }
    for i := 0 to |list|
      invariant forall j :: 0 <= j < i ==> list[j] in other
    {
      var found := ContainsNameServer(list[i], other);
      if !found {
        return false;
      }
    }
    return true;
  }

  method CompareGroupsList(list: seq<string>, other: seq<string>) returns (same: bool)
    ensures same <==> LengthAndMembers(list, other)
  {
    if |list| != |other| {
      return false;
    }
    for i := 0 to |list|
      invariant forall j :: 0 <= j < i ==> list[j] in other
    {
      var found := false;
      for k := 0 to |other|
        invariant !found && list[i] !in other[..k]
      {
        if list[i] == other[k] {
          found := true;
          break;
        }
        assert other[..k + 1] == other[..k] + [other[k]];
      }
      if !found {
        assert other[..|other|] == other;
        return false;
      }
    }
    return true;
  }

  // ---------- When the list test is an equality ----------

  predicate NoDuplicates<T(==)>(list: seq<T>) {
    forall i, j :: 0 <= i < j < |list| ==> list[i] != list[j]
  }

  ghost function Members<T>(list: seq<T>): set<T> {
    set x | x in list
  }

  /** A list has at most as many members as places, and as many exactly without duplicates. */
  lemma {:induction false} Pigeonhole<T>(list: seq<T>)
    ensures |Members(list)| <= |list|
    ensures |Members(list)| == |list| <==> NoDuplicates(list)
  {
    if list != [] {
      var n := |list| - 1;
      var front, x := list[..n], list[n];
      assert list == front + [x];
      Pigeonhole(front);
      assert Members(list) == Members(front) + {x};
      if x in front {
        assert Members(list) == Members(front);
        var i :| 0 <= i < n && front[i] == x;
        assert list[i] == list[n];
      } else {
        assert |Members(list)| == |Members(front)| + 1;
        if NoDuplicates(front) {
          forall i, j | 0 <= i < j < |list| ensures list[i] != list[j] {
            assert j == n ==> list[i] in front;
          }
        } else {
          var i, j :| 0 <= i < j < n && front[i] == front[j];
          assert list[i] == list[j];
        }
      }
    }
  }

  lemma SubsetOfSameSize<T>(a: set<T>, b: set<T>)
    requires a <= b && |a| >= |b|
    ensures a == b
  {
    assert |b - a| == |b| - |a|;
    assert b - a == {};
  }

  lemma MembersIncluded<T>(list: seq<T>, other: seq<T>)
    ensures LengthAndMembers(list, other) <==> |list| == |other| && Members(list) <= Members(other)
  {
    if Members(list) <= Members(other) {
      forall i | 0 <= i < |list| ensures list[i] in other {
        assert list[i] in Members(list);
      }
    }
  }

  /** If the first list has no duplicates, the test holds exactly when both lists have the same
      members and the second has no duplicates either. */
  lemma TestIsSetEquality<T>(list: seq<T>, other: seq<T>)
    requires NoDuplicates(list)
    ensures LengthAndMembers(list, other) <==> Members(list) == Members(other) && NoDuplicates(other)
  {
    MembersIncluded(list, other);
    Pigeonhole(list);
    Pigeonhole(other);
    if LengthAndMembers(list, other) {
      SubsetOfSameSize(Members(list), Members(other));
    }
  }

  /** For lists of any kind that pass the test one way, it passes the other way exactly when they have
      equally many different members. */
  lemma SymmetricExactly<T>(list: seq<T>, other: seq<T>)
    requires LengthAndMembers(list, other)
    ensures LengthAndMembers(other, list) <==> |Members(list)| == |Members(other)|
  {
    MembersIncluded(list, other);
    MembersIncluded(other, list);
    if |Members(list)| == |Members(other)| {
      SubsetOfSameSize(Members(list), Members(other));
    }
    if LengthAndMembers(other, list) {
      assert Members(list) == Members(other);
    }
  }

  /** With duplicates it need not be symmetric. */
  lemma NotSymmetricWithDuplicates()
    ensures LengthAndMembers(["a", "a"], ["a", "b"]) && !LengthAndMembers(["a", "b"], ["a", "a"])
  {
    assert ["a", "b"][1] !in ["a", "a"];
  }

  // ---------- Groups ----------

  predicate IsEqual(g: NameServerGroup, other: NameServerGroup) {
    && other.id == g.id && other.name == g.name && other.description == g.description
    && other.primary == g.primary && other.searchDomainsEnabled == g.searchDomainsEnabled
    && LengthAndMembers(g.nameServers, other.nameServers)
    && LengthAndMembers(g.groups, other.groups) && LengthAndMembers(g.domains, other.domains)
  }

  method IsEqualGroup(g: NameServerGroup, other: NameServerGroup) returns (same: bool)
    ensures same <==> IsEqual(g, other)
  {
    if !(other.id == g.id && other.name == g.name && other.description == g.description &&
         other.primary == g.primary && other.searchDomainsEnabled == g.searchDomainsEnabled) {
      return false;
    }
    same := CompareNameServerList(g.nameServers, other.nameServers);
    if same {
      same := CompareGroupsList(g.groups, other.groups);
    }
    if same {
      same := CompareGroupsList(g.domains, other.domains);
    }
  }

  /** Fills fresh lists of the same lengths; the account is not copied. */
  method Copy(g: NameServerGroup) returns (c: NameServerGroup)
    ensures c == g.(accountId := "") && IsEqual(g, c) && IsEqual(c, g)
  {
    var nameServers := CopyList(g.nameServers);
    var groups := CopyList(g.groups);
    var domains := CopyList(g.domains);
    c := NameServerGroup(g.id, "", g.name, g.description, nameServers, groups, g.primary, domains, g.enabled,
                         g.searchDomainsEnabled);
  }

  method CopyList<T>(src: seq<T>) returns (dst: seq<T>)
    ensures dst == src
  {
    dst := [];
    for i := 0 to |src|
      invariant dst == src[..i]
    {
      dst := dst + [src[i]];
    }
  }

  predicate Clean(g: NameServerGroup) {
    NoDuplicates(g.nameServers) && NoDuplicates(g.groups) && NoDuplicates(g.domains)
  }

  /** The parts of a group that IsEqual looks at, lists taken as sets. */
  ghost function Essence(g: NameServerGroup): (string, string, string, bool, bool, set<NameServer>, set<string>, set<string>) {
    (g.id, g.name, g.description, g.primary, g.searchDomainsEnabled,
     Members(g.nameServers), Members(g.groups), Members(g.domains))
  }

  /** Among groups without duplicate entries IsEqual is agreement on those parts, and therefore an
      equivalence; the account and the enabled flag play no role. */
  lemma CleanEqualIsEssence(g: NameServerGroup, other: NameServerGroup)
    requires Clean(g)
    ensures IsEqual(g, other) <==> Clean(other) && Essence(g) == Essence(other)
  {
    TestIsSetEquality(g.nameServers, other.nameServers);
    TestIsSetEquality(g.groups, other.groups);
    TestIsSetEquality(g.domains, other.domains);
  }

  /** The same number of different entries in each of the three lists. */
  ghost predicate SameSizes(a: NameServerGroup, b: NameServerGroup) {
    && |Members(a.nameServers)| == |Members(b.nameServers)|
    && |Members(a.groups)| == |Members(b.groups)| && |Members(a.domains)| == |Members(b.domains)|
  }

  /** IsEqual is reflexive and transitive on all groups. It is symmetric exactly between groups with
      equally many different entries in each list, and so among groups without duplicates. */
  lemma EqualIsPreorder(a: NameServerGroup, b: NameServerGroup, c: NameServerGroup)
    ensures IsEqual(a, a)
    ensures IsEqual(a, b) && IsEqual(b, c) ==> IsEqual(a, c)
    ensures IsEqual(a, b) ==> (IsEqual(b, a) <==> SameSizes(a, b))
    ensures Clean(a) && IsEqual(a, b) ==> IsEqual(b, a)
  {
    if IsEqual(a, b) {
      SymmetricExactly(a.nameServers, b.nameServers);
      SymmetricExactly(a.groups, b.groups);
      SymmetricExactly(a.domains, b.domains);
      if Clean(a) {
        CleanEqualIsEssence(a, b);
      }
    }
  }
}
