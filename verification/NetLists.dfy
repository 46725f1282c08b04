/** List comparisons used when a network map is reconciled: compareNetIPLists
    (client/internal/engine.go) and SliceDiff (util/common.go). */
module NetLists {
  import opened Text
  import opened PeerState

  /** The prefix parser; None stands for a parse error. */
  type Parser = string -> Option<Prefix>

  predicate AllParse(ss: seq<string>, parse: Parser) {
    forall i :: 0 <= i < |ss| ==> parse(ss[i]).Some?
  }

  function Parsed(ss: seq<string>, parse: Parser): seq<Prefix>
    requires AllParse(ss, parse)
  {
    seq(|ss|, i requires 0 <= i < |ss| => parse(ss[i]).value)
  }

  /** The texts all parse and name the same prefixes, counted with multiplicity. */
  ghost predicate SamePrefixes(ps: seq<Prefix>, ss: seq<string>, parse: Parser) {
    AllParse(ss, parse) && multiset(Parsed(ss, parse)) == multiset(ps)
  }

  function Count(freq: map<Prefix, nat>, p: Prefix): nat {
    if p in freq then freq[p] else 0
  }

  lemma TakeOne<T>(s: seq<T>, i: nat)
    requires i < |s|
    ensures multiset(s[..i + 1]) == multiset(s[..i]) + multiset{s[i]}
  {
    assert s[..i + 1] == s[..i] + [s[i]];
  }

  lemma ParsedTake(ss: seq<string>, i: nat, parse: Parser)
    requires i <= |ss| && AllParse(ss, parse)
    ensures Parsed(ss[..i], parse) == Parsed(ss, parse)[..i]
  {
  }

  /** One more parsed element than the list holds rules out equality. */
  lemma Surplus(ps: seq<Prefix>, ss: seq<string>, i: nat, parse: Parser)
    requires i < |ss| && AllParse(ss[..i], parse) && parse(ss[i]).Some?
    requires multiset(Parsed(ss[..i], parse))[parse(ss[i]).value] == multiset(ps)[parse(ss[i]).value]
    ensures !SamePrefixes(ps, ss, parse)
  {
    if AllParse(ss, parse) {
      var p := parse(ss[i]).value;
      var full := Parsed(ss, parse);
      ParsedTake(ss, i, parse);
      TakeOne(full, i);
      assert full == full[..i + 1] + full[i + 1..];
      assert multiset(full)[p] >= multiset(full[..i + 1])[p] > multiset(ps)[p];
    }
  }

  /** What is left in the frequency map plus the first `i` parsed texts is the whole list. */
  ghost predicate Balance(freq: map<Prefix, nat>, ps: seq<Prefix>, ss: seq<string>, i: nat, parse: Parser)
    requires i <= |ss|
  {
    && AllParse(ss[..i], parse)
    && forall p :: Count(freq, p) + multiset(Parsed(ss[..i], parse))[p] == multiset(ps)[p]
  }

  lemma BalanceStep(freq: map<Prefix, nat>, ps: seq<Prefix>, ss: seq<string>, i: nat, parse: Parser)
    requires i < |ss| && Balance(freq, ps, ss, i, parse) && parse(ss[i]).Some?
    requires Count(freq, parse(ss[i]).value) > 0
    ensures var p := parse(ss[i]).value;
            Balance(freq[p := Count(freq, p) - 1 as nat], ps, ss, i + 1, parse)
  {
    assert AllParse(ss[..i + 1], parse);
    assert Parsed(ss[..i + 1], parse) == Parsed(ss[..i], parse) + [parse(ss[i]).value];
  }

  lemma BalanceEnds(freq: map<Prefix, nat>, ps: seq<Prefix>, ss: seq<string>, parse: Parser)
    requires Balance(freq, ps, ss, |ss|, parse)
    ensures SamePrefixes(ps, ss, parse) <==> forall p :: p in freq ==> freq[p] == 0
  {
    assert ss[..|ss|] == ss;
    var all := multiset(Parsed(ss, parse));
    if p :| p in freq && freq[p] != 0 {
      assert all[p] < multiset(ps)[p];
    } else {
      assert forall p :: Count(freq, p) == 0;
      assert forall p :: all[p] == multiset(ps)[p];
    }
  }

  lemma DifferentLength(ps: seq<Prefix>, ss: seq<string>, parse: Parser)
    requires |ps| != |ss|
    ensures !SamePrefixes(ps, ss, parse)
  {
    if AllParse(ss, parse) {
      assert |multiset(Parsed(ss, parse))| != |multiset(ps)|;
    }
  }

  method CountPrefixes(ps: seq<Prefix>) returns (freq: map<Prefix, nat>)
    ensures forall p :: Count(freq, p) == multiset(ps)[p]
  {
    freq := map[];
    for i := 0 to |ps|
      invariant forall p :: Count(freq, p) == multiset(ps[..i])[p]
    {
      TakeOne(ps, i);
      freq := freq[ps[i] := Count(freq, ps[i]) + 1];
    }
    assert ps[..|ps|] == ps;
  }

  method AllZero(freq: map<Prefix, nat>) returns (zero: bool)
    ensures zero <==> forall p :: p in freq ==> freq[p] == 0
  {
    var left := freq.Keys;
    while left != {}
      invariant left <= freq.Keys
      invariant forall p :: p in freq.Keys - left ==> freq[p] == 0
      decreases |left|
    {
      var p :| p in left;
      if freq[p] != 0 {
        return false;
      }
      left := left - {p};
    }
    assert forall p :: p in freq ==> p in freq.Keys - left;
    return true;
  }

  /** The frequency-map comparison decides equality as multisets of prefixes. */
  method CompareNetIPLists(list1: seq<Prefix>, list2: seq<string>, parse: Parser) returns (same: bool)
    ensures same <==> SamePrefixes(list1, list2, parse)
  {
    if |list1| != |list2| {
      DifferentLength(list1, list2, parse);
      return false;
    }
    var freq: map<Prefix, nat> := CountPrefixes(list1);
    for i := 0 to |list2|
      invariant Balance(freq, list1, list2, i, parse)
    {
      var p := parse(list2[i]);
      if p.None? {
        return false;
      }
      if Count(freq, p.value) == 0 {
        Surplus(list1, list2, i, parse);
        return false;
      }
      BalanceStep(freq, list1, list2, i, parse);
      freq := freq[p.value := Count(freq, p.value) - 1];
    }
    BalanceEnds(freq, list1, list2, parse);
    same := AllZero(freq);
  }

  /** `x` without the elements of `drop`, in order. */
  function Keep(x: seq<string>, drop: set<string>): seq<string> {
    if x == [] then []
    else
      var n := |x| - 1;
      Keep(x[..n], drop) + (if x[n] in drop then [] else [x[n]])
  }

  lemma {:induction false} KeepMembers(x: seq<string>, drop: set<string>)
    ensures forall v :: v in Keep(x, drop) <==> v in x && v !in drop
  {
    if x != [] {
      KeepMembers(x[..|x| - 1], drop);
      assert x == x[..|x| - 1] + [x[|x| - 1]];
    }
  }

  method SliceDiff(x: seq<string>, y: seq<string>) returns (diff: seq<string>)
    ensures diff == Keep(x, set v | v in y)
    ensures forall v :: v in diff <==> v in x && v !in y
  {
    var mapY: set<string> := {};
    for i := 0 to |y|
      invariant mapY == set v | v in y[..i]
    {
      assert y[..i + 1] == y[..i] + [y[i]];
      mapY := mapY + {y[i]};
    }
    assert y[..|y|] == y;
    diff := [];
    for i := 0 to |x|
      invariant diff == Keep(x[..i], mapY)
    {
      assert x[..i + 1][..i] == x[..i];
      if x[i] !in mapY {
        diff := diff + [x[i]];
      }
    }
    assert x[..|x|] == x;
    KeepMembers(x, mapY);
  }
}
