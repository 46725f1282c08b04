/** The environment variables of the installed service: parsing KEY=VALUE entries, printing them,
    and merging them with the saved ones over repeated installs (client/cmd/service.go,
    client/cmd/service_params.go, client/cmd/service_installer.go). */
module ServiceEnv {
  import opened Text

  type EnvMap = map<string, string>

  // ---------- White space ----------

  /** The white-space characters that TrimSpace removes. */
  predicate IsSpace(c: char) {
    || '\t' <= c <= '\r' || c == ' ' || c == '\U{85}' || c == '\U{A0}' || c == '\U{1680}'
    || '\U{2000}' <= c <= '\U{200A}' || c == '\U{2028}' || c == '\U{2029}' || c == '\U{202F}'
    || c == '\U{205F}' || c == '\U{3000}'
  }

  function TrimLeft(s: string): string {
    if s != "" && IsSpace(s[0]) then TrimLeft(s[1..]) else s
  }

  function TrimRight(s: string): string {
    if s != "" && IsSpace(s[|s| - 1]) then TrimRight(s[..|s| - 1]) else s
  }

  function TrimSpace(s: string): string {
    TrimRight(TrimLeft(s))
  }

  predicate Trimmed(s: string) {
    s == "" || (!IsSpace(s[0]) && !IsSpace(s[|s| - 1]))
  }

  lemma {:induction false} TrimLeftResult(s: string)
    ensures TrimLeft(s) == "" || !IsSpace(TrimLeft(s)[0])
    ensures forall c :: c in TrimLeft(s) ==> c in s
  {
    if s != "" && IsSpace(s[0]) {
      TrimLeftResult(s[1..]);
    }
  }

  lemma {:induction false} TrimRightResult(s: string)
    ensures var r := TrimRight(s);
            && (r == "" || (!IsSpace(r[|r| - 1]) && s != "" && r[0] == s[0]))
            && (forall c :: c in r ==> c in s)
  {
    if s != "" && IsSpace(s[|s| - 1]) {
      TrimRightResult(s[..|s| - 1]);
    }
  }

  lemma TrimSpaceResult(s: string)
    ensures Trimmed(TrimSpace(s)) && forall c :: c in TrimSpace(s) ==> c in s
  {
    TrimLeftResult(s);
    TrimRightResult(TrimLeft(s));
  }

  lemma TrimmedStays(s: string)
    requires Trimmed(s)
    ensures TrimSpace(s) == s
  {
  }

  // ---------- Parsing ----------

  /** The position of the first '=', or the length. */
  function IndexEq(s: string): (i: nat)
    ensures i <= |s|
  {
    if s == "" || s[0] == '=' then 0 else IndexEq(s[1..]) + 1
  }

  lemma {:induction false} NoEarlierEq(s: string)
    ensures '=' !in s[..IndexEq(s)]
  {
    if s != "" && s[0] != '=' {
      NoEarlierEq(s[1..]);
      var i := IndexEq(s);
      assert s[..i] == [s[0]] + s[1..][..i - 1];
    }
  }

  datatype Entry = Bad | Pair(key: string, value: string)

  /** One non-empty entry. */
  function ParseEntry(s: string): Entry {
    var i := IndexEq(s);
    if i == |s| then Bad
    else
      var key := TrimSpace(s[..i]);
      if key == "" then Bad else Pair(key, TrimSpace(s[i + 1..]))
  }

  /** Empty entries are skipped, a bad one fails the whole list, later ones win. */
  function Parse(envs: seq<string>): Option<EnvMap> {
    if envs == [] then Some(map[])
    else
      var n := |envs| - 1;
      var r := Parse(envs[..n]);
      if r.None? || envs[n] == "" then r
      else
        match ParseEntry(envs[n])
        case Bad => None
        case Pair(k, v) => Some(r.value[k := v])
  }

  lemma {:induction false} StaysBad(envs: seq<string>, n: nat)
    requires n <= |envs| && Parse(envs[..n]).None?
    ensures Parse(envs).None?
    decreases |envs| - n
  {
    if n < |envs| {
      assert envs[..n + 1][..n] == envs[..n];
      StaysBad(envs, n + 1);
    } else {
      assert envs[..n] == envs;
    }
  }

  method ParseServiceEnvVars(envs: seq<string>) returns (r: Option<EnvMap>)
    ensures r == Parse(envs)
  {
    var envMap: EnvMap := map[];
    for i := 0 to |envs|
      invariant Parse(envs[..i]) == Some(envMap)
    {
      assert envs[..i + 1][..i] == envs[..i];
      if envs[i] == "" {
        continue;
      }
      match ParseEntry(envs[i]) {
        case Bad =>
          StaysBad(envs, i + 1);
          return None;
        case Pair(k, v) => envMap := envMap[k := v];
      }
    }
    assert envs[..|envs|] == envs;
    return Some(envMap);
  }

  // ---------- What parsing decides ----------

  predicate AllSpace(s: string) {
    forall c :: c in s ==> IsSpace(c)
  }

  /** `t` is `s` without the white space around it. */
  ghost predicate TrimOf(t: string, s: string) {
    Trimmed(t) && exists a, b :: AllSpace(a) && AllSpace(b) && s == a + t + b
  }

  lemma {:induction false} TrimLeftSplits(s: string) returns (a: string)
    ensures AllSpace(a) && s == a + TrimLeft(s)
  {
    a := "";
    if s != "" && IsSpace(s[0]) {
      var rest := TrimLeftSplits(s[1..]);
      a := [s[0]] + rest;
      assert s == [s[0]] + s[1..];
    }
  }

  lemma {:induction false} TrimRightSplits(s: string) returns (b: string)
    ensures AllSpace(b) && s == TrimRight(s) + b
  {
    b := "";
    if s != "" && IsSpace(s[|s| - 1]) {
      var rest := TrimRightSplits(s[..|s| - 1]);
      b := rest + [s[|s| - 1]];
      assert s == s[..|s| - 1] + [s[|s| - 1]];
    }
  }

  lemma {:induction false} TrimLeftDrops(a: string, s: string)
    requires AllSpace(a)
    ensures TrimLeft(a + s) == TrimLeft(s)
  {
    if a == "" {
      assert a + s == s;
    } else {
      assert (a + s)[1..] == a[1..] + s;
      TrimLeftDrops(a[1..], s);
    }
  }

  lemma {:induction false} TrimRightDrops(s: string, b: string)
    requires AllSpace(b)
    ensures TrimRight(s + b) == TrimRight(s)
  {
    if b == "" {
      assert s + b == s;
    } else {
      assert (s + b)[..|s + b| - 1] == s + b[..|b| - 1];
      TrimRightDrops(s, b[..|b| - 1]);
    }
  }

  /** Trimming gives the one text that is left without the white space around. */
  lemma TrimSpaceExactly(s: string, t: string)
    ensures t == TrimSpace(s) <==> TrimOf(t, s)
  {
    if t == TrimSpace(s) {
      TrimSpaceResult(s);
      var a := TrimLeftSplits(s);
      var b := TrimRightSplits(TrimLeft(s));
      assert s == a + t + b;
    }
    if TrimOf(t, s) {
      var a, b :| AllSpace(a) && AllSpace(b) && s == a + t + b;
      assert s == a + (t + b);
      TrimLeftDrops(a, t + b);
      if t == "" {
        assert t + b == b + "";
        TrimLeftDrops(b, "");
      } else {
        assert TrimLeft(t + b) == t + b;
        TrimRightDrops(t, b);
      }
    }
  }

  /** The entry is `k` and `v` around its first '=', each with any white space around it. */
  ghost predicate Says(s: string, k: string, v: string) {
    k != "" && exists a, b :: s == a + "=" + b && '=' !in a && TrimOf(k, a) && TrimOf(v, b)
  }

  /** There is only one way to cut an entry at its first '='. */
  lemma CutAtFirstEq(s: string, a: string, b: string)
    ensures s == a + "=" + b && '=' !in a <==>
            IndexEq(s) == |a| && |a| < |s| && s[..|a|] == a && s[|a| + 1..] == b
  {
    if s == a + "=" + b && '=' !in a {
      FirstEq(a, b);
    }
    if IndexEq(s) == |a| && |a| < |s| && s[..|a|] == a && s[|a| + 1..] == b {
      FoundEq(s);
      NoEarlierEq(s);
      assert s == s[..|a|] + [s[|a|]] + s[|a| + 1..];
    }
  }

  lemma SaysAtFirstEq(s: string, k: string, v: string)
    ensures Says(s, k, v) <==>
            k != "" && IndexEq(s) < |s| && TrimOf(k, s[..IndexEq(s)]) && TrimOf(v, s[IndexEq(s) + 1..])
  {
    var i := IndexEq(s);
    if i < |s| {
      CutAtFirstEq(s, s[..i], s[i + 1..]);
    }
    if Says(s, k, v) {
      var a, b :| s == a + "=" + b && '=' !in a && TrimOf(k, a) && TrimOf(v, b);
      CutAtFirstEq(s, a, b);
    }
  }

  lemma {:induction false} FoundEq(s: string)
    ensures IndexEq(s) < |s| ==> s[IndexEq(s)] == '='
  {
    if s != "" && s[0] != '=' {
      FoundEq(s[1..]);
    }
  }

  /** For every text: what an entry is parsed to, and that an entry fails exactly when it has no '='
      or nothing but white space before the first one. */
  lemma EntryExactly(s: string, k: string, v: string)
    ensures ParseEntry(s) == Pair(k, v) <==> Says(s, k, v)
    ensures ParseEntry(s) == Bad <==> '=' !in s || exists a, b :: s == a + "=" + b && AllSpace(a)
  {
    var i := IndexEq(s);
    SaysAtFirstEq(s, k, v);
    NoEarlierEq(s);
    FoundEq(s);
    TrimSpaceExactly(s[..i], "");
    if i < |s| {
      TrimSpaceExactly(s[..i], k);
      TrimSpaceExactly(s[i + 1..], v);
      assert s == s[..i] + "=" + s[i + 1..];
      BlankExactly(s[..i]);
      if a, b :| s == a + "=" + b && AllSpace(a) {
        FirstEq(a, b);
        assert s[..|a|] == a;
      }
    } else {
      assert s[..i] == s;
    }
  }

  lemma BlankExactly(s: string)
    ensures TrimOf("", s) <==> AllSpace(s)
  {
    if AllSpace(s) {
      var a: string, b: string := s, "";
      assert AllSpace(a) && AllSpace(b) && s == a + "" + b;
    }
  }

  /** Entry `i` sets the variable and no later entry sets it again. */
  ghost predicate SetLast(envs: seq<string>, i: nat, k: string, v: string) {
    && i < |envs| && envs[i] != "" && Says(envs[i], k, v)
    && forall j, u :: i < j < |envs| && envs[j] != "" ==> !Says(envs[j], k, u)
  }

  /** For every list: it parses exactly when each entry is empty or says something, and then a variable
      has a value exactly when the last entry for it says so. */
  lemma {:induction false} ParseExactly(envs: seq<string>, k: string, v: string)
    ensures Parse(envs).Some? <==> forall e :: e in envs && e != "" ==> ParseEntry(e) != Bad
    ensures Parse(envs).Some? ==>
              ((k in Parse(envs).value && Parse(envs).value[k] == v) <==> exists i :: SetLast(envs, i, k, v))
  {
    if envs != [] {
      var n := |envs| - 1;
      var front, e := envs[..n], envs[n];
      assert envs == front + [e];
      ParseExactly(front, k, v);
      if Parse(envs).Some? {
        SetLastStep(front, e, k, v);
        if e != "" {
          var p := ParseEntry(e);
          EntryExactly(e, p.key, p.value);
        }
      }
    }
  }

  lemma SetLastStep(front: seq<string>, e: string, k: string, v: string)
    requires e != "" ==> ParseEntry(e) != Bad
    ensures (exists i :: SetLast(front + [e], i, k, v)) <==>
            if e != "" && ParseEntry(e).key == k then ParseEntry(e).value == v
            else exists i :: SetLast(front, i, k, v)
  {
    var all, n := front + [e], |front|;
    assert all[n] == e;
    forall u ensures e != "" ==> (Says(e, k, u) <==> ParseEntry(e) == Pair(k, u)) {
      EntryExactly(e, k, u);
    }
    assert forall i :: 0 <= i < n ==> all[i] == front[i];
    if e != "" && ParseEntry(e).key == k {
      assert Says(e, k, ParseEntry(e).value);
      assert forall i :: SetLast(all, i, k, v) ==> i == n;
      assert SetLast(all, n, k, v) <==> ParseEntry(e).value == v;
    } else {
      forall i: nat ensures SetLast(all, i, k, v) <==> SetLast(front, i, k, v) {
      }
    }
  }

  // ---------- Printing ----------

  predicate GoodKey(k: string) {
    k != "" && Trimmed(k) && '=' !in k
  }

  /** The maps that parsing produces. */
  predicate Printable(m: EnvMap) {
    forall k :: k in m ==> GoodKey(k) && Trimmed(m[k])
  }

  lemma EntryIsGood(s: string)
    requires ParseEntry(s).Pair?
    ensures GoodKey(ParseEntry(s).key) && Trimmed(ParseEntry(s).value)
  {
    var i := IndexEq(s);
    NoEarlierEq(s);
    TrimSpaceResult(s[..i]);
    TrimSpaceResult(s[i + 1..]);
  }

  lemma {:induction false} ParseIsPrintable(envs: seq<string>)
    ensures Parse(envs).Some? ==> Printable(Parse(envs).value)
  {
    if envs != [] {
      var n := |envs| - 1;
      ParseIsPrintable(envs[..n]);
      if ParseEntry(envs[n]).Pair? {
        EntryIsGood(envs[n]);
      }
    }
  }

  /** The keys of a map, each once, in some order. */
  ghost predicate Order(m: EnvMap, keys: seq<string>) {
    && (forall k :: k in keys <==> k in m)
    && (forall i, j :: 0 <= i < j < |keys| ==> keys[i] != keys[j])
  }

  function EntryText(k: string, v: string): string {
    k + "=" + v
  }

  function Printed(m: EnvMap, keys: seq<string>): seq<string>
    requires forall k :: k in keys ==> k in m
  {
    seq(|keys|, i requires 0 <= i < |keys| => EntryText(keys[i], m[keys[i]]))
  }

  /** The list is the map printed in some order. */
  ghost predicate IsPrinting(m: EnvMap, s: seq<string>) {
    exists keys :: Order(m, keys) && s == Printed(m, keys)
  }

  /** The map's entries in whatever order the keys come. */
  method EnvMapToSlice(m: EnvMap) returns (s: seq<string>)
    ensures IsPrinting(m, s)
    ensures forall t :: t in s <==> exists k :: k in m && t == k + "=" + m[k]
  {
    s := [];
    ghost var keys: seq<string> := [];
    var todo := m.Keys;
    while todo != {}
      invariant todo <= m.Keys
      invariant forall k :: k in keys <==> k in m.Keys - todo
      invariant forall i, j :: 0 <= i < j < |keys| ==> keys[i] != keys[j]
      invariant s == Printed(m, keys)
      decreases |todo|
    {
      var k :| k in todo;
      assert forall i :: 0 <= i < |keys| ==> keys[i] in keys;
      s := s + [k + "=" + m[k]];
      keys := keys + [k];
      todo := todo - {k};
    }
    assert Order(m, keys);
    forall t ensures t in s <==> exists k :: k in m && t == k + "=" + m[k] {
      if k :| k in m && t == k + "=" + m[k] {
        var i :| 0 <= i < |keys| && keys[i] == k;
        assert s[i] == t;
      }
    }
  }

  lemma {:induction false} FirstEq(k: string, v: string)
    requires '=' !in k
    ensures IndexEq(k + "=" + v) == |k|
  {
    var s := k + "=" + v;
    if k != "" {
      assert s[0] == k[0];
      assert s[1..] == k[1..] + "=" + v;
      FirstEq(k[1..], v);
    }
  }

  lemma EntryOf(s: string, k: string, v: string)
    requires |k| < |s| && IndexEq(s) == |k| && s[..|k|] == k && s[|k| + 1..] == v
    requires GoodKey(k) && Trimmed(v)
    ensures ParseEntry(s) == Pair(k, v)
  {
    TrimmedStays(k);
    TrimmedStays(v);
  }

  lemma EntryRoundTrip(k: string, v: string)
    requires GoodKey(k) && Trimmed(v)
    ensures ParseEntry(EntryText(k, v)) == Pair(k, v)
  {
    FirstEq(k, v);
    var s := EntryText(k, v);
    assert s[..|k|] == k;
    assert s[|k| + 1..] == v;
    EntryOf(s, k, v);
  }

  /** The map restricted to some of its keys. */
  function Part(m: EnvMap, keys: seq<string>): EnvMap {
    map k | k in m && k in keys :: m[k]
  }

  lemma PartStep(m: EnvMap, keys: seq<string>, k: string)
    requires k in m
    ensures Part(m, keys + [k]) == Part(m, keys)[k := m[k]]
  {
  }

  lemma ParseStep(envs: seq<string>, e: string, k: string, v: string)
    requires Parse(envs).Some? && e != "" && ParseEntry(e) == Pair(k, v)
    ensures Parse(envs + [e]) == Some(Parse(envs).value[k := v])
  {
    assert (envs + [e])[..|envs|] == envs;
  }

  lemma PrintedStep(m: EnvMap, front: seq<string>, k: string)
    requires k in m && forall j :: j in front ==> j in m
    ensures Printed(m, front + [k]) == Printed(m, front) + [EntryText(k, m[k])]
  {
  }

  lemma {:induction false} ParsePrinted(m: EnvMap, keys: seq<string>)
    requires Printable(m) && forall k :: k in keys ==> k in m
    ensures Parse(Printed(m, keys)) == Some(Part(m, keys))
  {
    if keys == [] {
      assert Part(m, []) == map[];
    } else {
      var front, k := keys[..|keys| - 1], keys[|keys| - 1];
      assert keys == front + [k];
      ParsePrinted(m, front);
      PrintedStep(m, front, k);
      EntryRoundTrip(k, m[k]);
      ParseStep(Printed(m, front), EntryText(k, m[k]), k, m[k]);
      PartStep(m, front, k);
    }
  }

  /** Parsing a printed map gives it back exactly when its keys are non-empty, trimmed and free of
      '=' and its values are trimmed, in every iteration order; every map that parsing produces
      is such a map. */
  lemma RoundTripExactly(m: EnvMap, s: seq<string>)
    requires IsPrinting(m, s)
    ensures Parse(s) == Some(m) <==> Printable(m)
  {
    if Printable(m) {
      var keys :| Order(m, keys) && s == Printed(m, keys);
      ParsePrinted(m, keys);
      assert Part(m, keys) == m;
    } else {
      ParseIsPrintable(s);
    }
  }

  // ---------- Installs ----------

  /** The saved map after an install with the given --service-env values, None when the flag is not
      set; the result is None when the values do not parse and the install fails. An empty
      explicit value clears, a non-empty one is merged over the saved map. */
  function Installed(saved: EnvMap, flag: Option<seq<string>>): Option<EnvMap> {
    if flag.None? then Some(saved)
    else
      var explicit := Parse(flag.value);
      if explicit.None? then None
      else if explicit.value == map[] then Some(map[])
      else Some(saved + explicit.value)
  }

  lemma InstalledIsPrintable(saved: EnvMap, flag: Option<seq<string>>)
    requires Printable(saved)
    ensures Installed(saved, flag).Some? ==> Printable(Installed(saved, flag).value)
  {
    if flag.Some? {
      ParseIsPrintable(flag.value);
    }
  }

  /** The package-level variable of one command run, and the parameters file. */
  class ServiceCmd {
    var serviceEnvVars: seq<string>
    var saved: EnvMap

    constructor ()
      ensures saved == map[]
    {
      serviceEnvVars := [];
      saved := map[];
    }

    /** Merges the saved variables into the ones given on the command line. A parameters file that was
        edited by hand may hold any map; the merge comes out right exactly when it is printable. */
    method ApplyServiceEnvParams(changed: bool)
      requires !changed ==> serviceEnvVars == []
      modifies this`serviceEnvVars
      ensures var wanted := Installed(saved, if changed then Some(old(serviceEnvVars)) else None);
              Parse(serviceEnvVars) == wanted <==> (wanted.Some? ==> Printable(wanted.value))
      ensures changed && Parse(old(serviceEnvVars)).None? ==> Parse(serviceEnvVars).None?
    {
      if changed {
        ParseIsPrintable(serviceEnvVars);
      }
      if !changed {
        if |saved| > 0 {
          serviceEnvVars := EnvMapToSlice(saved);
          RoundTripExactly(saved, serviceEnvVars);
        } else {
          assert saved == map[];
        }
        return;
      }
      var explicit := ParseServiceEnvVars(serviceEnvVars);
      if explicit.None? {
        return;
      }
      if |explicit.value| == 0 {
        assert explicit.value == map[];
        serviceEnvVars := [];
        return;
      }
      if |saved| == 0 {
        assert saved == map[];
        assert saved + explicit.value == explicit.value;
        return;
      }
      var merged := saved + explicit.value;
      serviceEnvVars := EnvMapToSlice(merged);
      RoundTripExactly(merged, serviceEnvVars);
    }

    /** A whole install: apply the saved parameters, build the service configuration, save. */
    method Install(flag: Option<seq<string>>) returns (ok: bool)
      modifies this
      ensures ok ==> Printable(saved)
      ensures !ok ==> saved == old(saved)
      ensures Installed(old(saved), flag).None? ==> !ok
      ensures Installed(old(saved), flag).Some? ==>
                (ok && saved == Installed(old(saved), flag).value <==> Printable(Installed(old(saved), flag).value))
    {
      serviceEnvVars := if flag.Some? then flag.value else [];
      ApplyServiceEnvParams(flag.Some?);
      var config := ParseServiceEnvVars(serviceEnvVars);
      if config.None? {
        return false;
      }
      var current := ParseServiceEnvVars(serviceEnvVars);
      ParseIsPrintable(serviceEnvVars);
      saved := current.value;
      return true;
    }
  }

  // ---------- Histories ----------

  datatype Action = Install(flag: Option<seq<string>>) | ResetParams

  /** A failed install saves nothing; resetting removes the file. */
  function After(actions: seq<Action>): EnvMap {
    if actions == [] then map[]
    else
      var n := |actions| - 1;
      var before := After(actions[..n]);
      match actions[n]
      case ResetParams => map[]
      case Install(flag) =>
        var r := Installed(before, flag);
        if r.Some? then r.value else before
  }

  /** A file that only installs and resets have written is always printable, so that every install
      merges as it should. */
  lemma {:induction false} SavedIsPrintable(actions: seq<Action>)
    ensures Printable(After(actions))
  {
    if actions != [] {
      var n := |actions| - 1;
      SavedIsPrintable(actions[..n]);
      if actions[n].Install? {
        InstalledIsPrintable(After(actions[..n]), actions[n].flag);
      }
    }
  }

  /** The map given explicitly by an action, empty for a reset. */
  function Explicit(a: Action): Option<EnvMap> {
    match a
    case ResetParams => Some(map[])
    case Install(flag) => if flag.None? then None else Parse(flag.value)
  }

  /** Action `i` set the variable, and nothing since has set it again or cleared. */
  ghost predicate LastSet(actions: seq<Action>, i: nat, k: string, v: string) {
    && i < |actions| && Explicit(actions[i]).Some?
    && k in Explicit(actions[i]).value && Explicit(actions[i]).value[k] == v
    && forall j :: i < j < |actions| && Explicit(actions[j]).Some? ==>
                   Explicit(actions[j]).value != map[] && k !in Explicit(actions[j]).value
  }

  lemma LastSetStep(actions: seq<Action>, a: Action, i: nat, k: string, v: string)
    requires i < |actions|
    ensures LastSet(actions + [a], i, k, v) <==>
            LastSet(actions, i, k, v) &&
            (Explicit(a).Some? ==> Explicit(a).value != map[] && k !in Explicit(a).value)
  {
    var all := actions + [a];
    assert all[|actions|] == a;
    if LastSet(all, i, k, v) {
      forall j | i < j < |actions| && Explicit(actions[j]).Some?
        ensures Explicit(actions[j]).value != map[] && k !in Explicit(actions[j]).value
      {
        assert all[j] == actions[j];
      }
    }
  }

  /** After any sequence of installs and resets a variable is saved with a value exactly when some
      install set it explicitly to that value and no later one set it again or cleared: the saved
      map is the right-biased merge of all explicit maps since the last clear. */
  lemma {:induction false} SavedIsMergeSinceClear(actions: seq<Action>, k: string, v: string)
    ensures (k in After(actions) && After(actions)[k] == v) <==> exists i :: LastSet(actions, i, k, v)
  {
    if actions != [] {
      var n := |actions| - 1;
      var front, a := actions[..n], actions[n];
      assert actions == front + [a];
      SavedIsMergeSinceClear(front, k, v);
      forall i: nat | i < n ensures LastSet(actions, i, k, v) <==>
        (LastSet(front, i, k, v) && (Explicit(a).Some? ==> Explicit(a).value != map[] && k !in Explicit(a).value))
      {
        LastSetStep(front, a, i, k, v);
      }
      if Explicit(a).Some? && k in Explicit(a).value {
        assert LastSet(actions, n, k, v) <==> Explicit(a).value[k] == v;
      }
    }
  }
}
