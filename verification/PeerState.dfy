/** The client's peer connections: the store of connections and the connection manager that
    keeps them permanently open or hands them to the lazy manager (client/internal/conn_mgr.go,
    client/internal/lazyconn/manager/manager.go). */
module PeerState {
  import opened Text

  type Key = string

  /** An allowed-IP prefix, represented by its canonical text. */
  type Prefix = string

  /** A connection object. `id` is its identity; `open` says that the last thing it was told is
      to open rather than to close. */
  datatype Conn = Conn(id: nat, agentVersion: string, allowedIps: seq<Prefix>, open: bool)

  datatype Watcher = Activity | Inactivity

  datatype Managed = Managed(connId: nat, watcher: Watcher)

  /** The lazy manager: the peers it may put to sleep and wake, and those it must leave alone,
      each with the connection it was registered with. */
  datatype Lazy = Lazy(managed: map<Key, Managed>, excludes: map<Key, nat>)

  datatype Mgr = Mgr(enabledLocally: bool, rosenpass: bool, store: map<Key, Conn>, lazy: Option<Lazy>,
                     closed: set<nat>)

  function NewMgr(enabledLocally: bool, rosenpass: bool): Mgr {
    Mgr(enabledLocally, rosenpass, map[], None, {})
  }

  const EMPTY_LAZY := Lazy(map[], map[])

  // ---------- Store ----------

  function OpenKeys(store: map<Key, Conn>, ks: set<Key>): map<Key, Conn> {
    map k | k in store :: if k in ks then store[k].(open := true) else store[k]
  }

  function IdleKeys(store: map<Key, Conn>, ks: set<Key>): map<Key, Conn> {
    map k | k in store :: if k in ks then store[k].(open := false) else store[k]
  }

  // ---------- Lazy manager ----------

  /** Replaces the exclude list. Newly excluded peers stop being managed; peers dropped from the
      list become managed again, as connected ones. */
  function ExcludePeer(l: Lazy, excludes: map<Key, nat>): (Lazy, set<Key>) {
    var added := excludes.Keys - l.excludes.Keys;
    var managed := l.managed - added;
    var back := map k | k in l.excludes && k !in excludes && k !in managed :: Managed(l.excludes[k], Inactivity);
    (Lazy(managed + back, excludes), added)
  }

  predicate Sleeping(l: Lazy, k: Key) {
    k in l.managed && l.managed[k].watcher == Activity
  }

  function Watch(l: Lazy, ks: set<Key>, w: Watcher): Lazy {
    l.(managed := map k | k in l.managed :: if k in ks then l.managed[k].(watcher := w) else l.managed[k])
  }

  /** The sleeping peers among `ks`. */
  function Woken(l: Lazy, ks: set<Key>): set<Key> {
    set k | k in ks && Sleeping(l, k)
  }

  /** The peers among `ks` that are managed and awake. */
  function Tired(l: Lazy, ks: set<Key>): set<Key> {
    set k | k in ks && k in l.managed && l.managed[k].watcher == Inactivity
  }

  // ---------- Connection manager ----------

  function Start(m: Mgr): Mgr {
    if m.lazy.Some? || !m.enabledLocally || m.rosenpass then m else m.(lazy := Some(EMPTY_LAZY))
  }

  function RemoteFlag(m: Mgr, enabled: bool): Mgr {
    if m.enabledLocally then m
    else if enabled then
      if m.lazy.Some? || m.rosenpass then m
      else m.(lazy := Some(EMPTY_LAZY.(managed := map k | k in m.store :: Managed(m.store[k].id, Inactivity))))
    else if m.lazy.None? then m
    else m.(lazy := None, store := OpenKeys(m.store, m.store.Keys))
  }

  function SetExcludeList(m: Mgr, ids: set<Key>): Mgr {
    if m.lazy.None? then m
    else
      var excludes := map k | k in ids && k in m.store :: m.store[k].id;
      var (l, added) := ExcludePeer(m.lazy.value, excludes);
      m.(lazy := Some(l), store := OpenKeys(m.store, added))
  }

  /** What the world answers while a peer is added: whether its version supports lazy connections,
      whether its activity can be monitored, and whether a peer of its HA group is awake. */
  datatype Welcome = Welcome(supported: bool, monitored: bool, groupAwake: bool)

  /** Adds a connection under a key that is not taken; the flag says that it was taken. */
  function AddPeerConn(m: Mgr, k: Key, conn: Conn, w: Welcome): (Mgr, bool) {
    if k in m.store then (m, true)
    else
      var awake := m.(store := m.store[k := conn.(open := true)]);
      if m.lazy.None? || !w.supported then (awake, false)
      else
        var l := m.lazy.value;
        if k in l.excludes then (awake, false)
        else if k in l.managed then (m.(store := m.store[k := conn]), false)
        else if !w.monitored then (awake, false)
        else if w.groupAwake then
          (awake.(lazy := Some(l.(managed := l.managed[k := Managed(conn.id, Inactivity)]))), false)
        else
          (m.(store := m.store[k := conn],
              lazy := Some(l.(managed := l.managed[k := Managed(conn.id, Activity)]))), false)
  }

  function RemovePeerConn(m: Mgr, k: Key): Mgr {
    if k !in m.store then m
    else m.(store := m.store - {k}, closed := m.closed + {m.store[k].id},
            lazy := if m.lazy.None? then None else Some(m.lazy.value.(managed := m.lazy.value.managed - {k})))
  }

  /** A signal message or traffic for a managed sleeping peer wakes it, with the sleeping members
      of its HA groups. */
  function ActivatePeer(m: Mgr, k: Key, group: set<Key>): Mgr {
    if m.lazy.None? || !Sleeping(m.lazy.value, k) then m
    else
      var woken := Woken(m.lazy.value, group + {k});
      m.(lazy := Some(Watch(m.lazy.value, woken, Inactivity)), store := OpenKeys(m.store, woken))
  }

  /** The remote side went idle: a peer that is awake under its current connection goes to sleep. */
  function DeactivatePeer(m: Mgr, k: Key): Mgr {
    if m.lazy.None? || k !in m.store then m
    else
      var l := m.lazy.value;
      if k in l.managed && l.managed[k].connId == m.store[k].id && l.managed[k].watcher == Inactivity then
        m.(lazy := Some(Watch(l, {k}, Activity)), store := IdleKeys(m.store, {k}))
      else m
  }

  /** Managed peers that are awake may be put to sleep at any time. */
  function TimeOut(m: Mgr, ks: set<Key>): Mgr {
    if m.lazy.None? then m
    else
      var l := m.lazy.value;
      var tired := Tired(l, ks);
      m.(lazy := Some(Watch(l, tired, Activity)), store := IdleKeys(m.store, tired))
  }

  function Close(m: Mgr): Mgr {
    m.(lazy := None)
  }

  // ---------- Runs ----------

  /** A step before Close. `Wake` covers ActivatePeer and the manager's own activity event. */
  datatype Step =
    | StartStep
    | FlagStep(enabled: bool)
    | ExcludeStep(ids: set<Key>)
    | AddStep(key: Key, conn: Conn, welcome: Welcome)
    | RemoveStep(key: Key)
    | WakeStep(key: Key, group: set<Key>)
    | SleepStep(key: Key)
    | TimeOutStep(keys: set<Key>)

  /** Waking peers and putting them to sleep. */
  predicate Restless(s: Step) {
    s.WakeStep? || s.SleepStep? || s.TimeOutStep?
  }

  function Apply(m: Mgr, s: Step): Mgr {
    match s
    case StartStep => Start(m)
    case FlagStep(enabled) => RemoteFlag(m, enabled)
    case ExcludeStep(ids) => SetExcludeList(m, ids)
    case AddStep(k, conn, w) => AddPeerConn(m, k, conn, w).0
    case RemoveStep(k) => RemovePeerConn(m, k)
    case WakeStep(k, group) => ActivatePeer(m, k, group)
    case SleepStep(k) => DeactivatePeer(m, k)
    case TimeOutStep(ks) => TimeOut(m, ks)
  }

  function ApplyAll(m: Mgr, steps: seq<Step>): Mgr {
    if steps == [] then m else Apply(ApplyAll(m, steps[..|steps| - 1]), steps[|steps| - 1])
  }

  // ---------- Invariants ----------

  /** The peer was told to open, or the lazy manager holds it. */
  predicate Cared(m: Mgr, k: Key) {
    k in m.store ==> m.store[k].open || (m.lazy.Some? && k in m.lazy.value.managed)
  }

  /** Whatever ran before Close: no stored peer is stranded, rosenpass means no lazy manager, and
      no peer is both managed and excluded. */
  ghost predicate Safe(m: Mgr) {
    && (forall k :: Cared(m, k))
    && (m.rosenpass ==> m.lazy.None?)
    && (m.lazy.Some? ==> m.lazy.value.managed.Keys !! m.lazy.value.excludes.Keys)
  }

  /** The peer is open, or asleep under the manager's activity watch, so traffic or a signal
      message opens it. */
  predicate Wakeable(m: Mgr, k: Key) {
    k in m.store ==> m.store[k].open || (m.lazy.Some? && Sleeping(m.lazy.value, k))
  }

  predicate ManagedStored(m: Mgr) {
    m.lazy.Some? ==> m.lazy.value.managed.Keys <= m.store.Keys
  }

  predicate ExcludedOpen(m: Mgr) {
    m.lazy.Some? ==> forall k :: k in m.lazy.value.excludes && k in m.store ==> m.store[k].open
  }

  /** Safe, every stored peer wakeable, excluded ones open. */
  ghost predicate Attended(m: Mgr) {
    Safe(m) && (forall k :: Wakeable(m, k)) && ExcludedOpen(m)
  }

  /** ... and all managed peers stored. */
  ghost predicate Healthy(m: Mgr) {
    Attended(m) && ManagedStored(m)
  }

  /** The manager holds a peer as awake that is not in the store. */
  predicate HeldAbsent(m: Mgr, k: Key) {
    m.lazy.Some? && k !in m.store && k in m.lazy.value.managed && m.lazy.value.managed[k].watcher == Inactivity
  }

  /** The step adds such a peer with a connection that is not open yet: the manager leaves it alone as
      one it already manages. */
  predicate Strands(m: Mgr, s: Step) {
    s.AddStep? && HeldAbsent(m, s.key) && s.welcome.supported && !s.conn.open
  }

  /** The step does not renew the exclude list while an excluded peer has left the store. */
  predicate NoStaleExclusion(m: Mgr, s: Step) {
    s.ExcludeStep? && m.lazy.Some? ==> m.lazy.value.excludes.Keys <= m.store.Keys
  }

  /** Every step keeps Safe. */
  lemma StepKeepsSafe(m: Mgr, s: Step)
    requires Safe(m)
    ensures Safe(Apply(m, s))
  {
    var m' := Apply(m, s);
    forall k ensures Cared(m', k) {
      assert Cared(m, k);
    }
  }

  /** In every state reachable before Close no stored peer is stranded and rosenpass means that
      there is no lazy manager. */
  lemma {:induction false} RunIsSafe(enabledLocally: bool, rosenpass: bool, steps: seq<Step>)
    ensures Safe(ApplyAll(NewMgr(enabledLocally, rosenpass), steps))
  {
    if steps != [] {
      var n := |steps| - 1;
      RunIsSafe(enabledLocally, rosenpass, steps[..n]);
      StepKeepsSafe(ApplyAll(NewMgr(enabledLocally, rosenpass), steps[..n]), steps[n]);
    }
  }

  /** What adding a peer means for itself and for every other key `j`. */
  lemma AddStepByKey(m: Mgr, k: Key, conn: Conn, w: Welcome, j: Key)
    requires k !in m.store
    ensures var m' := AddPeerConn(m, k, conn, w).0;
            && (j != k ==> (Wakeable(m', j) <==> Wakeable(m, j)) && (HeldAbsent(m', j) <==> HeldAbsent(m, j)))
            && (j == k && Safe(m) ==> (Wakeable(m', k) <==> !Strands(m, AddStep(k, conn, w))))
            && (j == k ==> !HeldAbsent(m', k))
            && (ExcludedOpen(m) ==> ExcludedOpen(m'))
  {
  }

  /** Other steps keep every stored peer wakeable. */
  lemma OtherStepKeepsAttended(m: Mgr, s: Step)
    requires Attended(m) && !s.AddStep?
    ensures Attended(Apply(m, s))
  {
    var m' := Apply(m, s);
    StepKeepsSafe(m, s);
    forall k ensures Wakeable(m', k) {
      assert Wakeable(m, k) && Cared(m, k);
    }
  }

  /** Among all steps only adding a peer can leave a stored peer that nothing wakes, and it does so
      exactly when the manager already holds the key as awake. */
  lemma AttendedExactly(m: Mgr, s: Step)
    requires Attended(m)
    ensures Attended(Apply(m, s)) <==> !Strands(m, s)
  {
    if s.AddStep? && s.key !in m.store {
      StepKeepsSafe(m, s);
      forall j ensures Wakeable(Apply(m, s), j) <==> !(j == s.key && Strands(m, s)) {
        AddStepByKey(m, s.key, s.conn, s.welcome, j);
        assert Wakeable(m, j);
      }
      AddStepByKey(m, s.key, s.conn, s.welcome, s.key);
    } else if !s.AddStep? {
      OtherStepKeepsAttended(m, s);
    }
  }

  ghost predicate NeverStrands(m: Mgr, steps: seq<Step>) {
    steps == [] ||
    (var n := |steps| - 1; NeverStrands(m, steps[..n]) && !Strands(ApplyAll(m, steps[..n]), steps[n]))
  }

  /** After every prefix of the run. */
  ghost predicate AttendedThroughout(m: Mgr, steps: seq<Step>) {
    Attended(ApplyAll(m, steps)) && (steps != [] ==> AttendedThroughout(m, steps[..|steps| - 1]))
  }

  /** Over a whole run every stored peer stays wakeable throughout exactly when no step adds a peer
      that the manager already holds as awake. */
  lemma {:induction false} RunAttendedExactly(m: Mgr, steps: seq<Step>)
    requires Attended(m)
    ensures AttendedThroughout(m, steps) <==> NeverStrands(m, steps)
  {
    if steps != [] {
      var n := |steps| - 1;
      RunAttendedExactly(m, steps[..n]);
      if AttendedThroughout(m, steps[..n]) {
        AttendedExactly(ApplyAll(m, steps[..n]), steps[n]);
      }
    }
  }

  /** A step keeps a healthy state healthy exactly when it does not renew the exclude list while an
      excluded peer has left the store. */
  lemma HealthyExactly(m: Mgr, s: Step)
    requires Healthy(m)
    ensures Healthy(Apply(m, s)) <==> NoStaleExclusion(m, s)
  {
    ManagedStoredExactly(m, s);
    AttendedExactly(m, s);
  }

  /** Among all steps only SetExcludeList can make the manager hold a peer that is not stored, and
      it does so exactly when an excluded peer has left the store, whether or not the new list
      names that peer. */
  lemma ManagedStoredExactly(m: Mgr, s: Step)
    requires Safe(m) && ManagedStored(m)
    ensures ManagedStored(Apply(m, s)) <==> NoStaleExclusion(m, s)
  {
    var m' := Apply(m, s);
    if s.ExcludeStep? && m.lazy.Some? && !NoStaleExclusion(m, s) {
      var k :| k in m.lazy.value.excludes.Keys && k !in m.store.Keys;
      assert k in m'.lazy.value.managed.Keys;
    }
  }

  ghost predicate NoStaleRun(m: Mgr, steps: seq<Step>) {
    steps == [] ||
    (var n := |steps| - 1; NoStaleRun(m, steps[..n]) && NoStaleExclusion(ApplyAll(m, steps[..n]), steps[n]))
  }

  ghost predicate HealthyThroughout(m: Mgr, steps: seq<Step>) {
    Healthy(ApplyAll(m, steps)) && (steps != [] ==> HealthyThroughout(m, steps[..|steps| - 1]))
  }

  /** A run stays healthy throughout exactly when it has no such step. */
  lemma {:induction false} RunHealthyExactly(m: Mgr, steps: seq<Step>)
    requires Healthy(m)
    ensures HealthyThroughout(m, steps) <==> NoStaleRun(m, steps)
  {
    if steps != [] {
      var n := |steps| - 1;
      RunHealthyExactly(m, steps[..n]);
      if HealthyThroughout(m, steps[..n]) {
        HealthyExactly(ApplyAll(m, steps[..n]), steps[n]);
      }
    }
  }

  /** In an attended state a signal message for a stored peer leaves it open, and if it was asleep, the
      stored members of its HA groups too. */
  lemma SignalOpens(m: Mgr, k: Key, group: set<Key>)
    requires Attended(m) && k in m.store
    ensures k in ActivatePeer(m, k, group).store && ActivatePeer(m, k, group).store[k].open
    ensures m.lazy.Some? && Sleeping(m.lazy.value, k) ==>
              forall g :: g in group && g in m.store ==> ActivatePeer(m, k, group).store[g].open
  {
    assert Wakeable(m, k);
    forall g | g in group && g in m.store && m.lazy.Some? && Sleeping(m.lazy.value, k)
      ensures ActivatePeer(m, k, group).store[g].open
    {
      assert Wakeable(m, g);
    }
  }

  /** For a peer that is awake under its current connection the manager's own time-out and the remote
      side's going idle do the same. */
  lemma TimeOutIsSleep(m: Mgr, k: Key)
    requires m.lazy.Some? && k in m.store && k in m.lazy.value.managed
    requires m.lazy.value.managed[k] == Managed(m.store[k].id, Inactivity)
    ensures TimeOut(m, {k}) == DeactivatePeer(m, k)
  {
    assert Tired(m.lazy.value, {k}) == {k};
  }

  /** With the remote flag off and no local enablement every stored peer is open and there is no
      lazy manager. */
  lemma FlagOffOpensAll(m: Mgr)
    requires Safe(m) && !m.enabledLocally
    ensures RemoteFlag(m, false).lazy.None? && RemoteFlag(m, false).store.Keys == m.store.Keys
    ensures forall k :: k in m.store ==> RemoteFlag(m, false).store[k].open
  {
    forall k | k in m.store ensures RemoteFlag(m, false).store[k].open {
      assert Cared(m, k);
    }
  }

  /** Once started by local enablement the lazy manager stays until Close, whatever the remote flag
      says. */
  lemma {:induction false} LocalEnablementWins(m: Mgr, steps: seq<Step>)
    requires m.enabledLocally && m.lazy.Some?
    ensures ApplyAll(m, steps).enabledLocally && ApplyAll(m, steps).lazy.Some?
  {
    if steps != [] {
      LocalEnablementWins(m, steps[..|steps| - 1]);
    }
  }

  /** The last remote flag of a run, false if there was none. */
  function LastFlag(steps: seq<Step>): bool {
    if steps == [] then false
    else
      var n := |steps| - 1;
      if steps[n].FlagStep? then steps[n].enabled else LastFlag(steps[..n])
  }

  /** Before Close the lazy manager exists exactly when rosenpass is off and either it was enabled
      locally and started, or it was not enabled locally and the last remote flag was on. */
  lemma {:induction false} LazyExactly(enabledLocally: bool, rosenpass: bool, steps: seq<Step>)
    ensures var m := ApplyAll(NewMgr(enabledLocally, rosenpass), steps);
            && m.enabledLocally == enabledLocally && m.rosenpass == rosenpass
            && (m.lazy.Some? <==> !rosenpass && (if enabledLocally then StartStep in steps else LastFlag(steps)))
  {
    if steps != [] {
      var n := |steps| - 1;
      LazyExactly(enabledLocally, rosenpass, steps[..n]);
      assert steps == steps[..n] + [steps[n]];
    }
  }

  /** Turning the remote flag on hands every stored peer to the manager as connected, and turning it
      off again, after any time-outs and signal messages in between, brings back the manager that
      was there before. */
  lemma FlagOnThenOff(m: Mgr, steps: seq<Step>)
    requires Safe(m) && !m.enabledLocally && !m.rosenpass && m.lazy.None?
    requires forall s :: s in steps ==> Restless(s)
    ensures var m' := RemoteFlag(m, true);
            && m'.store == m.store && m'.lazy.Some? && m'.lazy.value.managed.Keys == m.store.Keys
            && (forall k :: k in m.store ==> m'.lazy.value.managed[k] == Managed(m.store[k].id, Inactivity))
            && RemoteFlag(ApplyAll(m', steps), false) == m
  {
    var m' := RemoteFlag(m, true);
    RestlessKeepsConns(m', steps);
    var last := ApplyAll(m', steps);
    forall k | k in m.store ensures OpenKeys(last.store, last.store.Keys)[k] == m.store[k] {
      assert Cared(m, k);
    }
    assert OpenKeys(last.store, last.store.Keys) == m.store;
  }

  /** The two managers differ in what connections were told and in the lazy manager's watchers. */
  ghost predicate SameConns(a: Mgr, b: Mgr) {
    && b == a.(store := b.store, lazy := b.lazy) && a.lazy.Some? == b.lazy.Some? && a.store.Keys == b.store.Keys
    && forall k :: k in a.store ==> b.store[k] == a.store[k].(open := b.store[k].open)
  }

  /** Waking and putting to sleep changes nothing else. */
  lemma {:induction false} RestlessKeepsConns(m: Mgr, steps: seq<Step>)
    requires forall s :: s in steps ==> Restless(s)
    ensures SameConns(m, ApplyAll(m, steps))
  {
    if steps != [] {
      var n := |steps| - 1;
      RestlessKeepsConns(m, steps[..n]);
      assert steps[n] in steps;
      RestlessStep(ApplyAll(m, steps[..n]), steps[n]);
    }
  }

  lemma RestlessStep(m: Mgr, s: Step)
    requires Restless(s)
    ensures SameConns(m, Apply(m, s))
  {
  }

  /** A connected managed peer whose remote side goes idle is closed and asleep, and the next signal
      message brings the manager and the connection back to where they were. */
  lemma SleepThenWake(m: Mgr, k: Key)
    requires m.lazy.Some? && k in m.store && k in m.lazy.value.managed && m.store[k].open
    requires m.lazy.value.managed[k] == Managed(m.store[k].id, Inactivity)
    ensures var asleep := DeactivatePeer(m, k);
            && Wakeable(asleep, k) && k in asleep.store && !asleep.store[k].open
            && ActivatePeer(asleep, k, {}) == m
  {
    var asleep := DeactivatePeer(m, k);
    var awake := ActivatePeer(asleep, k, {});
    assert Woken(asleep.lazy.value, {k}) == {k} && {} + {k} == {k};
    assert awake.store == m.store;
    assert awake.lazy.value.managed == m.lazy.value.managed;
  }

  const WELCOME := Welcome(true, true, false)

  /** A peer that is excluded, removed, caught by an exclude-list update and added again is held by
      the manager as connected though its new connection was never opened, and a signal message
      does not wake it. */
  lemma StaleExclusionStrands()
    ensures var c0, c1 := Conn(0, "v", ["10.0.0.1/32"], false), Conn(1, "v", ["10.0.0.1/32"], false);
            var m1 := Apply(Apply(NewMgr(true, false), StartStep), AddStep("p", c0, WELCOME));
            var m2 := Apply(Apply(m1, ExcludeStep({"p"})), RemoveStep("p"));
            var m3 := Apply(Apply(m2, ExcludeStep({"p"})), AddStep("p", c1, WELCOME));
            var m4 := Apply(m3, WakeStep("p", {}));
            "p" in m4.store && !m4.store["p"].open && !Wakeable(m4, "p")
  {
    var c0, c1 := Conn(0, "v", ["10.0.0.1/32"], false), Conn(1, "v", ["10.0.0.1/32"], false);
    var m0 := NewMgr(true, false);
    var m1 := Apply(Apply(m0, StartStep), AddStep("p", c0, WELCOME));
    assert m1 == m0.(store := map["p" := c0], lazy := Some(Lazy(map["p" := Managed(0, Activity)], map[])));
    ExcludeThenRemove(m1, c0);
    StaleThenAdd(Apply(Apply(m1, ExcludeStep({"p"})), RemoveStep("p")), c1);
  }

  /** Excluding and removing the only peer leaves the exclusion behind. */
  lemma ExcludeThenRemove(m: Mgr, c: Conn)
    requires m.store == map["p" := c] && m.lazy == Some(Lazy(map["p" := Managed(c.id, Activity)], map[]))
    ensures var m' := Apply(Apply(m, ExcludeStep({"p"})), RemoveStep("p"));
            m'.store == map[] && m'.lazy == Some(Lazy(map[], map["p" := c.id]))
  {
    var m1 := Apply(m, ExcludeStep({"p"}));
    assert m1.lazy.value.managed == map[] && m1.lazy.value.excludes == map["p" := c.id];
    assert m1.store.Keys == {"p"};
  }

  /** Renewing the list then hands the absent peer to the manager as connected. */
  lemma StaleThenAdd(m: Mgr, c: Conn)
    requires m.store == map[] && m.lazy.Some? && m.lazy.value.managed == map[] && "p" in m.lazy.value.excludes
    requires !c.open
    ensures var m' := Apply(Apply(Apply(m, ExcludeStep({"p"})), AddStep("p", c, WELCOME)), WakeStep("p", {}));
            "p" in m'.store && !m'.store["p"].open && !Wakeable(m', "p")
  {
    var m1 := Apply(m, ExcludeStep({"p"}));
    assert m1.store == map[];
    assert m1.lazy.value.excludes == map[];
    assert "p" in m1.lazy.value.managed && m1.lazy.value.managed["p"].watcher == Inactivity;
  }
}
