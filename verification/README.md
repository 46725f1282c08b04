# NetBird: verified models of the reverse proxy, the peer engine and their small algorithms

This project models parts of the NetBird client and reverse proxy in Dafny 4.11 and proves
what they guarantee over whole runs. `dafny verify dfyconfig.toml` checks all of it.

How it is built:

- State that the source updates in place is a class (`Server`, `ConnMgr`, `Engine`,
  `IpAnonymizer`, `ServiceCmd`, `DnsConfig`). Each method is proved equal to a function on
  the abstract state, with the source's loops, branch order and early returns; map keys are
  visited in any order. The guarantees are lemmas about those functions and their runs.
- Calls that leave the process (listen, dial, auth, peer creation, bouncer start, prefix and
  address parsing, activity monitoring, random numbers) are parameters. The lemmas hold for
  every answer they can give.

What the modules cover:

- `ProxyRouter`, `ProxyState`, `ProxyOwnership`, `ProxySetup`, `ProxySafety`,
  `ProxyGuarantees`, `ProxyServing`, `ProxyOutcomes`, `ProxyLimits`, `ProxyServer`: the reverse
  proxy's mapping worker. An update stream is well formed when TCP mappings carry no domain, TLS
  mappings carry one, and a CREATED for a stored service repeats its mode, domain and port.
  HTTP and UDP mappings are unrestricted.
  A stream in which each service keeps its place is well formed whatever fails
  (`PinnedIsWellFormed`). Ownership and busy routers need well-formed streams; listener
  conservation, CrowdSec balance, permitted ports, isolation and clean shutdown hold for
  every stream (`RunKeepsSound`, `RunOpensProperly`, `RunIsolates`, `AnyRunShutsDownClean`).
- `PeerState`, `PeerEffects`, `NetLists`, `Reconciliation`, `NetworkMaps`, `EngineEffects`,
  `Stranding`, `PeerEngine`: the peer store, the connection manager with its lazy manager,
  reconciliation with network maps, serials, and which maps leave a peer that cannot be
  reached.
- `PostureChecks`, `Base62`, `Anonymizer`, `ServiceEnv`, `Nameservers`, `ReverseDns`, `Retry`:
  self-contained algorithms. `Text` holds shared string functions.

Where the code differs from its comments or from what one would expect, the model follows the
code and the limits are proved:

- `RemoveFallback` clears the fallback whoever set it (proxy/internal/tcp/router.go:207-212).
  Removing one of two TCP services on a port therefore takes the other off the air.
  `CleanupSparesOthersExactly` and `StepServesExactly` say exactly when this happens, and
  `SharedPortStrandsTheOther` shows it.
- The lazy manager keeps the exclusion of a removed peer
  (client/internal/lazyconn/manager/manager.go:436-448). The next exclude-list update hands
  that absent peer to the manager as connected (`ManagedStoredExactly`), and a peer added
  under that key later is never opened and cannot be woken. `AttendedExactly` and
  `RunAttendedExactly` say exactly when, `StaleExclusionStrands` shows it.
- The engine gets there when a map lists a key twice, once with an address that is no prefix:
  `DoubledKeyStrands` shows three maps that do. `UpdateReachableExactly` says exactly which
  maps exclude anybody, `EngineAttendedExactly` exactly which runs strand anybody, and
  `EngineKeepsPeersReachable` that maps with distinct keys do neither.
- A network map that lists a key twice with different contents is never quiet: a second
  application replaces the connection again or fails (`SecondTimeIsQuiet`, `SameMapTwiceExactly`).
- The anonymizer treats the next address to hand out as already handed out
  (client/anonymize/anonymize.go:90-92) and returns exempt addresses even when they lie in
  the block, so a new image may have been returned before. `NewImageSharedExactly` says
  exactly when, `NextAddressIsShared` and `ExemptAddressIsShared` show both ways, and
  `CleanHistoryIsInjective` says which histories are free of it. An image changes once the
  block grows over its address (`StableExactly`, `ImageChanges`).
- `Retry` panics on a sleep time that is not positive, and on one that doubling with jitter
  drives out of 63 bits (`PanicsExactly`, `CanPanicExactly`).
- Posture checks are compared by their joined names, so some different checks compare equal
  (`UntidyChecksCollide`). `EqualExactlyByPieces` says what is compared and `TrustedExactly`
  for which checks that is right; a separator in a name alone does no harm
  (`SeparatorOutOfOrder`).
- Nameserver group equality ignores the account and the enabled flag, and it is not symmetric
  on lists with duplicates (`SymmetricExactly`).
- The reverse zone rounds the mask up to bytes, so containment holds for byte-aligned masks
  only (`ContainmentExactly`).

## Model

| member | source | states |
|---|---|---|
| `ProxyRouter.AddRouteEntries` | proxy/internal/tcp/router.go:158-176 | after AddRoute the service has exactly the new route at the lower-cased host, every other route and the fallback stay; an empty host changes nothing; hosts keep one route per service |
| `ProxyRouter.RemoveRouteEntries` | proxy/internal/tcp/router.go:181-194 | RemoveRoute drops exactly the named service's route at the host and keeps the fallback; a host without routes disappears |
| `ProxyRouter.EmptyMeansNoEntries` | proxy/internal/tcp/router.go:236-240 | IsEmpty holds if and only if no route is registered at any host and there is no fallback |
| `Text.LowerExactly` | proxy/internal/tcp/router.go:158-194 | hosts are compared in lower case: the lower case of a text is the one text without capitals that differs from it in case only, and texts have the same one if and only if they differ in case only |
| `ProxyRouter.AddThenRemoveInAnyCase` | proxy/internal/tcp/router.go:158-194 | a route added under one spelling of a host and removed under another leaves exactly the entries from before |
| `ProxyRouter.UpsertExactly` | proxy/internal/tcp/router.go:165-175 | a service's new route takes the place of its former one at the host |
| `ProxyRouter.UpsertAppends` | proxy/internal/tcp/router.go:165-175 | a service without a route at the host gets the last place |
| `ProxyOwnership.ClosePortEffect` | proxy/server.go:902-928 | closing an empty port loses no route or fallback of anybody and closes its listener exactly once |
| `ProxyOwnership.CleanPortsEffect` | proxy/server.go:1568-1577 | the cleanup loop drops, over all tracked ports, exactly the service's routes at the domain or, without a domain, every fallback; it leaves no router empty and keeps the listener account |
| `ProxyOwnership.CleanupEffect` | proxy/server.go:1540-1585 | the whole effect of cleanup on routes, fallbacks, tracked ports, relay, CrowdSec record and listeners, entry by entry in both directions |
| `ProxySetup.SetupEffect` | proxy/server.go:1112-1289 | setup in every mode installs at most its own route or fallback, displaces nothing but the fallback of its own port, and tracks exactly the listen port of a TCP or custom-port TLS mapping |
| `ProxySetup.SetupSound` | proxy/server.go:1112-1289 | setup, failing anywhere, keeps every listener accounted for and the CrowdSec references balanced |
| `ProxySetup.SetupUdpSound` | proxy/server.go:1420-1475 | the relay of a service is replaced without leaking the old or the aborted new UDP listener |
| `ProxySetup.SetupBusy` | proxy/server.go:1159-1205 | a successful or failed setup of a well-shaped mapping leaves no per-port router without an entry |
| `ProxySafety.CleanupClearsExactly` | proxy/server.go:1540-1577 | cleanup of a mapping leaves its service without entries if and only if every entry lay at the mapping's domain on the main router or a tracked port |
| `ProxySafety.CleanupSparesOthersExactly` | proxy/server.go:1568-1575 | cleanup leaves all entries of other services untouched if and only if no foreign fallback sits on a tracked port of a mapping without a domain |
| `ProxySafety.FinishKeepsInv` | proxy/server.go:1079-1086 | set up and store, or set up and roll back, re-establishes the whole invariant; after the rollback nothing mentions the service |
| `ProxySafety.AddMappingKeepsInv` | proxy/server.go:1069-1088 | a well-formed CREATED keeps the invariant, peer and setup failures included |
| `ProxySafety.ModifyMappingKeepsInv` | proxy/server.go:1093-1108 | a well-shaped MODIFIED keeps the invariant; when it fails no route, fallback, port, relay or CrowdSec reference of the service is left |
| `ProxySafety.RemoveMappingLeavesNothing` | proxy/server.go:1516-1535 | after REMOVED no router, tracked port, relay, CrowdSec reference or stored mapping mentions the service, and the invariant holds |
| `ProxySafety.StepKeepsInv` | proxy/server.go:1034-1066 | every update of a well-formed stream keeps the invariant, whatever fails |
| `ProxySafety.RunKeepsInv` | proxy/server.go:1034-1066 | so does every well-formed stream: ownership, tracked ports and busy routers hold after each prefix, with the listener account and CrowdSec balance that hold for any stream |
| `ProxySafety.StepKeepsSound` | proxy/server.go:1034-1066 | any update, well formed or not and wherever it fails, keeps every listener accounted for and the CrowdSec references balanced |
| `ProxySafety.RunKeepsSound` | proxy/server.go:1034-1066 | so does every stream, moved CREATEDs, TCP mappings with a domain and TLS mappings without one included |
| `ProxyGuarantees.NoOrphanListeners` | proxy/server.go:899-928 | each per-port router holds a route or fallback of a stored service whose tracked ports list that port |
| `ProxyGuarantees.LiveMeansHeldOnce` | proxy/server.go:859-928 | a listener ever opened is open under exactly one key of one table, or was closed exactly once and is under none |
| `ProxyGuarantees.OneLiveListenerEach` | proxy/server.go:1428-1470 | at most one listener is open per TCP port and at most one UDP listener per service |
| `ProxyGuarantees.StepOpensProperly` | proxy/server.go:1159-1264 | no update, well formed or not, opens a listener on the tunnel port, out of range, or a second TCP listener on the main port |
| `ProxyGuarantees.RunOpensProperly` | proxy/server.go:1159-1264 | nor does any stream of updates |
| `ProxyGuarantees.AnyRunShutsDownClean` | proxy/server.go:708-797 | after any stream of updates whatsoever, shutdown leaves every listener ever opened closed exactly once, all of them on permitted ports, no CrowdSec reference and no running bouncer |
| `ProxyGuarantees.ShutdownClosesEverything` | proxy/server.go:745-797 | in every state with a sound listener account and CrowdSec balance, shutdown leaves every listener ever opened closed exactly once, no CrowdSec reference and no running bouncer |
| `ProxyGuarantees.SetupOwnershipExact` | proxy/server.go:1184-1200 | a successful setup leaves the service's entries where cleanup looks if and only if a TCP mapping has no domain and all earlier entries lie at the mapping's domain and port |
| `ProxyGuarantees.SetupBusyExact` | proxy/server.go:1252-1277 | a successful setup leaves an empty per-port router if and only if a TLS mapping without a domain opened the port |
| `ProxyServing.StepServesExactly` | proxy/server.go:1034-1066 | if every service with a tracked port was reachable, all are after the update if and only if it was a removal, wanted no other TCP service's port, was refused for its port or target, or was a CREATED whose peer failed |
| `ProxyServing.RunServesExactly` | proxy/server.go:1034-1066 | over a well-formed stream every tracked service is installed with its stored target after each update, whatever else failed, if and only if no update takes another TCP service's port |
| `ProxyServing.SuccessMeansInForce` | proxy/server.go:1069-1108 | any update that reports success, well formed or not, leaves its route, fallback or open relay in place and its mapping stored |
| `ProxyServing.CrowdSecTakenExactly` | proxy/server.go:1304-1325 | a successful setup takes a CrowdSec reference if and only if the mapping asks for it, the proxy has it configured and the bouncer runs or starts |
| `ProxyServing.StepIsolates` | proxy/server.go:1034-1066 | whatever an update does, routes, relay, CrowdSec record, tracked ports and stored mapping of every other service stay; only a fallback can be lost |
| `ProxyServing.RunIsolates` | proxy/server.go:1034-1066 | a whole stream that never names a service leaves all of that service alone but possibly its fallbacks |
| `ProxyServing.ResendChangesNothing` | proxy/server.go:1069-1088 | a CREATED that repeats a mapping in force and succeeds changes no table, router or listener at all, UDP aside |
| `ProxyServing.SnapshotChangesNothing` | proxy/server.go:1003-1032 | a snapshot sent again after a reconnect, all of whose mappings are in force, not UDP, settled with CrowdSec and set up without an error, leaves the whole proxy state as it is |
| `ProxyServing.PinnedIsWellFormed` | proxy/server.go:1034-1066 | a stream in which each service keeps its mode, domain and port is well formed whatever fails, so all guarantees hold for it |
| `ProxyLimits.SharedPortStrandsTheOther` | proxy/internal/tcp/router.go:205-212 | a well-formed stream in which removing one of two TCP services on a port leaves the other stored and tracked but without a listener |
| `ProxyLimits.MovedByCreateLeaksListener` | proxy/server.go:1198-1200 | a CREATED that moves a stored TCP service leaves, after its removal, the first listener open with its fallback |
| `ProxyOutcomes.SetupSucceedsExactly` | proxy/server.go:1112-1289 | setup succeeds if and only if: HTTP, there is no path or auth succeeds; TCP and TLS, the port is in range and not the tunnel port, there is a target, and the port is the main one, open already, or can be listened on; UDP, the same without the last, and listen and dialer succeed |
| `ProxyOutcomes.SetupExactly` | proxy/server.go:1112-1289 | after a successful setup every route, fallback, open port with its listener, tracked port, relay and CrowdSec reference of everybody, in both directions |
| `ProxyOutcomes.CleanupExactly` | proxy/server.go:1540-1585 | after a cleanup the same; of the tracked ports exactly those stay open on which an entry remains that the cleanup does not look for |
| `ProxyOutcomes.StepExactly` | proxy/server.go:1034-1108 | every update in every outcome, well formed or not: when it succeeds, and then or otherwise exactly what is set up, cleaned up and stored; a CREATED whose peer fails changes nothing at all |
| `ProxyOutcomes.StepOpensAtMostOne` | proxy/server.go:1034-1108 | no update opens more than one listener, only on its mapping's own port, and none when a service is removed |
| `ProxyOutcomes.FailedStepExactly` | proxy/server.go:1069-1108 | an update that reports an error leaves the whole state as it was if it is a CREATED whose peer failed, and otherwise nothing of its own service; the stored mappings are those from before |
| `ProxyOutcomes.RemovedStepExactly` | proxy/server.go:1516-1535 | a REMOVED update leaves nothing of its service and forgets exactly its stored mapping |
| `ProxyOutcomes.RunFated` | proxy/server.go:1034-1066 | after every well-formed stream each service is as the last update that decided about it left it: stored and standing with route, relay and tracked port, or without any trace |
| `ProxyServer.Server.constructor` | proxy/server.go:243-291 | starts with empty tables and the invariant |
| `ProxyServer.Server.ParseRestrictions` | proxy/server.go:1304-1336 | acquires and records a CrowdSec reference together or not at all |
| `ProxyServer.Server.ReleaseCrowdSec` | proxy/server.go:1340-1349 | releases a recorded reference once |
| `ProxyServer.Server.RouterForPortExisting` | proxy/server.go:844-855 | the main router for port 0 and the main port, a per-port router, or none |
| `ProxyServer.Server.RouterForPort` | proxy/server.go:834-897 | opens a listener for an unknown custom port only, and reports a failed listen |
| `ProxyServer.Server.CleanupPortIfEmpty` | proxy/server.go:902-928 | tears down a per-port router exactly when it is empty |
| `ProxyServer.Server.RemoveUDPRelay` | proxy/server.go:1588-1600 | removes and closes the service's relay |
| `ProxyServer.Server.CleanupMappingRoutes` | proxy/server.go:1540-1585 | the loop over tracked ports computes the cleanup whose effect is proved entry by entry |
| `ProxyServer.Server.SetupHTTPMapping` | proxy/server.go:1126-1156 | route, restrictions and auth in this order, doing nothing for a mapping without paths |
| `ProxyServer.Server.SetupTCPMapping` | proxy/server.go:1159-1205 | refuses bad ports, targets and the tunnel port, then opens, sets the fallback and tracks the port |
| `ProxyServer.Server.SetupTLSMapping` | proxy/server.go:1234-1289 | the same with an SNI route, tracking custom ports only |
| `ProxyServer.Server.SetupUDPMapping` | proxy/server.go:1208-1231 | closes the old relay, listens, and closes the new listener when there is no dialer |
| `ProxyServer.Server.SetupMappingRoutes` | proxy/server.go:1112-1123 | selects the setup by mode |
| `ProxyServer.Server.AddMapping` | proxy/server.go:1069-1088 | peer, setup, rollback or store |
| `ProxyServer.Server.ModifyMapping` | proxy/server.go:1093-1108 | cleans up the stored mapping, sets up the new one, rolls back on failure |
| `ProxyServer.Server.RemoveMapping` | proxy/server.go:1516-1535 | forgets the stored mapping and cleans it up |
| `ProxyServer.Server.ProcessMappings` | proxy/server.go:1034-1066 | processes a batch in order, keeps listener account and CrowdSec balance on every batch and the whole invariant on well-formed ones |
| `ProxyServer.Server.CloseAll` | proxy/server.go:745-762 | closing relays and per-port listeners in any order closes each held listener exactly once more |
| `ProxyServer.Server.ShutdownCrowdSec` | proxy/server.go:785-797 | releases every recorded reference in any order |
| `ProxyServer.Server.ShutdownServices` | proxy/server.go:708-783 | ends with every listener closed exactly once and the bouncer stopped, after any stream |
| `PeerState.StepKeepsSafe` | client/internal/conn_mgr.go:55-244 | every operation before Close keeps each stored peer told to open or held by the lazy manager, managed and excluded peers apart, and no lazy manager under rosenpass |
| `PeerState.RunIsSafe` | client/internal/conn_mgr.go:55-310 | so does every sequence of operations from a new manager: no stored peer is ever stranded |
| `PeerState.ManagedStoredExactly` | client/internal/lazyconn/manager/manager.go:148-187 | managed keys stay within the store if and only if the operation does not renew the exclude list while an excluded peer has left the store |
| `PeerState.AttendedExactly` | client/internal/lazyconn/manager/manager.go:189-222 | among all operations only adding a peer can leave a stored peer that neither traffic nor a signal message wakes, and it does so if and only if the manager already holds the absent key as awake and the new connection is not open |
| `PeerState.RunAttendedExactly` | client/internal/conn_mgr.go:55-310 | over any run every stored peer stays wakeable after each step if and only if no step adds such a peer |
| `PeerState.HealthyExactly` | client/internal/conn_mgr.go:161-244 | a healthy state, with managed peers all stored as well, stays healthy if and only if the operation does not renew the exclude list over a stale exclusion |
| `PeerState.RunHealthyExactly` | client/internal/conn_mgr.go:55-310 | a run stays healthy after each step if and only if it has no such operation |
| `PeerState.SignalOpens` | client/internal/conn_mgr.go:223-233 | while every stored peer is wakeable, a signal message for a stored peer leaves it open, and if it was asleep also the stored members of its groups |
| `PeerState.TimeOutIsSleep` | client/internal/lazyconn/manager/manager.go:543-586 | for a peer awake under its current connection the manager's time-out and the remote side's going idle do the same |
| `PeerState.FlagOffOpensAll` | client/internal/conn_mgr.go:99-107 | with the remote flag off and no local enablement every stored peer is open and there is no lazy manager |
| `PeerState.FlagOnThenOff` | client/internal/conn_mgr.go:84-107 | turning the remote flag on hands exactly the stored peers to the manager as connected ones, and turning it off after any wake-ups and time-outs restores the former state exactly |
| `PeerState.LazyExactly` | client/internal/conn_mgr.go:55-108 | over every run the lazy manager exists if and only if rosenpass is off and it was enabled locally and started, or not enabled locally and last flagged on |
| `PeerState.LocalEnablementWins` | client/internal/conn_mgr.go:79-82 | once started by local enablement the manager stays, whatever remote flags follow |
| `PeerState.SleepThenWake` | client/internal/conn_mgr.go:223-244 | putting a connected managed peer to sleep closes it, and the next signal message restores store and manager exactly |
| `PeerState.StaleExclusionStrands` | client/internal/lazyconn/manager/manager.go:172-185 | a run in which a peer is excluded, removed, caught by a list update and added again: its new connection is never opened and a signal message does not wake it |
| `PeerEffects.AddExactly` | client/internal/conn_mgr.go:161-206 | adding under a free key: the connection is open if and only if there is no lazy manager, the version is unsupported, the key is excluded, or it is not managed yet and cannot be monitored or its group is awake; who manages it under which connection and watcher; nobody else is touched |
| `PeerEffects.RemoveExactly` | client/internal/conn_mgr.go:208-221 | the peer leaves store and manager, its connection is closed, its exclusion stays, nobody else is touched |
| `PeerEffects.WakeExactly` | client/internal/conn_mgr.go:223-233 | key by key, who wakes up and opens: the sleeping peer and the sleeping members of its groups, and nobody if the peer is not asleep |
| `PeerEffects.SleepExactly` | client/internal/conn_mgr.go:237-244 | the peer closes and goes to sleep if and only if it is awake under its current connection; nobody else is touched |
| `PeerEffects.TimeOutExactly` | client/internal/lazyconn/manager/manager.go:543-586 | of the timed-out peers exactly those awake close and go to sleep |
| `PeerEffects.ExcludeExactly` | client/internal/conn_mgr.go:121-159 | key by key, who is excluded, opened, no longer managed, or managed again as awake |
| `PeerEffects.FlagExactly` | client/internal/conn_mgr.go:55-108 | what the remote flag and the start do to the manager and to every stored peer, in every mode |
| `PeerEffects.CloseExactly` | client/internal/conn_mgr.go:246-254 | closing drops the lazy manager and nothing else; every stored peer can still be reached if and only if each was open |
| `PeerEngine.ConnMgr.constructor` | client/internal/conn_mgr.go:41-52 | an empty store and no lazy manager |
| `PeerEngine.ConnMgr.Start` | client/internal/conn_mgr.go:55-73 | starts the lazy manager exactly when it is enabled locally and rosenpass is off |
| `PeerEngine.ConnMgr.UpdatedRemoteFeatureFlag` | client/internal/conn_mgr.go:78-108 | the loops over the store, in any key order, hand over or open every stored peer |
| `PeerEngine.ConnMgr.SetExcludeList` | client/internal/conn_mgr.go:121-159 | collects the stored peers of the list, replaces the exclusions and opens the newly excluded ones |
| `PeerEngine.ConnMgr.AddPeerConn` | client/internal/conn_mgr.go:161-206 | adds iff the key is free and opens unless the manager takes the peer |
| `PeerEngine.ConnMgr.RemovePeerConn` | client/internal/conn_mgr.go:208-221 | removes, closes and stops managing the peer |
| `PeerEngine.ConnMgr.ActivatePeer` | client/internal/conn_mgr.go:223-233 | wakes a sleeping peer and the sleeping members of its groups |
| `PeerEngine.ConnMgr.DeactivatePeer` | client/internal/conn_mgr.go:237-244 | puts an awake managed peer to sleep when asked with its current connection |
| `PeerEngine.ConnMgr.Close` | client/internal/conn_mgr.go:246-254 | drops the lazy manager |
| `NetLists.CompareNetIPLists` | client/internal/engine.go:2317-2346 | true if and only if every text parses and both lists are equal as multisets of canonical prefixes |
| `NetLists.SliceDiff` | util/common.go:19-31 | the elements of the first list that are not in the second, in order |
| `Reconciliation.AddPeersEffect` | client/internal/engine.go:1484-1527 | adding a list keeps stored connections, makes one fresh connection per new key from its first configuration, and succeeds if and only if those have allowed IPs that all parse |
| `Reconciliation.ReconcileExactly` | client/internal/engine.go:1300-1322 | for any store and any list, duplicates and bad entries included: remove, modify and add succeed if and only if the first differing configuration of every key is good, and then leave exactly the listed keys, the same object where all configurations matched, otherwise a fresh one made from the first that did not |
| `Reconciliation.ReconcileMeetsUpdate` | client/internal/engine.go:716-792 | after success the keys are exactly the listed ones and every connection has the version and allowed-IP multiset of a configuration of its key, of the only one when keys are distinct |
| `Reconciliation.SurvivesExactly` | client/internal/engine.go:716-792 | a connection object survives an update, failing or not, if and only if its key is still listed and every configuration of the key has its version and parses to its allowed-IP multiset |
| `Reconciliation.ClosedExactly` | client/internal/engine.go:716-792 | and exactly the other stored connections are closed, on failure too |
| `Reconciliation.StoredExactly` | client/internal/engine.go:716-792 | the keys in the store after any update, failing or not: the survivors, the changed peers as far as adding them again gets, and if that gets to its end the new peers as far as adding the list gets |
| `Reconciliation.QuietExactly` | client/internal/engine.go:716-781 | for any store and list, applying the list changes nothing at all if and only if the store holds exactly the listed keys and every configuration is already met |
| `Reconciliation.MetExactly` | client/internal/engine.go:716-792 | a successful update leaves every configuration met if and only if configurations of the same key ask for the same version and allowed-IP multiset |
| `Reconciliation.SecondTimeIsQuiet` | client/internal/engine.go:716-781 | a second application of the same list creates and closes nothing if and only if configurations of the same key ask for the same |
| `Reconciliation.SucceedsExactly` | client/internal/engine.go:1495-1513 | with distinct keys an update succeeds if and only if every configuration has allowed IPs and all of them parse |
| `Reconciliation.NoForeignPeerStays` | client/internal/engine.go:765-781 | even when the update fails partway no peer outside it stays in the store |
| `Reconciliation.ReconcileKeepsWellMade` | client/internal/engine.go:1484-1527 | connection identities are never reused and no connection is without allowed IPs, on failures too |
| `Reconciliation.ReconcileConserves` | client/internal/engine.go:716-792 | reconciliation, failing or not, keeps every connection object ever made either stored under exactly one key or closed, never both |
| `NetworkMaps.EngineConservesConnections` | client/internal/engine.go:1210-1343 | over every run of maps and peer events no connection object is leaked or reused |
| `NetworkMaps.AppliedMeansExact` | client/internal/engine.go:1290-1322 | after a fully applied map the store holds exactly the listed peers minus our own, none when the map says it is empty, each meeting a configuration of its key |
| `NetworkMaps.AppliedSetsLazyMode` | client/internal/engine.go:1225-1227 | after a fully applied map the lazy manager follows the map's flag unless it is enabled locally or vetoed by rosenpass |
| `NetworkMaps.SameMapTwiceExactly` | client/internal/engine.go:1210-1343 | a fully applied map sent again, feature flag and exclude list included, changes nothing at all if and only if it is an empty map or its configurations of the same key ask for the same |
| `NetworkMaps.SupersededChangesNothing` | client/internal/engine.go:1219-1223 | over any run a map older than one fully applied at any time before it changes nothing |
| `EngineEffects.OutcomeExactly` | client/internal/engine.go:1210-1343 | a map whose configuration part fails or that is outdated leaves the whole engine state as it was; an error is reported if and only if the configuration part fails, or the map gets to its peers and the first differing configuration of some key is bad |
| `EngineEffects.StaysExactly` | client/internal/engine.go:1210-1322 | of a map that gets to its peers, failing there or not, exactly those connection objects stay that it asks for |
| `EngineEffects.MapClosesExactly` | client/internal/engine.go:1210-1322 | and exactly the others are closed |
| `EngineEffects.ReconcileLeavesAlone` | client/internal/engine.go:716-792 | a peer whose connection stays keeps what it was told and who watches it, and nobody's exclusion changes |
| `EngineEffects.ModeExactly` | client/internal/engine.go:1225-1227 | a map that gets to its peers applies its flag, whether or not it fails there |
| `EngineEffects.FailedKeepsExclusions` | client/internal/engine.go:1300-1343 | a map that fails at its peers changes nobody's exclusion beyond what its flag does |
| `EngineEffects.AddNewPeerExactly` | client/internal/engine.go:1495-1527 | a new peer is opened and watched according to its own version, monitoring and group, under a fresh connection |
| `EngineEffects.AppliedExcludesExactly` | client/internal/engine.go:2234-2250 | after a fully applied map with the lazy manager on exactly the listed peers are excluded one of whose allowed-IP texts is a rule's address text |
| `EngineEffects.DroppedMapsDoNotMatter` | client/internal/engine.go:1210-1223 | over any run, leaving out the maps whose configuration failed and the outdated ones gives the same engine state |
| `EngineEffects.StaysThroughoutExactly` | client/internal/engine.go:1210-1343 | over any run, failing maps included, a connection object stays to the end if and only if every map that gets to its peers asks for it |
| `NetworkMaps.WithoutOwnInOrder` | client/internal/engine.go:1290-1297 | leaving out our own key keeps the other peers in order |
| `NetworkMaps.SerialIsLastApplied` | client/internal/engine.go:1210-1343 | over any sequence of maps, some failing partway, the serial is that of the last fully applied map, the largest of all applied ones, and never decreases |
| `NetworkMaps.NobodyIsExcluded` | client/internal/engine.go:2234-2250 | since a rule's bare address is no prefix, an applied map with distinct keys never excludes anybody from lazy connections |
| `NetworkMaps.AppliedExactly` | client/internal/engine.go:1210-1343 | a map is fully applied if and only if its configuration part is, its serial is not outdated and the first differing configuration of every key has allowed IPs that parse |
| `NetworkMaps.UpdateKeepsSafe` | client/internal/engine.go:1210-1343 | any map, failing or not, leaves no stored peer closed outside the manager, no lazy manager under rosenpass, and managed and excluded peers apart |
| `NetworkMaps.EngineIsSafe` | client/internal/engine.go:1210-1343 | the same over every run of any maps and any operations of the connection manager |
| `NetworkMaps.UpdateReachableExactly` | client/internal/engine.go:1210-1343 | applying any map, failing or not, duplicate keys included, keeps every stored peer open or wakeable with nobody excluded if and only if it is not a fully applied map that names a listed peer by a rule's address while the lazy manager is on |
| `NetworkMaps.RunReachableExactly` | client/internal/engine.go:1210-1343 | over every run of maps, signals and time-outs this holds after each event if and only if no map does that |
| `NetworkMaps.UpdateKeepsReachable` | client/internal/engine.go:1210-1343 | a map with distinct keys whose rule addresses are no prefixes never does that |
| `NetworkMaps.EngineKeepsPeersReachable` | client/internal/engine.go:1210-1343 | over every run of maps with distinct keys, signals and time-outs every stored peer is open or asleep where traffic or a signal wakes it, and the manager holds stored peers only |
| `Stranding.AddStrandsExactly` | client/internal/engine.go:1484-1527 | adding a list, stopping at its first bad entry or not, leaves a key unwakeable if and only if it reaches that key, the key's first version supports lazy connections and the manager already holds the absent key as awake |
| `Stranding.ReconcileStrandsExactly` | client/internal/engine.go:716-792 | reconciliation, failing or not, leaves a key unwakeable if and only if its modify phase succeeds and its add phase does that |
| `Stranding.MapStrandsExactly` | client/internal/engine.go:1210-1343 | any map, failing or not, leaves a key unwakeable if and only if its reconciliation does and the map does not go on to exclude that key |
| `Stranding.EngineAttendedExactly` | client/internal/engine.go:1210-1343 | over every run of any maps, signals and time-outs every stored peer stays open or wakeable after each event if and only if no map strands a key |
| `Stranding.DoubledKeyStrands` | client/internal/engine.go:1210-1343 | three fully applied maps, the first listing a key twice, after which the listed peer is stored, closed and not wakeable |
| `PeerEngine.Engine.constructor` | client/internal/engine.go:570-571 | a new engine with serial 0 and a started connection manager |
| `PeerEngine.Engine.RemoveAllPeers` | client/internal/engine.go:783-792 | removes every stored peer in any order |
| `PeerEngine.Engine.RemovePeers` | client/internal/engine.go:765-781 | removes exactly the stored peers that the update does not list |
| `PeerEngine.Engine.AddNewPeer` | client/internal/engine.go:1495-1527 | leaves an existing peer alone, fails on a text that does not parse or an empty list, else adds a fresh connection |
| `PeerEngine.Engine.AddNewPeers` | client/internal/engine.go:1484-1492 | adds in order and stops at the first error |
| `PeerEngine.Engine.ModifyPeers` | client/internal/engine.go:716-761 | finds the differing configurations first, then removes, then adds them again |
| `PeerEngine.Engine.UpdateNetworkMap` | client/internal/engine.go:1210-1343 | configuration, serial gate, feature flag, peers, exclude list and serial in this order, with early error returns |
| `PeerEngine.FilterOwn` | client/internal/engine.go:1290-1297 | the remote peers without our own key, in order |
| `PeerEngine.ToExcludedLazyPeers` | client/internal/engine.go:2234-2250 | the keys of peers one of whose allowed-IP texts is a rule's address text |
| `PostureChecks.IsChecksEqual` | client/internal/engine.go:2253-2271 | compares the sorted lists of sorted, joined file names |
| `PostureChecks.SortedUnique` | client/internal/engine.go:2257-2264 | two sorted lists with the same elements are the same list |
| `PostureChecks.SameChecksCompareEqual` | client/internal/engine.go:2253-2271 | lists that are equal as multisets of file-name multisets always compare equal |
| `PostureChecks.EqualExactlyByPieces` | client/internal/engine.go:2253-2271 | for all lists the comparison holds if and only if the lists are equal as multisets of piece lists, the pieces of a check being its sorted names cut at every separator |
| `PostureChecks.TrustedExactly` | client/internal/engine.go:2253-2271 | all lists over a set of checks compare equal exactly when they are the same multisets of file-name multisets, if and only if no two checks of the set have the same pieces and different files |
| `PostureChecks.EqualExactlyWhenSame` | client/internal/engine.go:2253-2271 | names without the separator and no single empty name are such a set |
| `PostureChecks.UntidyChecksCollide` | client/internal/engine.go:2260-2261 | a name with a separator that compares equal to its two pieces, and a single empty name that compares equal to no name |
| `PostureChecks.SeparatorOutOfOrder` | client/internal/engine.go:2257-2261 | a name with a separator that compares equal to itself alone, its pieces being out of order |
| `Base62.Encode` | base62/base62.go:15-32 | repeated division and reversal produce the positional base62 digits |
| `Base62.Reverse` | base62/base62.go:52-58 | swapping from both ends reverses the string |
| `Base62.DigitsAreTheAlphabet` | base62/base62.go:9-12 | the digits are the characters of the alphabet in order, and a character's digit is its position there |
| `Base62.Decode` | base62/base62.go:35-49 | sums digit times power with 32-bit wrapping, or fails at the first foreign character |
| `Base62.DecodeFailsExactly` | base62/base62.go:39-43 | decoding fails if and only if a character is outside the alphabet |
| `Base62.DecodeIsValue` | base62/base62.go:35-49 | the result is the positional value modulo 2^32 for at most six digits, and for longer strings with zeros in front, on every platform |
| `Base62.EncodedIsCanonical` | base62/base62.go:15-32 | encoding has no leading zero and its positional value is the number |
| `Base62.AtMostSixDigits` | base62/base62.go:15-32 | a uint32 has between one and six digits |
| `Base62.RoundTrip` | base62/base62.go:15-49 | decoding an encoded uint32 gives it back |
| `Base62.NoStepWraps` | base62/base62.go:45-46 | no product or sum leaves 32 bits while an encoded uint32 is decoded |
| `Base62.ReencodeExactly` | base62/base62.go:15-49 | for every string, decoding and encoding gives it back if and only if it is canonical and its value is below 2^32 |
| `Anonymizer.IpAnonymizer.constructor` | client/anonymize/anonymize.go:33-44 | an empty cache and two empty blocks |
| `Anonymizer.IpAnonymizer.IsInAnonymizedRange` | client/anonymize/anonymize.go:89-96 | the block from the start up to and including the next address, zones compared last |
| `Anonymizer.IpAnonymizer.AnonymizeIP` | client/anonymize/anonymize.go:46-70 | returns exempt and in-range addresses, cached images, or the next address, and keeps the invariant |
| `Anonymizer.RunKeepsInv` | client/anonymize/anonymize.go:46-70 | over any call history the images per family are exactly the contiguous block from the start to the next address, and the cache is injective |
| `Anonymizer.AnswerExactly` | client/anonymize/anonymize.go:46-96 | an address is returned as it is if and only if it is exempt, its number was handed out, or it is the next address itself, zones included; any other gets the image it has or else the next address |
| `Anonymizer.IdempotentForever` | client/anonymize/anonymize.go:46-70 | anonymizing an image gives the image without changing anything, at once and after any further calls |
| `Anonymizer.StableExactly` | client/anonymize/anonymize.go:46-96 | an address has the same image later if and only if it was returned as it is or the block has not grown over it |
| `Anonymizer.ImageChanges` | client/anonymize/anonymize.go:46-96 | a history in which an address gets an image and is later returned as it is |
| `Anonymizer.NewImageSharedExactly` | client/anonymize/anonymize.go:46-96 | over any history a new image was returned by an earlier call if and only if it was itself asked for while it was exempt or counted as handed out |
| `Anonymizer.CleanHistoryIsInjective` | client/anonymize/anonymize.go:46-96 | in a history without addresses from the block it may hand out, two answers are equal if and only if the addresses are, exempt ones included |
| `Anonymizer.NextAddressIsShared` | client/anonymize/anonymize.go:89-96 | at any time and in both families the address about to be handed out is returned unchanged and then handed out to the next new address |
| `Anonymizer.ExemptAddressIsShared` | client/anonymize/anonymize.go:46-68 | a history in which a well-known address ahead in the block is returned as it is and later handed out to another |
| `Anonymizer.NoExhaustion` | client/anonymize/anonymize.go:60-68 | a history no longer than the room left in both families never runs out of addresses |
| `ServiceEnv.ParseServiceEnvVars` | client/cmd/service.go:95-119 | skips empty entries, splits at the first '=', trims, fails on a missing '=' or an empty key, later entries win |
| `ServiceEnv.EnvMapToSlice` | client/cmd/service_params.go:212-218 | prints every entry once in some order |
| `ServiceEnv.TrimSpaceExactly` | client/cmd/service.go:108-109 | trimming gives the one text left without the white space around it |
| `ServiceEnv.EntryExactly` | client/cmd/service.go:103-114 | for every entry: it sets a key to a value if and only if it is them around its first '=' with any white space around each; it fails if and only if it has no '=' or only white space before the first one |
| `ServiceEnv.ParseExactly` | client/cmd/service.go:95-119 | for every list: it parses if and only if no entry fails, empty ones aside, and then a key has a value if and only if the last entry for it says so |
| `ServiceEnv.ParseIsPrintable` | client/cmd/service.go:95-119 | parsed maps have non-empty trimmed keys without '=' and trimmed values |
| `ServiceEnv.RoundTripExactly` | client/cmd/service_params.go:212-218 | in every iteration order, parsing a printed map gives it back if and only if its keys are non-empty, trimmed and free of '=' and its values trimmed |
| `ServiceEnv.ServiceCmd.ApplyServiceEnvParams` | client/cmd/service_params.go:159-191 | for any saved map, hand-edited ones included, the entries parse to the saved map, nothing after an explicit clear, or the explicit map over the saved one, if and only if that map is printable |
| `ServiceEnv.ServiceCmd.Install` | client/cmd/service_installer.go:118-154 | saves the merged map if and only if it is printable, fails and saves nothing when entries do not parse, and never saves a map that is not printable |
| `ServiceEnv.SavedIsPrintable` | client/cmd/service_params.go:154-209 | a file that only installs and resets have written is printable, so every install after them merges as it should |
| `ServiceEnv.SavedIsMergeSinceClear` | client/cmd/service_params.go:154-209 | after any sequence of installs and resets a variable is saved with a value if and only if some install set it to that value and no later one set it again or cleared |
| `Nameservers.ContainsNameServer` | dns/nameserver.go:187-194 | membership |
| `Nameservers.CompareNameServerList` | dns/nameserver.go:173-185 | same length and every element of the first list in the second |
| `Nameservers.CompareGroupsList` | dns/nameserver.go:196-214 | the same test on strings |
| `Nameservers.IsEqualGroup` | dns/nameserver.go:162-171 | the five compared fields and the three list tests |
| `Nameservers.Copy` | dns/nameserver.go:141-159 | copies everything but the account, and the copy is equal in both directions |
| `Nameservers.Pigeonhole` | dns/nameserver.go:173-185 | a list has as many members as places if and only if it has no duplicates |
| `Nameservers.TestIsSetEquality` | dns/nameserver.go:173-214 | if the first list has no duplicates the test holds if and only if both hold the same set and the second has none either |
| `Nameservers.SymmetricExactly` | dns/nameserver.go:173-214 | for any lists that pass one way, the test passes the other way if and only if they have equally many different members |
| `Nameservers.NotSymmetricWithDuplicates` | dns/nameserver.go:196-214 | two lists that pass one way only |
| `Nameservers.CleanEqualIsEssence` | dns/nameserver.go:162-171 | among groups without duplicate entries equality is agreement on the compared fields and on the three lists as sets |
| `Nameservers.EqualIsPreorder` | dns/nameserver.go:162-171 | equality is reflexive and transitive on all groups, and symmetric if and only if the three lists have equally many different members, so always for a first group without duplicates |
| `ReverseDns.GenerateReverseZoneName` | client/internal/dns.go:40-61 | the leading octets of the masked address, reversed, for IPv4; an error otherwise |
| `ReverseDns.ContainmentExactly` | client/internal/dns.go:40-61 | the PTR names of all addresses of a network lie under its zone name if and only if the mask is 8, 16, 24 or 32 bits (section 3.5 of RFC 1035) |
| `ReverseDns.PtrNameInjective` | client/internal/dns.go:26-28 | different addresses have different PTR names |
| `ReverseDns.CollectPTRRecords` | client/internal/dns.go:75-94 | the nested loops collect zone by zone, record by record |
| `ReverseDns.CollectedExactly` | client/internal/dns.go:75-94 | the collected records are exactly the PTR records of the A records of authoritative zones |
| `ReverseDns.CollectedPointsBack` | client/internal/dns.go:15-94 | a record is collected if and only if some authoritative zone has an A record whose text parses to an IPv4 address in the network, and the record has that address's octets in reverse as name, the A record's name fully qualified as data, and its class and TTL |
| `ReverseDns.SameNameSameAddress` | client/internal/dns.go:26-36 | two such records have the same name if and only if they belong to the same address |
| `ReverseDns.CollectedInOrder` | client/internal/dns.go:75-94 | records are collected zone by zone in order |
| `ReverseDns.OneRecord` | client/internal/dns.go:82-90 | each A record that answers gives exactly one record, any other gives none |
| `ReverseDns.ReverseNameExample` | client/internal/dns.go:26-28 | 100.64.1.2 is named 2.1.64.100.in-addr.arpa. |
| `ReverseDns.ZoneNameExactly` | client/internal/dns.go:40-61 | the zone is named by as many leading octets of the network's first address as the mask length rounded up to bytes |
| `ReverseDns.LeadingNameInReverse` | client/internal/dns.go:55-60 | those octets stand in reverse order, separated by dots, before in-addr.arpa |
| `ReverseDns.CollectedUnderZone` | client/internal/dns.go:75-119 | with a byte-aligned mask every collected record lies under the generated zone and comes from an authoritative zone |
| `ReverseDns.DnsConfig.HasZone` | client/internal/dns.go:64-72 | a zone of that name exists |
| `ReverseDns.DnsConfig.AddReverseZone` | client/internal/dns.go:97-119 | appends the zone unless the network is not IPv4 or the zone exists |
| `ReverseDns.AddTwiceIsOnce` | client/internal/dns.go:97-119 | adding the reverse zone twice equals adding it once, and existing zones stay |
| `ReverseDns.ReverseZoneExactly` | client/internal/dns.go:97-119 | nothing is added for a network that is not IPv4 or whose zone exists; otherwise one authoritative zone of that name, not used for searching, whose records are exactly those that point back into the network |
| `Retry.Counts` | util/retry.go:10-28 | the function runs between one and max(1, n) times, onError and the sleeps exactly one time fewer |
| `Retry.ResultIsLastOutcome` | util/retry.go:10-28 | all executions but the last failed and their errors went to onError in order; the last gave the result, and if it failed the attempts are used up |
| `Retry.NeverPanics` | util/retry.go:17-18 | with n attempts and a positive sleep time whose 3^(n-2)-fold fits 63 bits, or with fewer than two attempts, the random bound stays positive |
| `Retry.EachWait` | util/retry.go:17-22 | with any number of attempts, the i-th wait is at least 2^i and less than 3^(i+1)/2 times the sleep time as long as that upper bound fits 63 bits |
| `Retry.WaitsExactly` | util/retry.go:17-22 | each wait is the sleep time plus half of a jitter drawn below it, and then the sleep time is twice that wait, as long as it fits 63 bits |
| `Retry.TotalWait` | util/retry.go:17-22 | the k waits of a run together are at least 2^k - 1 and less than (3^(k+1) - 3)/4 times the sleep time as long as the last one fits 63 bits |
| `Retry.PanicsExactly` | util/retry.go:11-18 | while the largest possible sleep time fits 63 bits up to the last-but-one execution, a run panics if and only if the sleep time is not positive, there are at least two attempts and the first execution fails |
| `Retry.CanPanicExactly` | util/retry.go:10-28 | for every 64-bit sleep time some outcomes and jitters make it panic if and only if there are at least two attempts and the sleep time is not positive or its largest growth leaves 63 bits before the last execution |

## Left out

- Goroutines, locks, contexts and drain time-outs: the mapping worker and the sync handler are sequential, as the source runs them; events of the lazy manager are separate steps between calls.
- Object aliasing: routers and connections are values inside the tables, a connection with an identity number; that no two tables share a router is built in.
- The auth, ACME, reverse-proxy and hijack tables keyed by host alone (proxy/server.go:1546-1557), and relays cancelled by the router: ownership by service is not tracked there.
- The layer-4 service gauge: a failed modify decrements it while the old mapping stays stored, so it is not conserved.
- Routing of live connections (`lookupRoute`, SNI peeking, access filters): it reads the tables and changes none of them.
- Host names are lower-cased for ASCII letters only.
- The wake-up of HA groups takes an arbitrary set of group members, which covers every group map; monitoring may fail when a peer is added, and a failed monitor later on is not distinguished from a working one.
- `ConnMgr.Close` leaves sleeping peers closed; the reachability results speak of states before Close.
- Routes, DNS, firewall, SSH and status updates inside updateNetworkMap: their errors are logged and do not affect peers or serial.
- NoExhaustion: after the last address of a family Go's Next returns the invalid address; histories that long are outside the anonymizer results.
- AnonymizeDomain, AnonymizeURI and AnonymizeString: regular expressions and random text.
- Failed reads or writes of the service parameters file, and the fields other than the environment map: an install that cannot load merges nothing.
- EachWait: stated for waits whose upper bound fits 63 bits; later ones wrap around.
- TotalWait: stated for runs whose last wait is such a one.
- LiveMeansHeldOnce: `closes` counts the mapping worker's own Close calls; Router.Serve closes the same listener again when its context is cancelled (proxy/internal/tcp/router.go:249-252), and the later of the two calls has no effect.
- TimeOutIsSleep: the source tells the remote side when the manager times a peer out (PeerConnIdle) and not when the remote side went idle (PeerConnClose, client/internal/peerstore/store.go); the model keeps only that the connection was closed.
- The library functions behind sorting, prefix parsing, address parsing and dns.Fqdn are represented by their results.
