# Site management, verified

The site management service is a reconciler. A table of tenants (id, active, removed, and site to service to
addresses) says which routes should exist; the routes of the cluster, seen through an in-memory cache that watches keep
up to date, say which do. This project models the reconciler and the parts around it in Dafny and proves what they
promise. `dafny verify dfyconfig.toml` checks everything.

| file | about |
|---|---|
| `Strings.dfy`, `Crc32.dfy`, `Domain.dfy` | text operations, checksums, addresses, routes, tenant rows, route names |
| `SyncPass.dfy` | one pass as a relation on states; fixpoints of passes |
| `Synchronizer.dfy` | table, cluster client and the pass as classes with mutable state, proved against `SyncPass` |
| `SyncMachine.dfy` | the pass step by step among concurrent writers, the wake-up channel and its consumer |
| `Gateway.dfy`, `RoutesCache.dfy` | gateway objects fanning out into routes; the route cache fed by lists and events |
| `WatchMachine.dfy` | cluster, watches, bus, re-lists and consumer as one concurrent system |
| `Composite.dfy` | dropping the root namespace in place, the parent chain, the search along it |
| `SchemeValidator.dfy` | the chain of three checks and the host name recogniser |
| `SchemeAlgebra.dfy` | schemes from routes and back, merging with general routes, flattening |
| `TenantManager.dfy` | start-up synchronization with tenant-manager, cache of active tenants |
| `IdpRetry.dfy` | the client that posts redirect URIs and retries in the background |
| `ServiceName.dfy`, `RouteFilter.dfy` | unique service names; one route per service id |

## What the code turns out to do

These are places where the code does less, or something else, than its documentation or its names suggest. The model
follows the code, and the lemma named says exactly when the expected behaviour holds.

- One pass is not always enough: a removed row that still lists addresses keeps its routes alive during the pass that
  deletes the row (`SyncPass.OnePassSettlesIff`, `SyncPass.OnePassCanStrand`). Two passes are. Deleting a tenant empties
  its row, but restoring the alias of a tenant marked removed, or creating its routes, fills the sites of that row again
  and stores it with the flag still set (`site-management-service/controller/api.go:418-430` and `:864-877`,
  `site-management-service/synchronizer/synchronizer.go:429-463` and `:843`), so the service can come to rest with a
  route that no tenant asks for (`SyncMachine.QuiescentMeansConverged`, `SyncMachine.RestCanStrand`).
- A failing first read of a pass swallows its signal (`SyncMachine.NoLostWakeUp`, `SyncMachine.FailedReadLosesWakeUp`),
  and so does any pass that ends with a failed request: the writes it read wait for the next signal
  (`SyncMachine.NoLostWork`).
- Upper-case hosts are asked for again in every pass (`SyncPass.SettledRequests`).
- The loop that drops the root namespace leaves a root behind for neighbouring roots, and for a last root that is not
  the only one; it changes the caller's list exactly when another namespace follows a root
  (`Composite.DropIsRightIff`, `Composite.CallerKeepsListIff`), and `Upsert` then stores that list
  (`TenantManager.RowsShowTenants`). With a root left in, a chain is found in every map order if and only if there is
  one and the root has one child (`Composite.NeverFailsIff`, and `Composite.OrderCanDecide` for an input).
- A gateway object that converts to no route at all keeps its old cache entry until the next list
  (`RoutesCache.EventsAgreeWithList`).
- `GetPriority` uses the order annotation only when parsing it fails. An order acts only when its text is out of range:
  it starts, after a sign, with digits of 2^64 or more, even if something else follows, or it is a number outside
  64 bits (`RouteFilter.OrderActsIff`). So orders sort routes as their numbers do if and only if the numbers are equal or lie
  in different bands, below, within and above the 64-bit integers (`RouteFilter.OrderedAsNumbersIff`).
- The `counter` of the name generator is always 1, so candidates grow by the digit 1
  (`ServiceName.GenerateUniqueServiceName`).
- The first request after the start or a `Reset` is sent if and only if its hash is not 0
  (`IdpRetry.FirstRequestIsSentIff`).

## How the model reads the code

- Ranging over a Go map is an arbitrary order, chosen anew each time; sorting leaves the order of equal elements open.
- The nested range loops over rows, sites, services and addresses are flattened by `Synchronizer.VisitOrder`, which
  returns the sequence of visits those loops make.
- A create request for a name that is taken is refused and changes nothing. The server echoes a created route with its
  namespace set. In the pass of `Synchronizer.dfy` requests succeed; in `SyncMachine.dfy` reads and deletions can fail.
- A local create or delete and its direct cache update are one step, and `Upsert` is one atomic step; as two statements
  a deletion in between would make the update hit no row.
- Whether a service can be found in the own namespace is fixed during a pass.
- The history fields of the state of `SyncMachine` (`written`, `due`, `silent`, `covered`, `handled`, `missed`, `failed`,
  `lost`, `base`, `done`) are never read by a step other than to record them.
- A generated route name ends in a checksum. Where a result needs names to tell hosts, that is a stated assumption about
  all rows of the run and the routes it starts with (`SyncMachine.NamesTellHosts`, `SyncPass.NamesAgree`); without it the
  name of an address may be taken by another route, and the results say so.
- `WatchMachine` stores a cluster object as the routes it converts to, requires at least one, and lets a dropped watch
  lose any rest of its undelivered messages. The `from` tag of a bus message records its sender for the proofs and is
  not read by the consumer.
- Text is ASCII where it is lower-cased; names in `ServiceName.dfy` are one character per byte.
- `ParseHost` is a small grammar for URLs: optional scheme, authority with an optional port of digits, then path,
  query or fragment. Addresses outside its characters are taken as failing to parse.
- In `IdpRetry.dfy` a `PostURI` and a `Reset` are one step each, and a fresh timer is never ready when the sender comes to
  its `select`, so that a sender cancelled by then always stops there.
- In `TenantManager.dfy` the row is stored with the list that the hierarchy lookup has edited in place, as `Upsert` shares
  its backing array with that lookup. A lookup that ends in an error counts among the failed upserts.
- In `TenantManager.dfy` the sites and the service name that `Upsert` prepares for an active tenant are arbitrary, and
  every upsert and every deletion may fail.

## Model

| member | source | states |
|---|---|---|
| `SyncPass.TwoPassesConverge` | site-management-service/synchronizer/synchronizer.go:1404-1482 | From any table and any routes two passes reach a state a third pass leaves unchanged, in any visiting order; there every address with a known service is served, every managed route of an examined namespace has an active host, and the third pass asks for routes of exactly the tenants that list an upper-case host |
| `SyncPass.OnePassSettlesIff` | site-management-service/synchronizer/synchronizer.go:1404-1437 | One pass is enough if and only if no surviving route depends on a row that the same pass deletes |
| `SyncPass.OnePassSettles` | site-management-service/synchronizer/synchronizer.go:1047-1048 | One pass is enough whenever removed rows list no sites, which is how a tenant is marked removed |
| `SyncPass.OnePassCanStrand` | site-management-service/controller/api.go:418-430 | A removed row that lists an address again, as restoring its alias writes it, with the route made for it: one pass deletes the row, keeps the route and does not settle the state |
| `SyncPass.TwoPassesSettle` | site-management-service/synchronizer/synchronizer.go:1404-1482 | The fixpoint after two passes needs no assumption about names or letter case |
| `SyncPass.SettledIffConverged` | site-management-service/synchronizer/synchronizer.go:1424-1461 | Having nothing left to do means exactly that there is no removed row, no stale managed route, and for every wanted address a route or a taken name, a condition stated without running a pass |
| `SyncPass.PassFromSettled` | site-management-service/synchronizer/synchronizer.go:1404-1482 | A pass from a settled state changes neither table nor routes |
| `SyncPass.PassDeletesIff` | site-management-service/synchronizer/synchronizer.go:1424-1433 | After any pass a route is missing if and only if its namespace is looked at, its tenant annotation is present and not GENERAL, and no active row of the table lists its host up to letter case |
| `SyncPass.OthersRoutesStay` | site-management-service/synchronizer/synchronizer.go:1571-1586 | Routes without a tenant annotation and GENERAL routes are never touched by a pass |
| `SyncPass.PassCreatesOnly` | site-management-service/synchronizer/synchronizer.go:1440-1454 | A new route stands in the own namespace and is that of an address of an existing service listed by an active row that is not removed: lower-case host, service, tenant annotation and generated name, written out |
| `SyncPass.PassServes` | site-management-service/synchronizer/synchronizer.go:1440-1461 | With names that tell hosts one pass gives every available address of an active tenant a route with its host |
| `SyncPass.NamesAgreeIff` | site-management-service/domain/domain.go:258-261 | For tenant ids of one length generated names tell hosts if and only if no two addresses of one tenant and service with different hosts share a checksum |
| `SyncPass.BothAddressesAreServed` | site-management-service/domain/domain.go:258-261 | Two addresses of one service that differ in one character both get their routes from one pass |
| `SyncPass.PassKeepsRoute` | site-management-service/synchronizer/synchronizer.go:1424-1433 | Routes that are not stale and routes of other namespaces pass through a pass unchanged |
| `SyncPass.SettledRequests` | site-management-service/synchronizer/synchronizer.go:1532-1546 | In a settled state every wanted host is served, and exactly the tenants with an upper-case host of a known service are asked for again, because presence compares case-sensitively and creation lower-cases |
| `SyncPass.PassKeepsNames` | site-management-service/domain/domain.go:258-261 | A pass keeps the assumption that generated route names tell their hosts |
| `SyncPass.CreateAllOnlyAdds` | site-management-service/synchronizer/synchronizer.go:1440-1461 | Creating never changes or removes a route, and every new entry is the route of some visited address |
| `SyncPass.CreateAllSettles` | site-management-service/synchronizer/synchronizer.go:1440-1461 | After the creating half no visited address wants anything more, whatever came after it |
| `SyncPass.PruningStep` | site-management-service/synchronizer/synchronizer.go:1424-1433 | Deleting one stale route by namespace and name hits that route and no other |
| `Synchronizer.Synchronizer.ProcessSynchronization` | site-management-service/synchronizer/synchronizer.go:1404-1482 | The pass over the mutable table and route cache fails, changing nothing, exactly when an examined namespace is not loaded, and otherwise is one of the passes the theorems speak about |
| `Synchronizer.Synchronizer.DeleteStaleRoutes` | site-management-service/synchronizer/synchronizer.go:1424-1433 | The deleting loop leaves exactly the routes that are not stale |
| `Synchronizer.Synchronizer.DeleteRemovedTenants` | site-management-service/synchronizer/synchronizer.go:1392-1402 | From a fresh snapshot every removed row goes and every other row stays as it is |
| `Synchronizer.Synchronizer.CreateMissingRoutes` | site-management-service/synchronizer/synchronizer.go:1439-1462 | The nested creating loops visit every address of every active row |
| `Synchronizer.Synchronizer.CreateForAddress` | site-management-service/synchronizer/synchronizer.go:1446-1456 | A route is asked for exactly when the service exists and no route shows the host; a taken name leaves the routes alone |
| `Synchronizer.Synchronizer.GetAllNamespacesFromTenants` | site-management-service/synchronizer/synchronizer.go:390-403 | The examined namespaces are the non-empty ones of all tenants and the own one |
| `Synchronizer.Synchronizer.GetManageableRoutes` | site-management-service/paasMediationClient/paasMediationClient.go:798-823 | All manageable routes of the namespaces, the empty one standing for the own namespace, or an error exactly when one of them is not in the cache |
| `Synchronizer.HostBelongsToActiveTenant` | site-management-service/synchronizer/synchronizer.go:1548-1564 | True exactly when some active tenant lists an address whose host is equal up to letter case |
| `Synchronizer.IsHostPresentInOpenshiftRoutes` | site-management-service/synchronizer/synchronizer.go:1532-1546 | True exactly when some route shows the host of the address |
| `Synchronizer.AppendElemIfNotExists` | site-management-service/synchronizer/synchronizer.go:1972-1979 | The element is appended exactly when it is missing |
| `Synchronizer.RouteManagerDao.Upsert` | site-management-service/dao/pg/dao.go:122-144 | One atomic write under the tenant id, every other row unchanged |
| `Synchronizer.RouteManagerDao.SaveTenant` | site-management-service/dao/pg/dao.go:110-120 | An insert that fails and changes nothing when the id is taken |
| `Synchronizer.RouteManagerDao.DeleteIfRemoved` | site-management-service/dao/pg/dao.go:157-169 | Deletes the row only where the stored row is marked removed |
| `Synchronizer.RouteManagerDao.FindAll` | site-management-service/dao/pg/dao.go:77-93 | Returns the set of stored rows in some order |
| `Synchronizer.PaasMediationClient.GetRoutes` | site-management-service/paasMediationClient/paasMediationClient.go:588-624 | The routes under the keys of a namespace, each key once, of the own one for "", or an error when it is not loaded |
| `Synchronizer.PaasMediationClient.DeleteRoute` | site-management-service/paasMediationClient/paasMediationClient.go:851-872 | After an accepted request the named route leaves the cache, after a refused one nothing changes |
| `Synchronizer.PaasMediationClient.CreateRoute` | site-management-service/paasMediationClient/paasMediationClient.go:874-895 | A lower-case copy of the route appears under its key unless the key is taken; in a namespace that is not loaded the cache stays as it is |
| `SyncMachine.QuiescentMeansConverged` | site-management-service/synchronizer/synchronizer.go:1404-1482 | In every interleaving of writes with the steps of passes: at rest, with no failed request in the latest pass, no removed row and no stale route is left and every wanted address has a route or a taken name, if and only if no route was stranded when that pass first read the table, in particular whenever its removed rows listed no sites |
| `SyncMachine.RestFollowsPass` | site-management-service/synchronizer/synchronizer.go:1404-1482 | At rest the stepwise latest pass, if no request failed, is a pass without writers from what its first read found |
| `SyncMachine.BaseWasRead` | site-management-service/synchronizer/synchronizer.go:1406 | What that pass starts from is the table and the routes of some first read of the run |
| `SyncMachine.QuiescentMeansServed` | site-management-service/synchronizer/synchronizer.go:1440-1461 | At rest every available address of an active tenant has its route or its generated name is taken, and where names tell hosts it has a route with its host |
| `SyncMachine.RestCanStrand` | site-management-service/controller/api.go:418-430 | A run of nine steps without a failed request that rests with a route no tenant asks for |
| `SyncMachine.RunKeepsNames` | site-management-service/domain/domain.go:258-261 | Names that tell hosts at the start, among all rows of the run, do so in every reachable state |
| `SyncMachine.RestoredTenantSurvives` | site-management-service/synchronizer/synchronizer.go:1381-1390 | A tenant restored before the second read keeps its row although the pass saw it removed; if it is active, that same pass leaves for each of its available addresses a route with its host, or, where names need not tell hosts, its route or a taken name |
| `SyncMachine.EndOfPassServesSettings` | site-management-service/synchronizer/synchronizer.go:1437-1461 | At the end of a pass every available address of a tenant active in the re-read has a route with its host where names tell hosts, and otherwise its route or a taken name, even if the pass deleted the route before |
| `SyncMachine.RouteVanishesIff` | site-management-service/synchronizer/synchronizer.go:1424-1433 | In every run a route vanishes with a step if and only if the step is its own accepted deletion, its tenant annotation is present and not GENERAL, and no active row of the snapshot lists its host; its namespace is then the own one or one a row of the snapshot lists |
| `SyncMachine.RowVanishesOnlyIfRemoved` | site-management-service/dao/pg/dao.go:157-169 | In every step of the system a row disappears only while its stored flag says removed |
| `SyncMachine.UnmarkedRowStays` | site-management-service/synchronizer/synchronizer.go:1392-1402 | Along every run a row that is never marked removed stays |
| `SyncMachine.NoLostWakeUp` | site-management-service/synchronizer/synchronizer.go:1370-1379 | An uncovered write finds a signal in the 16 slots or the consumer about to read, if and only if there is no step of the run at which a first read failed on an empty channel with no signal sent since |
| `SyncMachine.NoLostWork` | site-management-service/synchronizer/synchronizer.go:1196-1200 | A write that no pass without a failed request has handled finds a signal or a pass under way, if and only if there is no step at which a pass ended with a failed request on an empty channel with no signal sent since |
| `SyncMachine.FailedReadLosesWakeUp` | site-management-service/synchronizer/synchronizer.go:1196-1200 | A run of four steps in which a failing first read leaves a write waiting for no one |
| `SyncMachine.EveryConsumerRunCovers` | site-management-service/synchronizer/synchronizer.go:1193-1202 | From such a state every run of the consumer alone, without a failing first read and taken as far as it goes, covers every write made so far |
| `SyncMachine.ConsumerStepProgresses` | site-management-service/synchronizer/synchronizer.go:1193-1202 | Each of its steps covers the waiting writes or lowers a well-founded measure, so no such run goes on for ever without covering them |
| `SyncMachine.ConsumerCoversAlone` | site-management-service/synchronizer/synchronizer.go:1193-1202 | There is such a run |
| `SyncMachine.EveryWriteIsHandled` | site-management-service/synchronizer/synchronizer.go:1193-1202 | When the writers have announced their writes and stop, every run in which the consumer goes on without a failing request as far as it can ends quiescent, with every write handled by a pass without a failed request |
| `SyncMachine.ConsumerStepLowers` | site-management-service/synchronizer/synchronizer.go:1193-1202 | Every step of the consumer, failing or not, lowers a well-founded measure, so by itself it comes to rest |
| `SyncMachine.MissedAndLostMean` | site-management-service/synchronizer/synchronizer.go:1370-1379 | The exceptions said over the steps: a failed first read, or the end of a pass with a failed request, on an empty channel, with no signal sent since |
| `SyncMachine.RunKeeps` | site-management-service/synchronizer/synchronizer.go:1370-1379 | The channel, table and creation invariants hold in every reachable state |
| `Gateway.ConvertHTTPRoutes` | site-management-service/paasMediationClient/paasMediationClient.go:447-480 | The nested loops append per object, rule, match, backend and host, in that order |
| `Gateway.ConvertGRPCRoutes` | site-management-service/paasMediationClient/paasMediationClient.go:482-505 | The same for gRPC routes, which have no matches |
| `Gateway.ConversionCount` | site-management-service/paasMediationClient/paasMediationClient.go:447-505 | The number of routes is the sum over rules of matches times backends, times the hosts, where no host counts as one |
| `Gateway.HttpConversionMembers` | site-management-service/paasMediationClient/paasMediationClient.go:426-480 | A route is produced if and only if it is the one, written out, of some rule, match, backend of that rule and host: its kind, name, namespace, annotations, host, path or none, service and port or 8080 |
| `Gateway.GrpcConversionMembers` | site-management-service/paasMediationClient/paasMediationClient.go:482-505 | The same for gRPC objects, with path / and port 0 where none is given |
| `Gateway.HttpConversionAt` | site-management-service/paasMediationClient/paasMediationClient.go:456-476 | Which conversion stands at which place: by rule, match, backend and host, the last varying fastest |
| `Gateway.GrpcConversionAt` | site-management-service/paasMediationClient/paasMediationClient.go:491-501 | The same for gRPC objects |
| `Gateway.ConversionsShareKey` | site-management-service/paasMediationClient/domain/route.go:35-41 | All routes of one object have its namespace and one cache key |
| `RoutesCache.RoutesCache.UpdateRoutesCache` | site-management-service/paasMediationClient/paasMediationClient.go:156-204 | The effect of each kind of update on the nested maps: re-list, store, delete, ignore, and nothing for an unknown namespace |
| `RoutesCache.RoutesCache.InitRoutesMapInCache` | site-management-service/paasMediationClient/paasMediationClient.go:626-642 | A failed list changes nothing, a successful one replaces the namespace with the last route per key |
| `RoutesCache.RoutesCache.constructor` | site-management-service/paasMediationClient/paasMediationClient.go:1057-1082 | The cache starts with the list of the own namespace |
| `RoutesCache.ApplyMeans` | site-management-service/paasMediationClient/paasMediationClient.go:183-202 | CREATED, ADDED and MODIFIED each leave the route under its key, DELETED leaves none, other kinds change nothing, and every other entry stays |
| `RoutesCache.MessagesOfOneKey` | site-management-service/paasMediationClient/paasMediationClient.go:1161-1188 | Applying the adapter messages of one object leaves its last route, or nothing after a deletion, and touches no other entry |
| `RoutesCache.ListEntry` | site-management-service/paasMediationClient/paasMediationClient.go:633-637 | After a list the entry of an object is its last conversion |
| `RoutesCache.ListAbsent` | site-management-service/paasMediationClient/paasMediationClient.go:633-637 | A list has no entry under a key no listed object has |
| `RoutesCache.EventsAgreeWithList` | site-management-service/paasMediationClient/paasMediationClient.go:1173-1184 | Events and list leave the same entry for an object if and only if it converts to some route or the cache had no entry for it |
| `RoutesCache.DeletionAgreesWithList` | site-management-service/paasMediationClient/paasMediationClient.go:199-202 | The same for a deleted object and a list without it |
| `WatchMachine.DrainedCacheAgrees` | site-management-service/paasMediationClient/websocketclient.go:70-124 | In every interleaving of changes, connects, drops, forwards, lists and swaps, for any number of watches: once a namespace is drained its cache equals what the cluster shows |
| `WatchMachine.InvKept` | site-management-service/paasMediationClient/paasMediationClient.go:156-204 | Every step keeps: the last pending word about an object is true, announced namespaces are or will be cached, and once all is said the cache or the running re-list shows it |
| `WatchMachine.RunKeepsInv` | site-management-service/paasMediationClient/websocketclient.go:70-124 | That invariant holds in every reachable state |
| `WatchMachine.LastWordConsumed` | site-management-service/paasMediationClient/paasMediationClient.go:183-202 | The last message about an object is true even when it is older than a re-list, and falls into an initialised namespace |
| `WatchMachine.ListShows` | site-management-service/paasMediationClient/paasMediationClient.go:381-425 | The list of one resource shows for each of its objects what the cluster shows and nothing for other resources |
| `Composite.ResolveChildForNamespace` | site-management-service/synchronizer/synchronizer.go:924-957 | Success returns one chain through all keys and empties the map; failure means that some order of the keys fails, and that there is no chain, whatever the order, when the root is no key or has at most one child |
| `Composite.ChainUnique` | site-management-service/synchronizer/synchronizer.go:924-957 | There is at most one chain |
| `Composite.BranchingHasNoChain` | site-management-service/synchronizer/synchronizer.go:932-953 | Two children of one parent give an error |
| `Composite.StrayParentHasNoChain` | site-management-service/synchronizer/synchronizer.go:929-931 | An empty parent, or one outside the list, gives an error |
| `Composite.CycleHasNoChain` | site-management-service/synchronizer/synchronizer.go:924-957 | Namespaces whose parents are among themselves give an error |
| `Composite.NeverFailsIff` | site-management-service/synchronizer/synchronizer.go:924-957 | The walk succeeds for every order of the keys if and only if there is a chain and the root has one child |
| `Composite.EveryChildLeadsOnIff` | site-management-service/synchronizer/synchronizer.go:926-941 | Where there is a chain through more than one key, every child of the root leads to a chain through the rest if and only if the root has one child |
| `Composite.OrderCanDecide` | site-management-service/synchronizer/synchronizer.go:926-941 | An input: a root that is a key, with two children, has a chain that is missed when the other child comes first |
| `Composite.DropNamespace` | site-management-service/synchronizer/synchronizer.go:888-897 | The in-place loop over the shared backing array, bound fixed at entry, as a function of the old array |
| `Composite.DropIsRightIff` | site-management-service/synchronizer/synchronizer.go:888-897 | The loop returns the list without the root if and only if no two neighbours are the root and a root at the end is the only one; otherwise a root stays in the result |
| `Composite.CallerKeepsListIff` | site-management-service/synchronizer/synchronizer.go:888-897 | The caller keeps its list unchanged if and only if no other namespace follows the root in it |
| `Composite.DropKeepsOthers` | site-management-service/synchronizer/synchronizer.go:888-897 | Whatever happens to the caller's list, every namespace but the root is in it afterwards if and only if it was before |
| `Composite.CallerSeesShift` | site-management-service/synchronizer/synchronizer.go:892 | With the root once and not last the caller keeps a list of the old length: tail moved left, last element repeated |
| `Composite.WithoutMeans` | site-management-service/synchronizer/synchronizer.go:888-897 | The intended list has no root and every other item as often as before |
| `Composite.GetConfigMapsForNamespaces` | site-management-service/synchronizer/synchronizer.go:959-979 | The parents of all namespaces, or an error exactly when one has no configmap |
| `Composite.BuildHierarchy` | site-management-service/synchronizer/synchronizer.go:899-921 | None, one or a chain of namespaces below the root; an error exactly otherwise when the root is not among them or has one child, and in any case only when a configmap is missing or some order fails |
| `Composite.GetCompositeNamespaceForTenant` | site-management-service/synchronizer/synchronizer.go:885-922 | For cleanly removable lists the hierarchy exists exactly when at most one other namespace is listed or the configmaps form one chain, and is that chain; for every list the same holds of what the loop leaves, unless the root there has two children; the caller's list ends up as the loop leaves it |
| `Composite.FindsDeepest` | site-management-service/synchronizer/synchronizer.go:1508-1530 | The deepest namespace that holds the service, or cannot be read, decides the answer |
| `Composite.FindsNothing` | site-management-service/synchronizer/synchronizer.go:1508-1530 | The answer is "" when no namespace of the chain decides |
| `SchemeValidator.CheckScheme` | site-management-service/domain/validator/schemevalidator.go:45-83 | On an empty result an entry exists exactly for services with an address, and is valid exactly when every address passes the URL check and is no duplicate within the tenant or across tenants, whatever the map order |
| `SchemeValidator.IterateOverTenant` | site-management-service/domain/validator/schemevalidator.go:85-108 | One check over the tenant: a failing address makes its entry invalid, a passing one never overwrites an entry |
| `SchemeValidator.ValidateUrl` | site-management-service/domain/validator/schemevalidator.go:127-153 | Accepts exactly the addresses whose host is a host name: 1 to 127 labels joined by dots, the last not starting with a digit |
| `SchemeValidator.ValidatePart` | site-management-service/domain/validator/schemevalidator.go:155-170 | 1 to 63 letters, digits or hyphens, no hyphen at either end (section 2.1 of RFC 1123, sections 2.3.1 and 2.3.4 of RFC 1035) |
| `SchemeValidator.PartsDecide` | site-management-service/domain/validator/schemevalidator.go:137-151 | Splitting at dots finds the labelling of a host if it has one |
| `SchemeValidator.ValidateTenantDuplications` | site-management-service/domain/validator/schemevalidator.go:172-200 | An error exactly when a differently named service of the tenant has the address, both without http:// |
| `SchemeValidator.AnyMatch` | site-management-service/domain/validator/schemevalidator.go:110-125 | True exactly when another tenant stores the stripped address under another service name |
| `SchemeValidator.AcceptsIff` | site-management-service/domain/validator/schemevalidator.go:127-153 | An address of URL characters, under either scheme or none, is accepted if and only if its authority is a host name |
| `SchemeValidator.LabelCharsAre` | site-management-service/domain/validator/schemevalidator.go:17-27 | The characters of a label, listed |
| `SchemeValidator.AcceptedHostStaysAccepted` | site-management-service/domain/domain.go:343-355 | The host of an accepted address is an accepted address with the same host |
| `SchemeAlgebra.FromRoutes` | site-management-service/domain/domain.go:277-319 | One active tenant per tenant id, ids strictly ascending, each service holding the sorted multiset of its routes' addresses |
| `SchemeAlgebra.SchemeShowsRoutes` | site-management-service/domain/domain.go:277-341 | A tenant lists an address for a service as often as there are routes with its tenant annotation and that service whose host, with a slash and a suffix that is not empty, is the address |
| `SchemeAlgebra.SchemeConserves` | site-management-service/domain/domain.go:277-319 | The scheme holds exactly as many addresses as there are routes |
| `SchemeAlgebra.SortTenantDns` | site-management-service/domain/domain.go:321-333 | Every tenant once, ids in order with the order of equal ids open, every address list sorted with its addresses kept and all other fields as before |
| `SchemeAlgebra.SortSorts` | site-management-service/domain/domain.go:328-330 | The sorted list is sorted and a permutation |
| `Strings.LessMeans` | site-management-service/domain/domain.go:321-333 | The order is that of bytes: at the first difference the smaller byte or the end comes first |
| `SchemeAlgebra.AppendToRoutes` | site-management-service/domain/domain.go:232-241 | Appends, after the routes given, routes of this tenant only, whose hosts per service are those the tenant lists, in some site order |
| `SchemeAlgebra.RouteStandsForItself` | site-management-service/domain/domain.go:243-256 | The route of an address reads back as the tenant, service and host it was made for |
| `SchemeAlgebra.RoundTripKeepsTenants` | site-management-service/domain/domain.go:232-319 | Tenants with distinct ids, one non-empty default site, non-empty lists and host-only addresses come back from their routes with the same ids |
| `SchemeAlgebra.RoundTripKeepsSites` | site-management-service/domain/domain.go:232-319 | Each comes back with the same services and the same addresses up to order |
| `SchemeAlgebra.MergeDatabaseSchemeWithGeneralRoutes` | site-management-service/domain/domain.go:371-409 | Exactly the sites of the scheme, each with a service map of its own holding the general services overridden by its entries |
| `SchemeAlgebra.LastGeneralRouteStays` | site-management-service/domain/domain.go:411-420 | Of general routes to one service the last one gives the address |
| `SchemeAlgebra.OnlyGeneralServices` | site-management-service/domain/domain.go:411-420 | A service without general route has no general address |
| `SchemeAlgebra.MergeIsIdempotent` | site-management-service/domain/domain.go:371-380 | Merging again with the same routes changes nothing, and own entries win |
| `SchemeAlgebra.TenantSites.FlattenAddressesToHosts` | site-management-service/domain/domain.go:263-275 | Replaces every address in place by its host |
| `SchemeAlgebra.FlattenIsIdempotent` | site-management-service/domain/domain.go:263-275 | Flattening twice is flattening once |
| `SchemeAlgebra.FlattenKeepsAccepted` | site-management-service/domain/domain.go:263-275 | Flattening a scheme of accepted addresses keeps every address accepted |
| `Domain.HostOfUrl` | site-management-service/domain/domain.go:343-355 | The host of an address is its authority: what stands between an optional http:// or https:// and the first slash, question mark or hash; nothing where a character or the port is not valid |
| `Domain.EveryAddressIsUrl` | site-management-service/domain/domain.go:343-355 | Every address is of that form |
| `Domain.StripSchemeMeans` | site-management-service/domain/validator/schemevalidator.go:202-208 | Stripping takes one scheme away and nothing else |
| `Domain.UrlCharsAre` | site-management-service/domain/domain.go:343-355 | The characters of the small URL grammar, listed |
| `Strings.LowerMeans` | site-management-service/paasMediationClient/paasMediationClient.go:881 | Lower-casing takes each capital letter to the small one of the same place and leaves the rest |
| `Domain.NamesEqualIff` | site-management-service/domain/domain.go:258-261 | Two generated names, for tenant ids of one length, are equal if and only if service, tenant and checksum are |
| `Domain.NameEndsInDigits` | site-management-service/domain/domain.go:258-261 | A generated name is service, tenant and eight hexadecimal digits |
| `Domain.CacheKeyMeans` | site-management-service/paasMediationClient/domain/route.go:35-41 | Two routes share a cache key if and only if they share kind and name, no kind counting as native |
| `Crc32.OneCharacterTells` | site-management-service/domain/domain.go:259-260 | Texts of equal length that differ in one character have different checksums |
| `Crc32.SomeChecksums` | site-management-service/domain/domain.go:259-260 | The checksums of the empty text and of one letter |
| `Domain.HostIdempotent` | site-management-service/domain/domain.go:343-355 | Reading the host of a host gives it back |
| `TenantManager.TableMirrorsTenantManager` | site-management-service/synchronizer/synchronizer.go:1213-1258 | After the start-up synchronization and one quiet pass the table ids are exactly the ids tenant-manager returned, if and only if no failed write was in the way; no row is marked removed |
| `TenantManager.RowsShowTenants` | site-management-service/synchronizer/synchronizer.go:1261-1295 | Each row shows the last data of its tenant, field by field, active exactly when the tenant is, and an inactive one has no sites; it lists the tenant's own namespaces if and only if there no other one follows the own namespace of the service, and apart from that one the same namespaces either way |
| `TenantManager.NamespacesMean` | site-management-service/synchronizer/synchronizer.go:1262-1266 | The namespaces of a tenant are its text cut at the commas, and none for the empty text |
| `TenantManager.StartUpSettles` | site-management-service/synchronizer/synchronizer.go:1244-1252 | That one pass settles table and routes, provided that removed rows all of whose requests failed were empty before |
| `TenantManager.TenantSync.SyncAllTenantsFromTM` | site-management-service/synchronizer/synchronizer.go:1223-1254 | The round that ends the loop: upserts in order, failures passed over, then absent rows marked |
| `TenantManager.TenantSync.DeleteTenant` | site-management-service/synchronizer/synchronizer.go:1036-1054 | Empties and marks the row; a missing row is no error |
| `TenantManager.TenantSync.UpsertTenants` | site-management-service/synchronizer/synchronizer.go:1223-1232 | The last successful upsert of each id is what the table holds |
| `TenantManager.TenantSync.UpsertTenantFromTM` | site-management-service/synchronizer/synchronizer.go:1261-1295 | The row stored is that of the tenant with the namespace list that looking up the hierarchy has edited in place |
| `TenantManager.CacheHoldsLastActive` | site-management-service/synchronizer/synchronizer.go:1335-1346 | After any events an id is cached if and only if its last relevant mention is an active tenant in a MODIFIED or SUBSCRIBED event, and the value is that mention |
| `TenantManager.ActiveTenants.UpdateActiveTenantsCache` | site-management-service/tm/client.go:135-146 | ACTIVE stores, SUSPENDED deletes, other statuses do nothing, in list order |
| `TenantManager.ActiveTenants.DeleteFromActiveTenantsCache` | site-management-service/tm/client.go:148-153 | Every mentioned id leaves the cache |
| `TenantManager.ActiveTenants.ActualizeActiveTenantsCache` | site-management-service/synchronizer/synchronizer.go:1335-1346 | The callback for each of the four kinds of event |
| `TenantManager.ActiveTenants.GetActiveTenantsCache` | site-management-service/tm/client.go:155-163 | Every stored tenant, as many as there are ids |
| `IdpRetry.OneSenderCarriesLatest` | site-management-service/idp/retry.go:44-78 | In every run at most one sender is uncancelled, and it carries the most recently accepted request |
| `IdpRetry.CancelledSenderStops` | site-management-service/idp/retry.go:59-70 | A cancelled sender begins at most one further attempt |
| `IdpRetry.AtMostOneLateAttempt` | site-management-service/idp/retry.go:59-70 | Counted over the steps of any run, a sender begins at most one attempt after it was cancelled |
| `IdpRetry.EqualHashStartsNoSecondSender` | site-management-service/idp/retry.go:49-76 | Of consecutive requests with equal hash and no Reset between them the second changes nothing |
| `IdpRetry.MapOrderNeverResends` | site-management-service/idp/facade.go:83-92 | With a hash that takes the tenant list as a set, two requests built from one map in any orders start no second sender |
| `IdpRetry.FirstRequestIsSentIff` | site-management-service/idp/retry.go:44-82 | In every run the first request after the start or a Reset starts a sender that carries it if and only if its hash exists and is not 0, and otherwise changes nothing |
| `IdpRetry.ClientWithRetry.PostURI` | site-management-service/idp/retry.go:44-78 | A failing hash changes nothing; a new hash cancels the stored sender and starts one; an equal one changes nothing |
| `IdpRetry.ClientWithRetry.Reset` | site-management-service/idp/retry.go:80-82 | Only the stored hash changes |
| `IdpRetry.BuildUriRequest` | site-management-service/idp/facade.go:83-92 | One entry per key of the map, in any order, with its non-empty addresses |
| `IdpRetry.NotNullSliceWithNonEmptyValues` | site-management-service/idp/facade.go:94-104 | The non-empty values in their order |
| `IdpRetry.KeptInOrder` | site-management-service/idp/facade.go:94-104 | What is kept of two lists together is what is kept of each, in order; a single value is kept unless it is empty |
| `ServiceName.GenerateUniqueServiceName` | site-management-service/synchronizer/synchronizer.go:1705-1742 | The answer is the first free candidate: every extension of the base name and of each earlier random name is taken; without an answer all candidates of the numbers given are taken |
| `ServiceName.FoundIsUnique` | site-management-service/synchronizer/synchronizer.go:1705-1742 | The name has at most 63 bytes, belongs to no service, and extends the base name or a fallback of at most 50 bytes |
| `ServiceName.BaseNameIs` | site-management-service/synchronizer/synchronizer.go:1707-1713 | The search starts with the prefix and the name of the tenant, cut to 63 bytes |
| `ServiceName.RandomnessIffAllTaken` | site-management-service/synchronizer/synchronizer.go:1722-1734 | A random number is used if and only if every extension of the base name is taken |
| `ServiceName.FewServicesNeedNoRandomness` | site-management-service/synchronizer/synchronizer.go:1722-1728 | With fewer services than extensions no random number is used, and at most one extension per service is made |
| `ServiceName.RandomNameIsShort` | site-management-service/synchronizer/synchronizer.go:1729-1735 | A fallback name has at most 50 bytes, so it is never cut |
| `ServiceName.DistinctNumbersEndTheSearch` | site-management-service/synchronizer/synchronizer.go:1722-1739 | More different random numbers than services always lead to a free name |
| `RouteFilter.FilterRoutes` | site-management-service/synchronizer/synchronizer.go:1922-1931 | Exactly one route for each service id of the input, an input route of highest priority among those of its id |
| `RouteFilter.BuildSortedMapFromRoutes` | site-management-service/synchronizer/synchronizer.go:1933-1945 | Every group holds the routes of its id in descending priority; the order of equal priorities is left open |
| `RouteFilter.GroupsPartition` | site-management-service/synchronizer/synchronizer.go:1936-1939 | Every route is in the group of its id as often as in the input, and in no other |
| `RouteFilter.ServiceIdIs` | site-management-service/paasMediationClient/domain/route.go:80-86 | A route goes by its service annotation, and without one by the name of its service |
| `RouteFilter.GeneralChosenLast` | site-management-service/paasMediationClient/domain/route.go:43-54 | A GENERAL route is chosen only when every other route of its id is GENERAL or has the lowest priority |
| `RouteFilter.OrderActsIff` | site-management-service/paasMediationClient/domain/route.go:47-51 | The order annotation of a route that is not GENERAL counts if and only if after its sign it starts with digits of 2^64 or more, whatever follows, or is a number outside 64 bits; then as the bound its sign points to, because the error test is inverted |
| `RouteFilter.OrderedAsNumbersIff` | site-management-service/synchronizer/synchronizer.go:1941-1943 | Two numeric orders sort their routes as the numbers do if and only if the numbers are equal or differ in being below, within or above 64 bits |
| `RouteFilter.OrderIsIgnored` | site-management-service/paasMediationClient/domain/route.go:47-51 | An order that is a 64-bit number in any spelling counts as 0 |
| `RouteFilter.ParseDecides` | site-management-service/paasMediationClient/domain/route.go:48 | The value and the error of parsing, said of the text as a whole |
| `RouteFilter.ParseOfPrinted` | site-management-service/paasMediationClient/domain/route.go:48 | Parsing a printed 64-bit number gives it back |
| `RouteFilter.FourPriorities` | site-management-service/paasMediationClient/domain/route.go:43-54 | Only four priorities exist, and -1 belongs to GENERAL routes alone |

## Left out

- `Upsert` is not modelled as two statements; between select and update a deletion can lose the write.
- Create requests that fail for another reason than a taken name are not modelled in `SyncMachine`.
- Site preparation inside `Upsert`: generated addresses, `filterGeneralRoutes`, the renamed shopping service.
- `CheckCollisions` inside `Upsert`: its result is discarded by the code, so stored schemes are not claimed collision free.
- Failing lists: `performRequestWithRetry` returns nil after the last failed attempt, so a failed list looks empty; `WatchMachine` assumes that lists succeed within the attempts.
- `GetRoutes` for a namespace that is not cached: opening watches and waiting is reduced to the error.
- Deleting a route of a gateway kind: the code sends the request to the native route of the same name; managed routes are taken to be native.
- Repeated searches for a service: `isServiceInNamespace` waits and looks again; here the service is either known or not.
- Services and configmap caches: the same shape as the route cache.
- Deletion of a row after a 404 from tenant-manager, a path of its own outside the passes.
- `SyncTenantsWithTM`: it returns after the first tenant of a non-delete event.
- Repeated rounds of the start-up loop after a failed read: the theorems hold from any table, so they apply to the last round.
- Virtual services, which are not registered on any route of the service.
- Mail about changed tenants, HTTP handlers, SQL, JSON, tokens, websocket framing, logging and time.
- Starting and stopping watches with flags and a quit channel.
- Percent escapes, user info, bracketed hosts and non-ASCII text in addresses.
- Collisions of the CRC32 in route names: `SyncPass.TwoPassesConverge` assumes that generated names tell their hosts, the fixpoint itself does not need it.
