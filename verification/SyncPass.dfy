/** What one synchronization pass does to the tenant table and the cluster's routes, and why passes settle. */
module SyncPass {
  import opened Strings
  import opened Domain
  import opened Crc32

  type Table = map<string, TenantDns>
  type RoutesByKey = map<string, Route>
  type Routes = map<string, RoutesByKey>

  /** The service's own namespace and the services that can be found in it. */
  datatype Config = Config(namespace: string, services: set<string>)

  datatype State = State(table: Table, routes: Routes)

  function RowSet(rows: seq<TenantDns>): set<TenantDns> { set row | row in rows }

  // ---------- desired state: the addresses of active tenants ----------

  ghost predicate HostIsActive(host: string, rows: set<TenantDns>) {
    exists row, site, service, address ::
      row in rows && row.active && Lists(row, site, service, address) && ToLower(Host(address)) == ToLower(host)
  }

  ghost predicate IsExamined(namespace: string, cfg: Config, rows: set<TenantDns>) {
    namespace == cfg.namespace || (namespace != "" && exists row :: row in rows && namespace in row.namespaces)
  }

  /** A route this service manages whose host no active tenant lists. */
  ghost predicate Doomed(route: Route, rows: set<TenantDns>) {
    route.IsManageable() && !HostIsActive(route.host, rows)
  }

  // ---------- the deleting half ----------

  ghost function PruneNamespace(rows: set<TenantDns>, routes: RoutesByKey): RoutesByKey {
    map key | key in routes && !Doomed(routes[key], rows) :: routes[key]
  }

  ghost function Prune(cfg: Config, rows: set<TenantDns>, routes: Routes): Routes {
    map namespace | namespace in routes ::
      if IsExamined(namespace, cfg, rows) then PruneNamespace(rows, routes[namespace]) else routes[namespace]
  }

  /** Routes are filed under their own namespace and cache key. */
  ghost predicate WellKeyed(routes: Routes) {
    forall namespace, key | namespace in routes && key in routes[namespace] ::
      routes[namespace][key].metadata.namespace == namespace && routes[namespace][key].CacheKey() == key
  }

  function DeleteOne(routes: Routes, route: Route): Routes {
    var namespace := route.metadata.namespace;
    if namespace in routes then routes[namespace := routes[namespace] - {route.CacheKey()}] else routes
  }

  predicate Has(routes: Routes, route: Route) {
    var namespace := route.metadata.namespace;
    namespace in routes && route.CacheKey() in routes[namespace] && routes[namespace][route.CacheKey()] == route
  }

  /** `now` is `before` with some of its doomed routes gone. */
  ghost predicate Pruning(cfg: Config, rows: set<TenantDns>, before: Routes, now: Routes) {
    && WellKeyed(before) && WellKeyed(now)
    && now.Keys == before.Keys
    && (forall route :: Has(now, route) ==> Has(before, route))
    && (forall route :: Has(before, route) && !Has(now, route) ==>
          IsExamined(route.metadata.namespace, cfg, rows) && Doomed(route, rows))
  }

  predicate SameName(route: Route, other: Route) {
    route.metadata.namespace == other.metadata.namespace && route.CacheKey() == other.CacheKey()
  }

  lemma DeleteOneRemoves(routes: Routes, route: Route)
    requires WellKeyed(routes)
    ensures WellKeyed(DeleteOne(routes, route)) && DeleteOne(routes, route).Keys == routes.Keys
    ensures forall other :: Has(DeleteOne(routes, route), other) <==> Has(routes, other) && !SameName(route, other)
  {
  }

  lemma PruningStep(cfg: Config, rows: set<TenantDns>, before: Routes, now: Routes, route: Route)
    requires Pruning(cfg, rows, before, now) && Has(before, route)
    requires IsExamined(route.metadata.namespace, cfg, rows) && Doomed(route, rows)
    ensures Pruning(cfg, rows, before, DeleteOne(now, route))
    ensures forall other :: Has(DeleteOne(now, route), other) <==> Has(now, other) && other != route
  {
    DeleteOneRemoves(now, route);
    assert forall other | Has(before, other) && SameName(route, other) :: other == route;
  }

  lemma PruningDone(cfg: Config, rows: set<TenantDns>, before: Routes, now: Routes)
    requires Pruning(cfg, rows, before, now)
    requires forall route | Has(now, route) && IsExamined(route.metadata.namespace, cfg, rows) :: !Doomed(route, rows)
    ensures now == Prune(cfg, rows, before)
  {
    var pruned := Prune(cfg, rows, before);
    forall namespace | namespace in before ensures now[namespace] == pruned[namespace] {
      forall key: string ensures key in now[namespace] <==> key in pruned[namespace] {
        if key in now[namespace] { assert Has(now, now[namespace][key]) && Has(before, now[namespace][key]); }
        if key in pruned[namespace] { assert Has(before, before[namespace][key]); }
      }
      forall key | key in now[namespace] ensures now[namespace][key] == before[namespace][key] {
        assert Has(now, now[namespace][key]) && Has(before, now[namespace][key]);
      }
    }
  }

  /** Deletes a row by its key where the stored row is marked removed. */
  function DeleteIfRemoved(table: Table, id: string): Table {
    if id in table && table[id].removed then table - {id} else table
  }

  function DropRemoved(table: Table): Table {
    map id | id in table && !table[id].removed :: table[id]
  }

  // ---------- the creating half ----------

  datatype Work = Work(row: TenantDns, site: string, service: string, address: Address)
  {
    function Route(cfg: Config): Route {
      var route := row.ToRoute(service, address);
      route.(host := ToLower(route.host), metadata := route.metadata.(namespace := cfg.namespace))
    }

    function Key(cfg: Config): string { Route(cfg).CacheKey() }
  }

  ghost predicate IsWork(w: Work, rows: set<TenantDns>) {
    w.row in rows && w.row.active && Lists(w.row, w.site, w.service, w.address)
  }

  /** `work` visits every address of every active row, in any order. */
  ghost predicate Covers(work: seq<Work>, rows: set<TenantDns>) {
    forall w :: w in work <==> IsWork(w, rows)
  }

  ghost predicate HostPresent(host: string, routes: RoutesByKey) {
    exists key :: key in routes && routes[key].host == host
  }

  /** The pass asks the cluster for a route exactly when the service exists and no route shows the host. */
  ghost predicate Wants(cfg: Config, w: Work, routes: RoutesByKey) {
    w.service in cfg.services && !HostPresent(Host(w.address), routes)
  }

  /** A request for a name that is already taken is refused and changes nothing. */
  ghost function CreateOne(cfg: Config, w: Work, routes: RoutesByKey): RoutesByKey {
    if Wants(cfg, w, routes) && w.Key(cfg) !in routes then routes[w.Key(cfg) := w.Route(cfg)] else routes
  }

  ghost function CreateAll(cfg: Config, work: seq<Work>, routes: RoutesByKey): RoutesByKey {
    if work == [] then routes
    else CreateOne(cfg, work[|work| - 1], CreateAll(cfg, work[..|work| - 1], routes))
  }

  /** Ids of the tenants for which the pass sends at least one create request. */
  ghost function Requested(cfg: Config, work: seq<Work>, routes: RoutesByKey): set<string> {
    if work == [] then {}
    else
      var before, w := work[..|work| - 1], work[|work| - 1];
      Requested(cfg, before, routes) +
      (if Wants(cfg, w, CreateAll(cfg, before, routes)) then {w.row.tenantId} else {})
  }

  // ---------- a whole pass without concurrent writers ----------

  ghost predicate Loaded(cfg: Config, s: State) {
    forall namespace | IsExamined(namespace, cfg, s.table.Values) :: namespace in s.routes
  }

  /** `s'` and `changed` are what a pass from `s` can produce, visiting the addresses in the order `work`. */
  ghost predicate Pass(cfg: Config, s: State, work: seq<Work>, s': State, changed: set<string>) {
    var pruned := Prune(cfg, s.table.Values, s.routes);
    && Loaded(cfg, s)
    && s'.table == DropRemoved(s.table)
    && Covers(work, s'.table.Values)
    && s'.routes == pruned[cfg.namespace := CreateAll(cfg, work, pruned[cfg.namespace])]
    && changed == Requested(cfg, work, pruned[cfg.namespace])
  }

  /** Nothing is left for a pass to do: whatever order it visits the addresses in, it deletes and creates nothing. */
  ghost predicate Settled(cfg: Config, s: State) {
    && DropRemoved(s.table) == s.table
    && Prune(cfg, s.table.Values, s.routes) == s.routes
    && cfg.namespace in s.routes
    && forall w | IsWork(w, s.table.Values) :: CreateOne(cfg, w, s.routes[cfg.namespace]) == s.routes[cfg.namespace]
  }

  // ---------- creating only adds ----------

  ghost predicate Extends(small: RoutesByKey, big: RoutesByKey) {
    forall key | key in small :: key in big && big[key] == small[key]
  }

  lemma {:induction false} CreateAllOnlyAdds(cfg: Config, work: seq<Work>, routes: RoutesByKey)
    ensures Extends(routes, CreateAll(cfg, work, routes))
    ensures forall key | key in CreateAll(cfg, work, routes) && key !in routes ::
              exists w <- work ::
                CreateAll(cfg, work, routes)[key] == w.Route(cfg) && key == w.Key(cfg) && w.service in cfg.services
  {
    if work != [] {
      CreateAllOnlyAdds(cfg, work[..|work| - 1], routes);
      assert work[|work| - 1] in work;
    }
  }

  lemma CreateAllSnoc(cfg: Config, work: seq<Work>, w: Work, routes: RoutesByKey)
    ensures CreateAll(cfg, work + [w], routes) == CreateOne(cfg, w, CreateAll(cfg, work, routes))
    ensures Requested(cfg, work + [w], routes)
            == Requested(cfg, work, routes) + (if Wants(cfg, w, CreateAll(cfg, work, routes)) then {w.row.tenantId}
                else {})
  {
    assert (work + [w])[..|work|] == work;
  }

  /** `now` and `asked` are what creating for `work` in order makes of `before`. */
  ghost predicate Created(cfg: Config, before: Routes, work: seq<Work>, now: Routes, asked: set<string>) {
    && cfg.namespace in before
    && now == before[cfg.namespace := CreateAll(cfg, work, before[cfg.namespace])]
    && asked == Requested(cfg, work, before[cfg.namespace])
  }

  lemma CreatedStep(cfg: Config, before: Routes, work: seq<Work>, w: Work, mid: Routes, asked: set<string>)
    requires Created(cfg, before, work, mid, asked)
    ensures Created(cfg, before, work + [w], mid[cfg.namespace := CreateOne(cfg, w, mid[cfg.namespace])],
                    if Wants(cfg, w, mid[cfg.namespace]) then asked + {w.row.tenantId} else asked)
  {
    CreateAllSnoc(cfg, work, w, before[cfg.namespace]);
  }

  lemma SettledWorkStaysSettled(cfg: Config, w: Work, small: RoutesByKey, big: RoutesByKey)
    requires Extends(small, big)
    requires CreateOne(cfg, w, small) == small
    ensures CreateOne(cfg, w, big) == big
  {
    if HostPresent(Host(w.address), small) {
      var key :| key in small && small[key].host == Host(w.address);
      assert key in big && big[key].host == Host(w.address);
    }
    assert w.Key(cfg) in CreateOne(cfg, w, small) || !Wants(cfg, w, small);
  }

  lemma CreateOneSettles(cfg: Config, w: Work, routes: RoutesByKey)
    ensures CreateOne(cfg, w, CreateOne(cfg, w, routes)) == CreateOne(cfg, w, routes)
  {
  }

  lemma {:induction false} CreateAllSettles(cfg: Config, work: seq<Work>, routes: RoutesByKey)
    ensures forall w <- work :: CreateOne(cfg, w, CreateAll(cfg, work, routes)) == CreateAll(cfg, work, routes)
  {
    if work != [] {
      var before, last := work[..|work| - 1], work[|work| - 1];
      CreateAllSettles(cfg, before, routes);
      var mid, end := CreateAll(cfg, before, routes), CreateAll(cfg, work, routes);
      forall w | w in work ensures CreateOne(cfg, w, end) == end {
        if w in before {
          SettledWorkStaysSettled(cfg, w, mid, end);
        } else {
          assert w == last; CreateOneSettles(cfg, w, mid);
        }
      }
    }
  }

  lemma {:induction false} CreateAllIdle(cfg: Config, work: seq<Work>, routes: RoutesByKey)
    requires forall w <- work :: CreateOne(cfg, w, routes) == routes
    ensures CreateAll(cfg, work, routes) == routes
    ensures forall id :: id in Requested(cfg, work, routes) <==>
              exists w <- work :: w.row.tenantId == id && Wants(cfg, w, routes)
  {
    if work != [] {
      var before, last := work[..|work| - 1], work[|work| - 1];
      CreateAllIdle(cfg, before, routes);
      assert last in work;
      forall id
        ensures id in Requested(cfg, work, routes) <==>
                  exists w <- work :: w.row.tenantId == id && Wants(cfg, w, routes)
      {
        assert forall w :: w in work <==> w in before || w == last;
      }
    }
  }

  // ---------- passes settle ----------

  lemma PassFromSettled(cfg: Config, s: State, work: seq<Work>, s': State, changed: set<string>)
    requires Settled(cfg, s) && Pass(cfg, s, work, s', changed)
    ensures s' == s
  {
    CreateAllIdle(cfg, work, s.routes[cfg.namespace]);
  }

  /** A route that survives a pass only through a row the same pass deletes. */
  ghost predicate Stranded(cfg: Config, s: State, namespace: string, key: string) {
    var rows := DropRemoved(s.table).Values;
    && namespace in s.routes && key in s.routes[namespace]
    && IsExamined(namespace, cfg, rows)
    && s.routes[namespace][key].IsManageable()
    && HostIsActive(s.routes[namespace][key].host, s.table.Values)
    && !HostIsActive(s.routes[namespace][key].host, rows)
  }

  /** One pass settles a state if and only if it strands no route. */
  lemma OnePassSettlesIff(cfg: Config, s: State, work: seq<Work>, s': State, changed: set<string>)
    requires Pass(cfg, s, work, s', changed)
    ensures Settled(cfg, s') <==> forall namespace, key :: !Stranded(cfg, s, namespace, key)
  {
    if forall namespace, key :: !Stranded(cfg, s, namespace, key) {
      NothingStranded(cfg, s, work, s', changed);
    }
    if Settled(cfg, s') {
      SettledIffConverged(cfg, s');
      forall namespace, key | Stranded(cfg, s, namespace, key) ensures false {
        PassKeepsRoute(cfg, s, work, s', changed, namespace, key);
      }
    }
  }

  /** Routes of active hosts, GENERAL and unannotated routes and unexamined namespaces pass through unchanged. */
  lemma PassKeepsRoute(cfg: Config, s: State, work: seq<Work>, s': State, changed: set<string>, namespace: string,
                       key: string)
    requires Pass(cfg, s, work, s', changed)
    requires namespace in s.routes && key in s.routes[namespace]
    requires !Doomed(s.routes[namespace][key], s.table.Values) || !IsExamined(namespace, cfg, s.table.Values)
    ensures namespace in s'.routes && key in s'.routes[namespace]
              && s'.routes[namespace][key] == s.routes[namespace][key]
  {
    var pruned := Prune(cfg, s.table.Values, s.routes);
    CreateAllOnlyAdds(cfg, work, pruned[cfg.namespace]);
    assert key in pruned[namespace] && pruned[namespace][key] == s.routes[namespace][key];
  }

  lemma NothingStranded(cfg: Config, s: State, work: seq<Work>, s': State, changed: set<string>)
    requires Pass(cfg, s, work, s', changed)
    requires forall namespace, key :: !Stranded(cfg, s, namespace, key)
    ensures Settled(cfg, s')
  {
    var rows: set<TenantDns>, routes: Routes := s'.table.Values, s'.routes;
    var pruned := Prune(cfg, s.table.Values, s.routes)[cfg.namespace];
    forall namespace: string, key: string | namespace in routes && key in routes[namespace]
        && IsExamined(namespace, cfg, rows)
                            && routes[namespace][key].IsManageable()
      ensures HostIsActive(routes[namespace][key].host, rows)
    {
      NotStranded(cfg, s, work, s', changed, namespace, key);
    }
    CreateAllSettles(cfg, work, pruned);
    forall w | IsWork(w, rows) && w.service in cfg.services
      ensures HostPresent(Host(w.address), routes[cfg.namespace]) || w.Key(cfg) in routes[cfg.namespace]
    {
      assert CreateOne(cfg, w, routes[cfg.namespace]) == routes[cfg.namespace];
    }
    SettledIffConverged(cfg, s');
  }

  lemma NotStranded(cfg: Config, s: State, work: seq<Work>, s': State, changed: set<string>, namespace: string,
                    key: string)
    requires Pass(cfg, s, work, s', changed) && !Stranded(cfg, s, namespace, key)
    requires IsExamined(namespace, cfg, s'.table.Values) && namespace in s'.routes && key in s'.routes[namespace]
    requires s'.routes[namespace][key].IsManageable()
    ensures HostIsActive(s'.routes[namespace][key].host, s'.table.Values)
  {
    var pruned := Prune(cfg, s.table.Values, s.routes);
    assert IsExamined(namespace, cfg, s.table.Values);
    CreateAllOnlyAdds(cfg, work, pruned[cfg.namespace]);
    if key !in pruned[namespace] {
      var w :| w in work && s'.routes[namespace][key] == w.Route(cfg);
      assert IsWork(w, s'.table.Values);
      ToLowerIdempotent(Host(w.address));
      assert Lists(w.row, w.site, w.service, w.address);
    } else {
      assert !Doomed(pruned[namespace][key], s.table.Values);
    }
  }

  /** Deleting removed rows that list no address takes no host away from the active tenants. */
  lemma RemovedRowsWithoutSites(table: Table, host: string)
    requires forall id | id in table && table[id].removed :: table[id].sites == map[]
    ensures HostIsActive(host, table.Values) <==> HostIsActive(host, DropRemoved(table).Values)
  {
    if HostIsActive(host, table.Values) {
      var row, site, service, address :|
        row in table.Values && row.active && Lists(row, site, service, address)
            && ToLower(Host(address)) == ToLower(host);
      var id :| id in table && table[id] == row;
      assert DropRemoved(table)[id] == row;
    }
  }

  /** One pass is enough when removed rows list no address, which is how tenants are marked removed. */
  lemma OnePassSettles(cfg: Config, s: State, work: seq<Work>, s': State, changed: set<string>)
    requires Pass(cfg, s, work, s', changed)
    requires forall id | id in s.table && s.table[id].removed :: s.table[id].sites == map[]
    ensures Settled(cfg, s')
  {
    forall namespace, key ensures !Stranded(cfg, s, namespace, key) {
      if namespace in s.routes && key in s.routes[namespace] {
        RemovedRowsWithoutSites(s.table, s.routes[namespace][key].host);
      }
    }
    OnePassSettlesIff(cfg, s, work, s', changed);
  }

  /** Any two passes settle any state, so every later pass deletes nothing and creates nothing. */
  lemma TwoPassesSettle(cfg: Config, s0: State, work0: seq<Work>, s1: State, changed0: set<string>,
                        work1: seq<Work>, s2: State, changed1: set<string>,
                        work2: seq<Work>, s3: State, changed2: set<string>)
    requires Pass(cfg, s0, work0, s1, changed0) && Pass(cfg, s1, work1, s2, changed1)
              && Pass(cfg, s2, work2, s3, changed2)
    ensures Settled(cfg, s2) && s3 == s2
  {
    assert DropRemoved(s1.table) == s1.table;
    OnePassSettlesIff(cfg, s1, work1, s2, changed1);
    PassFromSettled(cfg, s2, work2, s3, changed2);
  }

  // ---------- what a settled state looks like ----------

  /**
   * The routes show what the table asks for, read off without running a pass: no removed row, no managed route of a
   * host that is not active, and for every wanted address a route, or another route that has taken its name. That the
   * taken name shows the same host is what `AllServed` adds.
   */
  ghost predicate Converged(cfg: Config, s: State) {
    && cfg.namespace in s.routes
    && (forall id | id in s.table :: !s.table[id].removed)
    && (forall namespace, key | namespace in s.routes && key in s.routes[namespace]
         && IsExamined(namespace, cfg, s.table.Values)
          && s.routes[namespace][key].IsManageable() :: HostIsActive(s.routes[namespace][key].host, s.table.Values))
    && (forall w | IsWork(w, s.table.Values) && w.service in cfg.services ::
          HostPresent(Host(w.address), s.routes[cfg.namespace]) || w.Key(cfg) in s.routes[cfg.namespace])
  }

  lemma SettledIffConverged(cfg: Config, s: State)
    ensures Settled(cfg, s) <==> Converged(cfg, s)
  {
    var rows := s.table.Values;
    if Settled(cfg, s) {
      forall id | id in s.table ensures !s.table[id].removed { assert id in DropRemoved(s.table); }
      forall namespace, key | namespace in s.routes && key in s.routes[namespace] && IsExamined(namespace, cfg, rows)
        ensures !Doomed(s.routes[namespace][key], rows)
      {
        assert key in Prune(cfg, rows, s.routes)[namespace];
      }
    }
    if Converged(cfg, s) {
      forall namespace | namespace in s.routes && IsExamined(namespace, cfg, rows)
        ensures PruneNamespace(rows, s.routes[namespace]) == s.routes[namespace]
      {
        assert forall key | key in s.routes[namespace] :: !Doomed(s.routes[namespace][key], rows);
      }
      assert Prune(cfg, rows, s.routes) == s.routes;
      assert DropRemoved(s.table) == s.table;
    }
  }

  // ---------- repeated requests ----------

  /** A route's name tells its host: generated names clash neither with each other nor with other routes. */
  ghost predicate NamesAgree(cfg: Config, rows: set<TenantDns>, routes: RoutesByKey) {
    && (forall w, w' | IsWork(w, rows) && IsWork(w', rows) && w.Key(cfg) == w'.Key(cfg) ::
          ToLower(Host(w.address)) == ToLower(Host(w'.address)))
    && (forall w | IsWork(w, rows) && w.Key(cfg) in routes :: routes[w.Key(cfg)].host == ToLower(Host(w.address)))
  }

  /** Cluster hosts are lower-case, which is why the client lower-cases them on creation. */
  ghost predicate HostsAreLower(routes: RoutesByKey) {
    forall key | key in routes :: ToLower(routes[key].host) == routes[key].host
  }

  lemma PassKeepsNames(cfg: Config, s: State, work: seq<Work>, s': State, changed: set<string>)
    requires Pass(cfg, s, work, s', changed)
    requires NamesAgree(cfg, s.table.Values, s.routes[cfg.namespace]) && HostsAreLower(s.routes[cfg.namespace])
    ensures NamesAgree(cfg, s'.table.Values, s'.routes[cfg.namespace]) && HostsAreLower(s'.routes[cfg.namespace])
  {
    var rows, routes := s'.table.Values, s'.routes[cfg.namespace];
    var pruned := Prune(cfg, s.table.Values, s.routes)[cfg.namespace];
    CreateAllOnlyAdds(cfg, work, pruned);
    assert forall w | IsWork(w, rows) :: IsWork(w, s.table.Values);
    forall key | key in routes && key !in pruned
      ensures ToLower(routes[key].host) == routes[key].host
      ensures forall w | IsWork(w, rows) && w.Key(cfg) == key :: routes[key].host == ToLower(Host(w.address))
    {
      var w :| w in work && routes[key] == w.Route(cfg) && key == w.Key(cfg);
      assert IsWork(w, rows);
      ToLowerIdempotent(Host(w.address));
    }
  }

  /** Every address of an active tenant whose service exists has a route with its lower-case host. */
  ghost predicate AllServed(cfg: Config, rows: set<TenantDns>, routes: RoutesByKey) {
    forall w | IsWork(w, rows) && w.service in cfg.services :: HostPresent(ToLower(Host(w.address)), routes)
  }

  ghost predicate IsUpperWork(cfg: Config, w: Work, rows: set<TenantDns>) {
    IsWork(w, rows) && w.service in cfg.services && Host(w.address) != ToLower(Host(w.address))
  }

  /** The ids of the tenants that list a host with an upper-case letter for an existing service. */
  ghost predicate AreUpperTenants(ids: set<string>, cfg: Config, rows: set<TenantDns>) {
    forall id :: id in ids <==> exists w :: IsUpperWork(cfg, w, rows) && w.row.tenantId == id
  }

  /** In a settled state every wanted address is served, and only upper-case hosts are requested again. */
  lemma SettledRequests(cfg: Config, s: State, work: seq<Work>, s': State, changed: set<string>)
    requires Settled(cfg, s) && Pass(cfg, s, work, s', changed)
    requires NamesAgree(cfg, s.table.Values, s.routes[cfg.namespace]) && HostsAreLower(s.routes[cfg.namespace])
    ensures AllServed(cfg, s.table.Values, s.routes[cfg.namespace])
    ensures AreUpperTenants(changed, cfg, s.table.Values)
  {
    var rows, routes := s.table.Values, s.routes[cfg.namespace];
    forall w | IsWork(w, rows) && w.service in cfg.services
      ensures HostPresent(ToLower(Host(w.address)), routes)
      ensures Wants(cfg, w, routes) <==> Host(w.address) != ToLower(Host(w.address))
    {
      assert CreateOne(cfg, w, routes) == routes;
      assert Wants(cfg, w, routes) ==> w.Key(cfg) in routes;
    }
    assert s'.table == s.table;
    CreateAllIdle(cfg, work, routes);
    assert changed == Requested(cfg, work, routes);
    forall id ensures id in changed <==> exists w :: IsUpperWork(cfg, w, rows) && w.row.tenantId == id {
      if w :| IsUpperWork(cfg, w, rows) && w.row.tenantId == id {
        assert w in work && Wants(cfg, w, routes);
      }
      if w :| w in work && w.row.tenantId == id && Wants(cfg, w, routes) {
        assert IsUpperWork(cfg, w, rows);
      }
    }
  }

  /**
   * From any table and any routes, two passes reach a fixpoint: a third changes nothing and asks only for
   * upper-case hosts; every wanted address is then served and every managed route belongs to an active tenant.
   */
  lemma TwoPassesConverge(cfg: Config, s0: State, work0: seq<Work>, s1: State, changed0: set<string>,
                          work1: seq<Work>, s2: State, changed1: set<string>,
                          work2: seq<Work>, s3: State, changed2: set<string>)
    requires Pass(cfg, s0, work0, s1, changed0) && Pass(cfg, s1, work1, s2, changed1)
              && Pass(cfg, s2, work2, s3, changed2)
    requires NamesAgree(cfg, s0.table.Values, s0.routes[cfg.namespace]) && HostsAreLower(s0.routes[cfg.namespace])
    ensures s3 == s2 && Converged(cfg, s2)
    ensures AllServed(cfg, s2.table.Values, s2.routes[cfg.namespace])
    ensures AreUpperTenants(changed2, cfg, s2.table.Values)
  {
    TwoPassesSettle(cfg, s0, work0, s1, changed0, work1, s2, changed1, work2, s3, changed2);
    SettledIffConverged(cfg, s2);
    PassKeepsNames(cfg, s0, work0, s1, changed0);
    PassKeepsNames(cfg, s1, work1, s2, changed1);
    SettledRequests(cfg, s2, work2, s3, changed2);
  }

  /** One removed row that still lists an address, and the route made for it. */
  ghost function StrandingState(cfg: Config, host: string, id: string): State {
    State(
      map[id := TenantDns(id, "", map[DEFAULT_SITE := map["web" := [host]]], true, [], "", "", "", true)],
      map[cfg.namespace := map["Route/web" :=
        Route(Metadata("Route", "web", cfg.namespace, map[TENANT_ID := id]), Host(host), "", "web", 0)]])
  }

  /** From there one pass deletes the row and keeps its route, so it does not settle the state. */
  lemma OnePassCanStrand(cfg: Config, host: string, id: string)
    requires id != GENERAL
    ensures var s := StrandingState(cfg, host, id);
            var s' := State(map[], s.routes);
            && Stranded(cfg, s, cfg.namespace, "Route/web")
            && Pass(cfg, s, [], s', {})
            && !Settled(cfg, s')
  {
    var s := StrandingState(cfg, host, id);
    var row := s.table[id];
    assert row in s.table.Values;
    assert Lists(row, DEFAULT_SITE, "web", host);
    assert HostIsActive(Host(host), s.table.Values);
    assert DropRemoved(s.table) == map[] && s.table.Values == {row};
    var local: RoutesByKey := s.routes[cfg.namespace];
    assert PruneNamespace(s.table.Values, local) == local by {
      assert forall key | key in local :: !Doomed(local[key], s.table.Values);
    }
    assert Prune(cfg, s.table.Values, s.routes) == s.routes;
    OnePassSettlesIff(cfg, s, [], State(map[], s.routes), {});
  }

  // ---------- which routes a pass deletes and creates, written out ----------

  ghost predicate ListedByActive(table: Table, id: string, site: string, service: string, address: Address) {
    && id in table && table[id].active
    && site in table[id].sites && service in table[id].sites[site] && address in table[id].sites[site][service]
  }

  ghost predicate HostIsListed(table: Table, host: string) {
    exists id, site, service, address ::
      ListedByActive(table, id, site, service, address) && ToLower(Host(address)) == ToLower(host)
  }

  lemma HostIsListedIff(table: Table, host: string)
    ensures HostIsListed(table, host) <==> HostIsActive(host, table.Values)
  {
    if HostIsActive(host, table.Values) {
      var row, site, service, address :| row in table.Values && row.active && Lists(row, site, service, address)
                                         && ToLower(Host(address)) == ToLower(host);
      var id :| id in table && table[id] == row;
      assert ListedByActive(table, id, site, service, address);
    }
    if HostIsListed(table, host) {
      var id, site, service, address :|
        ListedByActive(table, id, site, service, address) && ToLower(Host(address)) == ToLower(host);
      assert Lists(table[id], site, service, address);
    }
  }

  /** The namespaces a pass looks at: its own one, and the non-empty ones any row lists. */
  ghost predicate LooksAt(cfg: Config, table: Table, namespace: string) {
    namespace == cfg.namespace || (namespace != "" && exists id :: id in table && namespace in table[id].namespaces)
  }

  predicate BelongsToTenant(annotations: map<string, string>) {
    && "netcracker.cloud/tenant.service.tenant.id" in annotations
    && annotations["netcracker.cloud/tenant.service.tenant.id"] != "GENERAL"
  }

  /**
   * After any pass a route is missing if and only if its namespace is looked at, its annotation names a tenant other
   * than GENERAL, and no active row of the table lists its host.
   */
  lemma PassDeletesIff(cfg: Config, s: State, work: seq<Work>, s': State, changed: set<string>, namespace: string,
                       key: string)
    requires Pass(cfg, s, work, s', changed)
    requires namespace in s.routes && key in s.routes[namespace]
    ensures var route := s.routes[namespace][key];
            namespace in s'.routes && key in s'.routes[namespace] && s'.routes[namespace][key] == route
            <==> !(LooksAt(cfg, s.table, namespace) && BelongsToTenant(route.metadata.annotations)
                   && !HostIsListed(s.table, route.host))
  {
    var route := s.routes[namespace][key];
    HostIsListedIff(s.table, route.host);
    assert IsExamined(namespace, cfg, s.table.Values) <==> LooksAt(cfg, s.table, namespace);
    assert route.IsManageable() <==> BelongsToTenant(route.metadata.annotations);
    if Doomed(route, s.table.Values) && IsExamined(namespace, cfg, s.table.Values) {
      DoomedIsGone(cfg, s, work, s', changed, namespace, key);
    } else {
      PassKeepsRoute(cfg, s, work, s', changed, namespace, key);
    }
  }

  lemma DoomedIsGone(cfg: Config, s: State, work: seq<Work>, s': State, changed: set<string>, namespace: string,
                     key: string)
    requires Pass(cfg, s, work, s', changed) && namespace in s.routes && key in s.routes[namespace]
    requires Doomed(s.routes[namespace][key], s.table.Values) && IsExamined(namespace, cfg, s.table.Values)
    ensures !(namespace in s'.routes && key in s'.routes[namespace]
              && s'.routes[namespace][key] == s.routes[namespace][key])
  {
    var pruned := Prune(cfg, s.table.Values, s.routes);
    assert key !in pruned[namespace];
    CreateAllOnlyAdds(cfg, work, pruned[cfg.namespace]);
    if namespace == cfg.namespace && key in s'.routes[namespace] {
      var w :| w in work && s'.routes[namespace][key] == w.Route(cfg);
      assert IsWork(w, s'.table.Values) && Lists(w.row, w.site, w.service, w.address);
      ToLowerIdempotent(Host(w.address));
    }
  }

  /** Routes without a tenant's annotation and GENERAL routes are never touched. */
  lemma OthersRoutesStay(cfg: Config, s: State, work: seq<Work>, s': State, changed: set<string>, namespace: string,
                         key: string)
    requires Pass(cfg, s, work, s', changed)
    requires namespace in s.routes && key in s.routes[namespace]
    requires var annotations := s.routes[namespace][key].metadata.annotations;
             "netcracker.cloud/tenant.service.tenant.id" !in annotations
             || annotations["netcracker.cloud/tenant.service.tenant.id"] == "GENERAL"
    ensures namespace in s'.routes && key in s'.routes[namespace]
    ensures s'.routes[namespace][key] == s.routes[namespace][key]
  {
    PassDeletesIff(cfg, s, work, s', changed, namespace, key);
  }

  /**
   * A route that is new after a pass stands in the own namespace, and some active row that is not removed lists an
   * address of an existing service for which it is the route: with its lower-case host, its service, the annotation of
   * the tenant and the generated name.
   */
  lemma PassCreatesOnly(cfg: Config, s: State, work: seq<Work>, s': State, changed: set<string>, namespace: string,
                        key: string)
    requires Pass(cfg, s, work, s', changed)
    requires namespace in s'.routes && key in s'.routes[namespace]
    requires !(namespace in s.routes && key in s.routes[namespace]
               && s.routes[namespace][key] == s'.routes[namespace][key])
    ensures namespace == cfg.namespace
    ensures exists id, site, service, address ::
              && ListedByActive(s.table, id, site, service, address) && !s.table[id].removed && service in cfg.services
              && s'.routes[namespace][key] ==
                   Route(Metadata("", UniqueRouteName(service, s.table[id].tenantId, address), cfg.namespace,
                                  map["netcracker.cloud/tenant.service.tenant.id" := s.table[id].tenantId]),
                         ToLower(Host(address)), "", service, 0)
  {
    var pruned := Prune(cfg, s.table.Values, s.routes);
    CreateAllOnlyAdds(cfg, work, pruned[cfg.namespace]);
    assert namespace == cfg.namespace && key !in pruned[namespace];
    var w :| w in work && s'.routes[namespace][key] == w.Route(cfg) && w.service in cfg.services;
    assert IsWork(w, s'.table.Values);
    var id :| id in s'.table && s'.table[id] == w.row;
    assert ListedByActive(s.table, id, w.site, w.service, w.address);
  }

  // ---------- names that tell hosts, and what a single pass then serves ----------

  /** With names that tell hosts one pass gives every available address of an active tenant a route with its host. */
  lemma PassServes(cfg: Config, s: State, work: seq<Work>, s': State, changed: set<string>)
    requires Pass(cfg, s, work, s', changed)
    requires NamesAgree(cfg, s.table.Values, s.routes[cfg.namespace]) && HostsAreLower(s.routes[cfg.namespace])
    ensures AllServed(cfg, s'.table.Values, s'.routes[cfg.namespace])
  {
    var rows, routes := s'.table.Values, s'.routes[cfg.namespace];
    PassKeepsNames(cfg, s, work, s', changed);
    CreateAllSettles(cfg, work, Prune(cfg, s.table.Values, s.routes)[cfg.namespace]);
    forall w | IsWork(w, rows) && w.service in cfg.services ensures HostPresent(ToLower(Host(w.address)), routes) {
      assert w in work && CreateOne(cfg, w, routes) == routes;
      assert HostPresent(Host(w.address), routes) || w.Key(cfg) in routes;
    }
  }

  /** No two addresses of one tenant and service with different hosts share a checksum. */
  ghost predicate ChecksumsTell(rows: set<TenantDns>) {
    forall w, w' | IsWork(w, rows) && IsWork(w', rows) && w.row.tenantId == w'.row.tenantId && w.service == w'.service
                   && Checksum(w.address) == Checksum(w'.address) ::
      ToLower(Host(w.address)) == ToLower(Host(w'.address))
  }

  /** For tenant ids of one length generated names tell hosts if and only if checksums do. */
  lemma NamesAgreeIff(cfg: Config, rows: set<TenantDns>)
    requires forall row, row' | row in rows && row' in rows :: |row.tenantId| == |row'.tenantId|
    ensures NamesAgree(cfg, rows, map[]) <==> ChecksumsTell(rows)
  {
    forall w: Work, w': Work | IsWork(w, rows) && IsWork(w', rows)
      ensures w.Key(cfg) == w'.Key(cfg) <==>
                w.service == w'.service && w.row.tenantId == w'.row.tenantId
                    && Checksum(w.address) == Checksum(w'.address)
    {
      KeysEqualIff(cfg, w, w');
    }
  }

  lemma KeysEqualIff(cfg: Config, w: Work, w': Work)
    requires |w.row.tenantId| == |w'.row.tenantId|
    ensures w.Key(cfg) == w'.Key(cfg) <==>
              w.service == w'.service && w.row.tenantId == w'.row.tenantId
                  && Checksum(w.address) == Checksum(w'.address)
  {
    NamesEqualIff(w.service, w.row.tenantId, w.address, w'.service, w'.row.tenantId, w'.address);
    CacheKeyMeans(w.Route(cfg), w'.Route(cfg));
  }

  /** Two addresses of one service that differ in one character both get their routes from one pass. */
  lemma BothAddressesAreServed(cfg: Config, s: State, work: seq<Work>, s': State, changed: set<string>, id: string,
                               site: string, service: string, a: Address, b: Address, i: nat)
    requires Pass(cfg, s, work, s', changed) && s.routes[cfg.namespace] == map[] && service in cfg.services
    requires s.table.Keys == {id} && s.table[id].active && !s.table[id].removed
    requires s.table[id].sites == map[site := map[service := [a, b]]] && DifferAt(a, b, i)
    ensures HostPresent(ToLower(Host(a)), s'.routes[cfg.namespace])
    ensures HostPresent(ToLower(Host(b)), s'.routes[cfg.namespace])
  {
    var row := s.table[id];
    assert s.table.Values == {row} && s'.table == s.table;
    OneCharacterTells(a, b, i);
    TwoAddressesTell(row, site, service, a, b);
    NamesAgreeIff(cfg, {row});
    PassServes(cfg, s, work, s', changed);
    assert IsWork(Work(row, site, service, a), {row}) && IsWork(Work(row, site, service, b), {row});
  }

  lemma TwoAddressesTell(row: TenantDns, site: string, service: string, a: Address, b: Address)
    requires row.sites == map[site := map[service := [a, b]]] && Checksum(a) != Checksum(b)
    ensures ChecksumsTell({row})
  {
    forall w | IsWork(w, {row}) ensures w.address == a || w.address == b {
      assert w.address in [a, b];
    }
  }
}
