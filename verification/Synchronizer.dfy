/** The tenant table, the cluster client and the synchronization pass in the form the service runs them. */
module Synchronizer {
  import opened Strings
  import opened Domain
  import opened SyncPass

  /** The tenant table; every method is one atomic statement. */
  class RouteManagerDao {
    var table: Table

    ghost predicate Valid() reads this {
      forall id | id in table :: table[id].tenantId == id
    }

    constructor ()
      ensures Valid() && table == map[]
    {
      table := map[];
    }

    /** All rows, in no particular order. */
    method FindAll() returns (rows: seq<TenantDns>)
      ensures RowSet(rows) == table.Values
    {
      rows := [];
      var ids := table.Keys;
      while ids != {}
        invariant ids <= table.Keys
        invariant forall row <- rows :: exists id | id in table.Keys - ids :: table[id] == row
        invariant forall id | id in table.Keys - ids :: table[id] in rows
        decreases ids
      {
        var id :| id in ids;
        rows := rows + [table[id]];
        ids := ids - {id};
      }
    }

    /** Insert or update, taken as one step. */
    method Upsert(row: TenantDns)
      requires Valid()
      modifies this
      ensures Valid() && table == old(table)[row.tenantId := row]
    {
      table := table[row.tenantId := row];
    }

    /** Plain insert: a row with the same key makes the statement fail and changes nothing. */
    method SaveTenant(row: TenantDns) returns (ok: bool)
      requires Valid()
      modifies this
      ensures Valid() && ok == (row.tenantId !in old(table))
      ensures table == if ok then old(table)[row.tenantId := row] else old(table)
    {
      ok := row.tenantId !in table;
      if ok { table := table[row.tenantId := row]; }
    }

    method FindByTenantId(tenantId: string) returns (row: Option<TenantDns>)
      ensures row == if tenantId in table then Some(table[tenantId]) else None
    {
      row := if tenantId in table then Some(table[tenantId]) else None;
    }

    /** Deletes by key where the stored row, not the caller's copy, is marked removed. */
    method DeleteIfRemoved(tenantId: string)
      requires Valid()
      modifies this
      ensures Valid() && table == SyncPass.DeleteIfRemoved(old(table), tenantId)
    {
      if tenantId in table && table[tenantId].removed { table := table - {tenantId}; }
    }
  }

  /** Routes by namespace and cache key; requests succeed, and the cache follows the cluster at once. */
  class PaasMediationClient {
    const namespace: string
    var routes: Routes

    ghost predicate Valid() reads this { WellKeyed(routes) }

    constructor (namespace: string)
      ensures Valid() && this.namespace == namespace && routes == map[namespace := map[]]
    {
      this.namespace := namespace;
      routes := map[namespace := map[]];
    }

    /** The empty namespace stands for the service's own one. */
    function Effective(ns: string): string { if ns == "" then namespace else ns }

    method GetRoutes(ns: string) returns (result: Result<seq<Route>>)
      ensures result.Ok? <==> Effective(ns) in routes
      ensures result.Ok? ==> ListsOnce(result.value, routes[Effective(ns)])
    {
      var name := if ns == "" then namespace else ns;
      if name !in routes {
        return Err("namespace was not found in routes cache");
      }
      var local := routes[name];
      var found: seq<Route> := [];
      ghost var order: seq<string> := [];
      var keys := local.Keys;
      while keys != {}
        invariant keys <= local.Keys
        invariant IsListedBy(order, found, map key | key in local && key !in keys :: local[key])
        decreases keys
      {
        var key :| key in keys;
        ListOneMore(order, found, local, keys, key);
        found, order := found + [local[key]], order + [key];
        keys := keys - {key};
      }
      assert (map key | key in local && key !in keys :: local[key]) == local;
      result := Ok(found);
    }

    /** Without an `accepted` request the route stays in the cache. */
    method DeleteRoute(route: Route, accepted: bool)
      requires Valid()
      modifies this
      ensures Valid()
      ensures routes == if accepted then DeleteOne(old(routes), route) else old(routes)
    {
      if !accepted { return; }
      var ns := route.metadata.namespace;
      if ns in routes {
        routes := routes[ns := routes[ns] - {route.CacheKey()}];
      }
    }

    /**
     * Creates a lower-case copy of `route` in `ns`; the server names the namespace and refuses a name that is taken.
     * In a namespace that is not loaded the cache ignores the new route.
     */
    method CreateRoute(route: Route, ns: string)
      requires Valid()
      modifies this
      ensures Valid()
      ensures var created := route.(host := ToLower(route.host), metadata := route.metadata.(namespace := ns));
              routes == if ns !in old(routes) || created.CacheKey() in old(routes)[ns] then old(routes)
                        else old(routes)[ns := old(routes)[ns][created.CacheKey() := created]]
    {
      var created := route.(host := ToLower(route.host), metadata := route.metadata.(namespace := ns));
      if ns in routes && created.CacheKey() !in routes[ns] {
        routes := routes[ns := routes[ns][created.CacheKey() := created]];
      }
    }
  }

  /** `found` holds the routes filed under the keys of the map, each key once, in any order. */
  ghost predicate ListsOnce(found: seq<Route>, routes: RoutesByKey) {
    exists keys :: IsListedBy(keys, found, routes)
  }

  ghost predicate IsListedBy(keys: seq<string>, found: seq<Route>, routes: RoutesByKey) {
    && |keys| == |found| && (forall i, j | 0 <= i < j < |keys| :: keys[i] != keys[j])
    && (forall key :: key in keys <==> key in routes)
    && (forall i | 0 <= i < |keys| :: keys[i] in routes && found[i] == routes[keys[i]])
  }

  lemma ListOneMore(order: seq<string>, found: seq<Route>, local: RoutesByKey, keys: set<string>, key: string)
    requires IsListedBy(order, found, map k | k in local && k !in keys :: local[k]) && key in keys && key in local
    ensures IsListedBy(order + [key], found + [local[key]], map k | k in local && k !in keys - {key} :: local[k])
  {
    assert key !in order;
  }

  lemma ListedRoutes(found: seq<Route>, routes: RoutesByKey)
    requires ListsOnce(found, routes)
    ensures forall r :: r in found <==> r in routes.Values
  {
    var keys: seq<string> :| IsListedBy(keys, found, routes);
    forall r ensures r in found <==> r in routes.Values {
      if r in routes.Values {
        var key :| key in routes && routes[key] == r;
        assert key in keys;
        var i :| 0 <= i < |keys| && keys[i] == key;
      }
    }
  }

  method FilterManageable(routes: seq<Route>) returns (found: seq<Route>)
    ensures forall r :: r in found <==> r in routes && r.IsManageable()
  {
    found := [];
    for k := 0 to |routes|
      invariant forall r :: r in found <==> r in routes[..k] && r.IsManageable()
    {
      if routes[k].IsManageable() { found := found + [routes[k]]; }
    }
    assert routes[..|routes|] == routes;
  }

  method IsHostPresentInOpenshiftRoutes(address: Address, routes: seq<Route>) returns (present: bool)
    ensures present <==> exists route <- routes :: route.host == Host(address)
  {
    for i := 0 to |routes|
      invariant forall j | 0 <= j < i :: routes[j].host != Host(address)
    {
      if routes[i].host == Host(address) { return true; }
    }
    return false;
  }

  lemma HostPresentInValues(host: string, found: seq<Route>, routes: RoutesByKey)
    requires ListsOnce(found, routes)
    ensures HostPresent(host, routes) <==> exists route <- found :: route.host == host
  {
    ListedRoutes(found, routes);
    forall route ensures route in found <==> route in routes.Values {
      assert route in found <==> route in (set r | r in found);
    }
    if HostPresent(host, routes) {
      var key :| key in routes && routes[key].host == host;
      assert routes[key] in found;
    }
  }

  method HostBelongsToActiveTenant(host: string, rows: seq<TenantDns>) returns (belongs: bool)
    ensures belongs <==> HostIsActive(host, RowSet(rows))
  {
    for i := 0 to |rows|
      invariant !HostIsActive(host, RowSet(rows[..i]))
    {
      var row := rows[i];
      assert RowSet(rows[..i + 1]) == RowSet(rows[..i]) + {row};
      if row.active {
        var found := RowListsHost(host, row);
        if found { return true; }
      }
    }
    assert rows[..|rows|] == rows;
    return false;
  }

  /** The three nested scans of one row's sites, services and addresses. */
  method RowListsHost(host: string, row: TenantDns) returns (found: bool)
    ensures found <==> exists site, service, address ::
              Lists(row, site, service, address) && ToLower(Host(address)) == ToLower(host)
  {
    var sites := row.sites.Keys;
    while sites != {}
      invariant sites <= row.sites.Keys
      invariant forall site, service, address | site !in sites && Lists(row, site, service, address) ::
                  ToLower(Host(address)) != ToLower(host)
      decreases sites
    {
      var site :| site in sites;
      var services := row.sites[site].Keys;
      while services != {}
        invariant services <= row.sites[site].Keys
        invariant forall service, address | service !in services && Lists(row, site, service, address) ::
                    ToLower(Host(address)) != ToLower(host)
        decreases services
      {
        var service :| service in services;
        var addresses := row.sites[site][service];
        for i := 0 to |addresses|
          invariant forall j | 0 <= j < i :: ToLower(Host(addresses[j])) != ToLower(host)
        {
          if ToLower(Host(addresses[i])) == ToLower(host) {
            assert Lists(row, site, service, addresses[i]);
            return true;
          }
        }
        services := services - {service};
      }
      sites := sites - {site};
    }
    return false;
  }

  /** The order in which nested loops over rows, sites, services and addresses come by the active addresses. */
  method VisitOrder(rows: seq<TenantDns>) returns (visits: seq<Work>)
    ensures Covers(visits, RowSet(rows))
  {
    visits := [];
    for i := 0 to |rows|
      invariant forall w :: w in visits <==>
                  w.row in rows[..i] && w.row.active && Lists(w.row, w.site, w.service, w.address)
    {
      assert rows[..i + 1] == rows[..i] + [rows[i]];
      if rows[i].active {
        var more := VisitOrderOfRow(rows[i]);
        visits := visits + more;
      }
    }
    assert rows[..|rows|] == rows;
  }

  method VisitOrderOfRow(row: TenantDns) returns (visits: seq<Work>)
    ensures forall w :: w in visits <==> w.row == row && Lists(row, w.site, w.service, w.address)
  {
    visits := [];
    var sites := row.sites.Keys;
    while sites != {}
      invariant sites <= row.sites.Keys
      invariant forall w :: w in visits <==>
                  w.row == row && w.site !in sites && Lists(row, w.site, w.service, w.address)
      decreases sites
    {
      var site :| site in sites;
      var more := VisitOrderOfSite(row, site);
      visits := visits + more;
      sites := sites - {site};
    }
  }

  method VisitOrderOfSite(row: TenantDns, site: string) returns (visits: seq<Work>)
    requires site in row.sites
    ensures forall w :: w in visits <==> w.row == row && w.site == site && Lists(row, site, w.service, w.address)
  {
    visits := [];
    var services := row.sites[site].Keys;
    while services != {}
      invariant services <= row.sites[site].Keys
      invariant forall w :: w in visits <==>
                  w.row == row && w.site == site && w.service !in services && Lists(row, site, w.service, w.address)
      decreases services
    {
      var service :| service in services;
      var addresses := row.sites[site][service];
      ghost var before := visits;
      for i := 0 to |addresses|
        invariant forall w :: w in visits <==>
                    (w in before || (w.row == row && w.site == site && w.service == service
                        && w.address in addresses[..i]))
      {
        visits := visits + [Work(row, site, service, addresses[i])];
      }
      assert addresses[..|addresses|] == addresses;
      services := services - {service};
    }
  }

  method AppendElemIfNotExists(elems: seq<string>, elem: string) returns (result: seq<string>)
    ensures result == if elem in elems then elems else elems + [elem]
  {
    for i := 0 to |elems|
      invariant elem !in elems[..i]
    {
      if elems[i] == elem { return elems; }
    }
    return elems + [elem];
  }

  class Synchronizer {
    const dao: RouteManagerDao
    const client: PaasMediationClient
    const services: set<string>

    constructor (dao: RouteManagerDao, client: PaasMediationClient, services: set<string>)
      ensures this.dao == dao && this.client == client && this.services == services
    {
      this.dao, this.client, this.services := dao, client, services;
    }

    ghost predicate Valid() reads dao, client {
      dao.Valid() && client.Valid()
    }

    ghost function Cfg(): Config { Config(client.namespace, services) }

    ghost function Current(): State reads dao, client { State(dao.table, client.routes) }

    method GetAllNamespacesFromTenants(rows: seq<TenantDns>) returns (namespaces: seq<string>)
      ensures forall ns :: ns in namespaces <==> IsExamined(ns, Cfg(), RowSet(rows))
    {
      namespaces := [];
      for i := 0 to |rows|
        invariant forall ns :: ns in namespaces <==> ns != "" && exists row <- rows[..i] :: ns in row.namespaces
      {
        ghost var before := namespaces;
        for j := 0 to |rows[i].namespaces|
          invariant forall ns :: ns in namespaces <==> ns in before || (ns != "" && ns in rows[i].namespaces[..j])
        {
          var namespace := rows[i].namespaces[j];
          if namespace != "" {
            namespaces := AppendElemIfNotExists(namespaces, namespace);
          }
        }
        assert rows[i].namespaces[..|rows[i].namespaces|] == rows[i].namespaces;
        assert forall row :: row in rows[..i + 1] <==> row in rows[..i] || row == rows[i];
      }
      assert rows[..|rows|] == rows;
      namespaces := AppendElemIfNotExists(namespaces, client.namespace);
    }

    method GetManageableRoutesOf(ns: string) returns (result: Result<seq<Route>>)
      ensures result.Ok? <==> client.Effective(ns) in client.routes
      ensures result.Ok? ==> forall r :: r in result.value <==>
                r in client.routes[client.Effective(ns)].Values && r.IsManageable()
    {
      var local := client.GetRoutes(ns);
      if local.Err? { return local; }
      ListedRoutes(local.value, client.routes[client.Effective(ns)]);
      var found := FilterManageable(local.value);
      result := Ok(found);
    }

    /** Manageable routes of all `namespaces`, or an error when one of them is not in the cache. */
    method GetManageableRoutes(namespaces: seq<string>) returns (result: Result<seq<Route>>)
      requires Valid()
      ensures result.Ok? <==> forall ns <- namespaces :: client.Effective(ns) in client.routes
      ensures result.Ok? ==> forall r :: r in result.value <==>
                exists ns <- namespaces :: r in client.routes[client.Effective(ns)].Values && r.IsManageable()
    {
      var found: seq<Route> := [];
      for i := 0 to |namespaces|
        invariant forall j | 0 <= j < i :: client.Effective(namespaces[j]) in client.routes
        invariant forall r :: r in found <==>
                    exists j :: 0 <= j < i && r in client.routes[client.Effective(namespaces[j])].Values
                        && r.IsManageable()
      {
        assert namespaces[i] in namespaces;
        var local := GetManageableRoutesOf(namespaces[i]);
        if local.Err? { return Err(local.message); }
        found := found + local.value;
      }
      result := Ok(found);
    }

    method DeleteIfStale(route: Route, rows: seq<TenantDns>)
      requires Valid() && route.IsManageable()
      modifies client
      ensures Valid() && client.routes ==
                if Doomed(route, RowSet(rows)) then DeleteOne(old(client.routes), route) else old(client.routes)
    {
      var belongs := HostBelongsToActiveTenant(route.host, rows);
      if !route.IsGeneral() && !belongs {
        client.DeleteRoute(route, true);
      }
    }

    /** The stale routes still there are among the routes not yet looked at. */
    ghost predicate StaleAreLater(now: Routes, rows: set<TenantDns>, later: seq<Route>) {
      forall route | Has(now, route) && IsExamined(route.metadata.namespace, Cfg(), rows) && Doomed(route, rows) ::
          route in later
    }

    lemma StaleStep(before: Routes, now: Routes, rows: set<TenantDns>, later: seq<Route>)
      requires later != [] && Has(before, later[0]) && IsExamined(later[0].metadata.namespace, Cfg(), rows)
      requires Pruning(Cfg(), rows, before, now) && StaleAreLater(now, rows, later)
      ensures var next := if Doomed(later[0], rows) then DeleteOne(now, later[0]) else now;
              Pruning(Cfg(), rows, before, next) && StaleAreLater(next, rows, later[1..])
    {
      if Doomed(later[0], rows) { PruningStep(Cfg(), rows, before, now, later[0]); }
      assert later == [later[0]] + later[1..];
    }

    /** First half of a pass: deletes the manageable routes whose host belongs to no active tenant of `rows`. */
    method DeleteStaleRoutes(manageable: seq<Route>, rows: seq<TenantDns>)
      requires Valid()
      requires forall ns | IsExamined(ns, Cfg(), RowSet(rows)) :: ns in client.routes
      requires forall r :: r in manageable <==>
                 exists ns | IsExamined(ns, Cfg(), RowSet(rows)) :: r in client.routes[ns].Values && r.IsManageable()
      modifies client
      ensures Valid() && client.routes == Prune(Cfg(), RowSet(rows), old(client.routes))
    {
      ghost var before, set0 := client.routes, RowSet(rows);
      forall route
        ensures route in manageable <==>
                  Has(before, route) && IsExamined(route.metadata.namespace, Cfg(), set0) && route.IsManageable()
      {
        if Has(before, route) { assert route in before[route.metadata.namespace].Values; }
      }
      for i := 0 to |manageable|
        invariant Pruning(Cfg(), set0, before, client.routes)
        invariant StaleAreLater(client.routes, set0, manageable[i..])
      {
        assert manageable[i] in manageable && manageable[i..][1..] == manageable[i + 1..];
        StaleStep(before, client.routes, set0, manageable[i..]);
        DeleteIfStale(manageable[i], rows);
      }
      PruningDone(Cfg(), set0, before, client.routes);
    }

    method DeleteRemovedTenants(rows: seq<TenantDns>)
      requires Valid() && RowSet(rows) == dao.table.Values
      modifies dao
      ensures Valid() && dao.table == DropRemoved(old(dao.table))
    {
      ghost var before := dao.table;
      for i := 0 to |rows|
        invariant dao.Valid() && dao.table.Keys <= before.Keys
        invariant forall id | id in before ::
                    if id in dao.table then dao.table[id] == before[id] else before[id].removed
        invariant forall j | 0 <= j < i && rows[j].removed :: rows[j].tenantId !in dao.table
      {
        assert rows[i] in RowSet(rows);
        if rows[i].removed {
          dao.DeleteIfRemoved(rows[i].tenantId);
        }
      }
      forall id | id in before && before[id].removed ensures id !in dao.table {
        assert before[id] in before.Values;
        assert before[id] in rows;
      }
    }

    /** One address of the second half: asks for its route when the service exists and no route shows the host. */
    method CreateForAddress(row: TenantDns, site: string, service: string, address: Address) returns (asked: bool)
      requires Valid() && client.namespace in client.routes
      modifies client
      ensures Valid()
      ensures var w, ns := Work(row, site, service, address), client.namespace;
              && asked == Wants(Cfg(), w, old(client.routes)[ns])
              && client.routes == old(client.routes)[ns := CreateOne(Cfg(), w, old(client.routes)[ns])]
    {
      asked := false;
      if service in services {
        var current := client.GetRoutes(client.namespace);
        var present := IsHostPresentInOpenshiftRoutes(address, current.value);
        HostPresentInValues(Host(address), current.value, client.routes[client.namespace]);
        if !present {
          client.CreateRoute(row.ToRoute(service, address), client.namespace);
          asked := true;
        }
      }
    }

    /** Second half of a pass: visits the addresses of every active tenant and publishes the missing ones. */
    method CreateMissingRoutes(rows: seq<TenantDns>) returns (requested: set<string>, ghost work: seq<Work>)
      requires Valid() && client.namespace in client.routes
      modifies client
      ensures Valid() && Covers(work, RowSet(rows))
      ensures Created(Cfg(), old(client.routes), work, client.routes, requested)
    {
      ghost var before := client.routes;
      var visits := VisitOrder(rows);
      requested, work := {}, visits;
      for i := 0 to |visits|
        invariant client.Valid()
        invariant Created(Cfg(), before, visits[..i], client.routes, requested)
      {
        var w := visits[i];
        CreatedStep(Cfg(), before, visits[..i], w, client.routes, requested);
        var asked := CreateForAddress(w.row, w.site, w.service, w.address);
        if asked { requested := requested + {w.row.tenantId}; }
        assert visits[..i + 1] == visits[..i] + [w];
      }
      assert visits[..|visits|] == visits;
    }

    /**
     * One pass with no writer beside it. It fails, changing nothing, exactly when an examined namespace is not
     * loaded.
     */
    method ProcessSynchronization() returns (ok: bool, requested: set<string>, ghost work: seq<Work>)
      requires Valid()
      modifies dao, client
      ensures Valid() && ok == Loaded(Cfg(), old(Current()))
      ensures !ok ==> Current() == old(Current())
      ensures ok ==> Pass(Cfg(), old(Current()), work, Current(), requested)
    {
      var snapshot := dao.FindAll();
      var namespaces := GetAllNamespacesFromTenants(snapshot);
      var manageable := GetManageableRoutes(namespaces);
      if manageable.Err? {
        return false, {}, [];
      }
      DeleteStaleRoutes(manageable.value, snapshot);
      DeleteRemovedTenants(snapshot);
      var refreshed := dao.FindAll();
      requested, work := CreateMissingRoutes(refreshed);
      ok := true;
    }
  }
}
