/** Schemes built from routes and routes built from schemes, merging with general routes, and flattening to hosts. */
module SchemeAlgebra {
  import opened Strings
  import opened Domain
  import SchemeValidator

  // ---------- grouping routes by tenant and service ----------

  function Annotation(route: Route, name: string): string {
    if name in route.metadata.annotations then route.metadata.annotations[name] else ""
  }

  function TenantOf(route: Route): string { Annotation(route, TENANT_ID) }

  function ConcatAddress(host: string, suffix: string): Address {
    if suffix != "" then host + "/" + suffix else host
  }

  function AddressOf(route: Route): Address { ConcatAddress(route.host, Annotation(route, URL_SUFFIX)) }

  /** The addresses of the routes of one tenant and service, in route order. */
  function AddressesOf(routes: seq<Route>, tenantId: string, service: string): seq<Address> {
    if routes == [] then []
    else
      var last := routes[|routes| - 1];
      AddressesOf(routes[..|routes| - 1], tenantId, service) +
      (if TenantOf(last) == tenantId && last.service == service then [AddressOf(last)] else [])
  }

  lemma {:induction false} AddressesOfAppend(first: seq<Route>, second: seq<Route>, tenantId: string, service: string)
    ensures AddressesOf(first + second, tenantId, service) ==
              AddressesOf(first, tenantId, service) + AddressesOf(second, tenantId, service)
  {
    if second == [] {
      assert first + second == first;
    } else {
      AddressesOfAppend(first, second[..|second| - 1], tenantId, service);
      assert (first + second)[..|first + second| - 1] == first + second[..|second| - 1];
    }
  }

  function TenantIds(routes: seq<Route>): set<string> { set route | route in routes :: TenantOf(route) }

  function ServiceNames(routes: seq<Route>, tenantId: string): set<string> {
    set route | route in routes && TenantOf(route) == tenantId :: route.service
  }

  function GroupedServices(routes: seq<Route>, tenantId: string): Services {
    map service | service in ServiceNames(routes, tenantId) :: AddressesOf(routes, tenantId, service)
  }

  function Blank(tenantId: string, services: Services, active: bool): TenantDns {
    TenantDns(tenantId, "", map[DEFAULT_SITE := services], active, [], "", "", "", false)
  }

  function Grouped(routes: seq<Route>): map<string, TenantDns> {
    map tenantId | tenantId in TenantIds(routes) :: Blank(tenantId, GroupedServices(routes, tenantId), false)
  }

  lemma NamesStep(routes: seq<Route>, route: Route, tenantId: string)
    ensures ServiceNames(routes + [route], tenantId) ==
              ServiceNames(routes, tenantId) + (if tenantId == TenantOf(route) then {route.service} else {})
  {
    forall other ensures other in routes + [route] <==> other in routes || other == route {}
  }

  lemma AddressesStep(routes: seq<Route>, route: Route, tenantId: string, service: string)
    ensures AddressesOf(routes + [route], tenantId, service) ==
              AddressesOf(routes, tenantId, service)
              + (if TenantOf(route) == tenantId && route.service == service then [AddressOf(route)] else [])
  {
    assert (routes + [route])[..|routes|] == routes;
  }

  function Extended(services: Services, service: string, address: Address): Services {
    services[service := (if service in services then services[service] else []) + [address]]
  }

  lemma GroupedServicesOther(routes: seq<Route>, route: Route, tenantId: string)
    requires tenantId != TenantOf(route)
    ensures GroupedServices(routes + [route], tenantId) == GroupedServices(routes, tenantId)
  {
    var before, now := GroupedServices(routes, tenantId), GroupedServices(routes + [route], tenantId);
    NamesStep(routes, route, tenantId);
    assert now.Keys == before.Keys;
    forall service | service in now ensures now[service] == before[service] {
      AddressesStep(routes, route, tenantId, service);
    }
  }

  lemma GroupedServicesSame(routes: seq<Route>, route: Route)
    ensures GroupedServices(routes + [route], TenantOf(route)) ==
              Extended(GroupedServices(routes, TenantOf(route)), route.service, AddressOf(route))
  {
    var tenantId := TenantOf(route);
    var before, now := GroupedServices(routes, tenantId), GroupedServices(routes + [route], tenantId);
    var extended := Extended(before, route.service, AddressOf(route));
    NamesStep(routes, route, tenantId);
    assert now.Keys == extended.Keys;
    forall service | service in now ensures now[service] == extended[service] {
      AddressesStep(routes, route, tenantId, service);
      if service == route.service { NoRoutesNoAddresses(routes, tenantId, service); }
    }
  }

  lemma GroupedServicesStep(routes: seq<Route>, route: Route, tenantId: string)
    ensures GroupedServices(routes + [route], tenantId) ==
              if tenantId == TenantOf(route)
                  then Extended(GroupedServices(routes, tenantId), route.service, AddressOf(route))
              else GroupedServices(routes, tenantId)
  {
    if tenantId == TenantOf(route) {
      GroupedServicesSame(routes, route);
    } else {
      GroupedServicesOther(routes, route, tenantId);
    }
  }

  lemma GroupedStep(routes: seq<Route>, route: Route)
    ensures Grouped(routes + [route]) ==
              Grouped(routes)[TenantOf(route) :=
                  Blank(TenantOf(route), GroupedServices(routes + [route], TenantOf(route)), false)]
  {
    assert TenantIds(routes + [route]) == TenantIds(routes) + {TenantOf(route)};
    forall tenantId | tenantId != TenantOf(route)
      ensures GroupedServices(routes + [route], tenantId) == GroupedServices(routes, tenantId)
    {
      GroupedServicesStep(routes, route, tenantId);
    }
  }

  lemma {:induction false} NoRoutesNoAddresses(routes: seq<Route>, tenantId: string, service: string)
    ensures service !in ServiceNames(routes, tenantId) <==> AddressesOf(routes, tenantId, service) == []
    ensures tenantId !in TenantIds(routes) ==> ServiceNames(routes, tenantId) == {}
  {
    if routes != [] {
      var before, last := routes[..|routes| - 1], routes[|routes| - 1];
      NoRoutesNoAddresses(before, tenantId, service);
      assert routes == before + [last];
      assert ServiceNames(routes, tenantId) ==
          ServiceNames(before, tenantId) + (if TenantOf(last) == tenantId then {last.service} else {});
      assert TenantIds(routes) == TenantIds(before) + {TenantOf(last)};
    }
  }

  // ---------- sorting ----------

  predicate IsSorted(addresses: seq<Address>) {
    forall i, j | 0 <= i < j < |addresses| :: !Less(addresses[j], addresses[i])
  }

  function InsertAddress(address: Address, sorted: seq<Address>): seq<Address> {
    if sorted == [] || !Less(sorted[0], address) then [address] + sorted
        else [sorted[0]] + InsertAddress(address, sorted[1..])
  }

  /** What `sort.Sort` makes of an address list; equal addresses cannot be told apart, so the result is unique. */
  function SortAddresses(addresses: seq<Address>): seq<Address> {
    if addresses == [] then [] else InsertAddress(addresses[0], SortAddresses(addresses[1..]))
  }

  lemma {:induction false} InsertKeepsSorted(address: Address, sorted: seq<Address>)
    requires IsSorted(sorted)
    ensures IsSorted(InsertAddress(address, sorted))
    ensures multiset(InsertAddress(address, sorted)) == multiset(sorted) + multiset{address}
  {
    if sorted == [] {
    } else if !Less(sorted[0], address) {
      forall j | 0 <= j < |sorted| ensures !Less(sorted[j], address) {
        if Less(sorted[j], address) { NotLessTransitive(address, sorted[0], sorted[j]); }
      }
    } else {
      var rest := InsertAddress(address, sorted[1..]);
      InsertKeepsSorted(address, sorted[1..]);
      assert sorted == [sorted[0]] + sorted[1..];
      forall j | 0 <= j < |rest| ensures !Less(rest[j], sorted[0]) {
        assert rest[j] in multiset(rest);
        if rest[j] == address { LessTotal(sorted[0], address); } else { assert rest[j] in sorted[1..]; }
      }
    }
  }

  lemma NotLessTransitive(a: Address, b: Address, c: Address)
    requires !Less(b, a) && !Less(c, b)
    ensures !Less(c, a)
  {
    LessTotal(a, b);
    LessTotal(b, c);
    LessTotal(a, c);
    if Less(a, b) && Less(b, c) { LessTransitive(a, b, c); }
  }

  lemma {:induction false} SortSorts(addresses: seq<Address>)
    ensures IsSorted(SortAddresses(addresses)) && multiset(SortAddresses(addresses)) == multiset(addresses)
  {
    if addresses != [] {
      SortSorts(addresses[1..]);
      InsertKeepsSorted(addresses[0], SortAddresses(addresses[1..]));
      assert addresses == [addresses[0]] + addresses[1..];
    }
  }

  predicate IdsAscend(tenants: seq<TenantDns>) {
    forall i, j | 0 <= i < j < |tenants| :: Less(tenants[i].tenantId, tenants[j].tenantId)
  }

  function InsertTenant(t: TenantDns, sorted: seq<TenantDns>): seq<TenantDns> {
    if sorted == [] || !Less(sorted[0].tenantId, t.tenantId) then [t] + sorted
        else [sorted[0]] + InsertTenant(t, sorted[1..])
  }

  predicate IdsInOrder(tenants: seq<TenantDns>) {
    forall i, j | 0 <= i < j < |tenants| :: !Less(tenants[j].tenantId, tenants[i].tenantId)
  }

  /** One way to sort tenants by id; the contract of `SortTenantDns` leaves the order of equal ids open. */
  function SortTenants(tenants: seq<TenantDns>): seq<TenantDns> {
    if tenants == [] then [] else InsertTenant(tenants[0], SortTenants(tenants[1..]))
  }

  lemma {:induction false} InsertTenantKeepsOrder(t: TenantDns, sorted: seq<TenantDns>)
    requires IdsInOrder(sorted)
    ensures IdsInOrder(InsertTenant(t, sorted))
    ensures multiset(InsertTenant(t, sorted)) == multiset(sorted) + multiset{t}
  {
    if sorted == [] {
    } else if !Less(sorted[0].tenantId, t.tenantId) {
      forall j | 0 <= j < |sorted| ensures !Less(sorted[j].tenantId, t.tenantId) {
        if j > 0 { NotLessTransitive(t.tenantId, sorted[0].tenantId, sorted[j].tenantId); }
      }
    } else {
      var rest := InsertTenant(t, sorted[1..]);
      InsertTenantKeepsOrder(t, sorted[1..]);
      assert sorted == [sorted[0]] + sorted[1..];
      forall j | 0 <= j < |rest| ensures !Less(rest[j].tenantId, sorted[0].tenantId) {
        assert rest[j] in multiset(rest);
        if rest[j] == t { LessTotal(sorted[0].tenantId, t.tenantId); } else { assert rest[j] in sorted[1..]; }
      }
    }
  }

  lemma {:induction false} SortTenantsSorts(tenants: seq<TenantDns>)
    ensures IdsInOrder(SortTenants(tenants)) && multiset(SortTenants(tenants)) == multiset(tenants)
  {
    if tenants != [] {
      SortTenantsSorts(tenants[1..]);
      InsertTenantKeepsOrder(tenants[0], SortTenants(tenants[1..]));
      assert tenants == [tenants[0]] + tenants[1..];
    }
  }

  /** `u` is `t` with every address list sorted. */
  ghost predicate ListsSorted(t: TenantDns, u: TenantDns) {
    && u == t.(sites := u.sites) && u.sites.Keys == t.sites.Keys
    && (forall site | site in t.sites :: ServicesSorted(t.sites[site], u.sites[site]))
  }

  ghost predicate ServicesSorted(before: Services, after: Services) {
    && after.Keys == before.Keys
    && (forall service | service in before ::
          IsSorted(after[service]) && multiset(after[service]) == multiset(before[service]))
  }

  /** `sorted` holds each tenant once, ids in order, those of equal id in any order, every address list sorted. */
  ghost predicate IsSortOf(sorted: seq<TenantDns>, tenants: seq<TenantDns>) {
    exists order: seq<TenantDns> :: IsSortBy(order, sorted, tenants)
  }

  ghost predicate IsSortBy(order: seq<TenantDns>, sorted: seq<TenantDns>, tenants: seq<TenantDns>) {
    && multiset(order) == multiset(tenants) && |order| == |sorted| && IdsInOrder(order)
    && (forall i | 0 <= i < |order| :: ListsSorted(order[i], sorted[i]))
  }

  function SortedServices(services: Services): Services {
    map service | service in services :: SortAddresses(services[service])
  }

  function SortedSites(sites: Sites): Sites {
    map site | site in sites :: SortedServices(sites[site])
  }

  // ---------- FromRoutes ----------

  /** An active tenant with one default site holding, sorted, the addresses of its routes per service. */
  ghost predicate IsTenantOf(t: TenantDns, routes: seq<Route>) {
    && t.active && !t.removed && t.sites.Keys == {DEFAULT_SITE}
    && (forall service :: service in t.sites[DEFAULT_SITE] <==> AddressesOf(routes, t.tenantId, service) != [])
    && (forall service <- t.sites[DEFAULT_SITE] ::
          IsSorted(t.sites[DEFAULT_SITE][service])
          && multiset(t.sites[DEFAULT_SITE][service]) == multiset(AddressesOf(routes, t.tenantId, service)))
  }

  predicate HasId(scheme: seq<TenantDns>, id: string) { exists t <- scheme :: t.tenantId == id }

  /** `scheme` is what routes stand for: one tenant for each tenant id of a route, with ascending ids. */
  ghost predicate IsSchemeOf(scheme: seq<TenantDns>, routes: seq<Route>) {
    && IdsAscend(scheme)
    && (forall id :: id in TenantIds(routes) <==> HasId(scheme, id))
    && (forall t <- scheme :: IsTenantOf(t, routes))
  }

  method GroupRoutes(routes: seq<Route>) returns (tmp: map<string, TenantDns>)
    ensures tmp == Grouped(routes)
  {
    tmp := map[];
    for i := 0 to |routes|
      invariant tmp == Grouped(routes[..i])
    {
      var route := routes[i];
      GroupedStep(routes[..i], route);
      GroupedServicesStep(routes[..i], route, TenantOf(route));
      assert routes[..i + 1] == routes[..i] + [route];
      NoRoutesNoAddresses(routes[..i], TenantOf(route), route.service);
      var tenantId := TenantOf(route);
      var services: Services := if tenantId in tmp then tmp[tenantId].sites[DEFAULT_SITE] else map[];
      assert services == GroupedServices(routes[..i], tenantId);
      var addresses: seq<Address> := [];
      if route.service in services { addresses := services[route.service]; }
      services := services[route.service := addresses + [AddressOf(route)]];
      tmp := tmp[tenantId := Blank(tenantId, services, false)];
    }
    assert routes[..|routes|] == routes;
  }

  /** The tenants of the map in no particular order, now active. */
  method ActiveTenants(tmp: map<string, TenantDns>) returns (list: seq<TenantDns>)
    requires forall id | id in tmp :: tmp[id].tenantId == id
    ensures forall t <- list :: t.tenantId in tmp && t == tmp[t.tenantId].(active := true)
    ensures forall id | id in tmp :: HasId(list, id)
    ensures IdsDiffer(list)
  {
    list := [];
    var ids := tmp.Keys;
    while ids != {}
      invariant ids <= tmp.Keys
      invariant forall t <- list :: t.tenantId in tmp && t.tenantId !in ids && t == tmp[t.tenantId].(active := true)
      invariant forall id | id in tmp && id !in ids :: HasId(list, id)
      invariant forall i, j | 0 <= i < j < |list| :: list[i].tenantId != list[j].tenantId
      decreases ids
    {
      var id :| id in ids;
      ghost var before := list;
      list := list + [tmp[id].(active := true)];
      ids := ids - {id};
      assert list[|list| - 1].tenantId == id;
      assert forall other | HasId(before, other) :: HasId(list, other);
    }
  }

  method FromRoutes(routes: seq<Route>) returns (scheme: seq<TenantDns>)
    ensures IsSchemeOf(scheme, routes)
  {
    var tmp := GroupRoutes(routes);
    var list := ActiveTenants(tmp);
    scheme := SortTenantDns(list);
    forall id ensures id in TenantIds(routes) <==> HasId(list, id) {
      assert id in TenantIds(routes) <==> id in tmp;
    }
    SortedIsScheme(list, scheme, routes);
  }

  /** Sorts the tenants by id and then every address list in place. */
  method SortTenantDns(tenants: seq<TenantDns>) returns (sorted: seq<TenantDns>)
    ensures IsSortOf(sorted, tenants)
  {
    sorted := SortTenants(tenants);
    ghost var order := sorted;
    SortTenantsSorts(tenants);
    for i := 0 to |sorted|
      invariant |sorted| == |order|
      invariant forall j | 0 <= j < i :: ListsSorted(order[j], sorted[j])
      invariant forall j | i <= j < |sorted| :: sorted[j] == order[j]
    {
      SortedSitesSorted(sorted[i]);
      sorted := sorted[i := sorted[i].(sites := SortedSites(sorted[i].sites))];
    }
    assert IsSortBy(order, sorted, tenants);
  }

  lemma SortedSitesSorted(t: TenantDns)
    ensures ListsSorted(t, t.(sites := SortedSites(t.sites)))
  {
    forall site, service | site in t.sites && service in t.sites[site] { SortSorts(t.sites[site][service]); }
  }

  lemma SortedTenant(t: TenantDns, u: TenantDns, routes: seq<Route>)
    requires t == Blank(t.tenantId, GroupedServices(routes, t.tenantId), true) && ListsSorted(t, u)
    ensures u.tenantId == t.tenantId && IsTenantOf(u, routes)
  {
    assert ServicesSorted(t.sites[DEFAULT_SITE], u.sites[DEFAULT_SITE]);
    forall service
      ensures service in GroupedServices(routes, t.tenantId) <==> AddressesOf(routes, t.tenantId, service) != []
    {
      NoRoutesNoAddresses(routes, t.tenantId, service);
    }
  }

  predicate IdsDiffer(tenants: seq<TenantDns>) {
    forall i, j | 0 <= i < j < |tenants| :: tenants[i].tenantId != tenants[j].tenantId
  }

  lemma {:induction false} ListedOnce(tenants: seq<TenantDns>, t: TenantDns)
    requires IdsDiffer(tenants)
    ensures multiset(tenants)[t] <= 1
  {
    if tenants != [] {
      ListedOnce(tenants[1..], t);
      assert tenants == [tenants[0]] + tenants[1..];
      assert tenants[0] !in tenants[1..];
    }
  }

  lemma ListedTwice(tenants: seq<TenantDns>, i: nat, j: nat)
    requires i < j < |tenants| && tenants[i] == tenants[j]
    ensures multiset(tenants)[tenants[i]] >= 2
  {
    assert tenants == tenants[..j] + tenants[j..];
    assert tenants[i] in tenants[..j] && tenants[j] in tenants[j..];
  }

  /** In order and pairwise different means ascending. */
  lemma DifferentIdsAscend(order: seq<TenantDns>, list: seq<TenantDns>)
    requires IdsInOrder(order) && IdsDiffer(list) && multiset(order) == multiset(list)
    ensures IdsAscend(order)
  {
    forall i, j | 0 <= i < j < |order| ensures Less(order[i].tenantId, order[j].tenantId) {
      LessTotal(order[i].tenantId, order[j].tenantId);
      if order[i].tenantId == order[j].tenantId {
        assert order[i] in multiset(list) && order[j] in multiset(list);
        assert order[i] in list && order[j] in list;
        ListedTwice(order, i, j);
        ListedOnce(list, order[i]);
      }
    }
  }

  lemma SortKeepsIds(order: seq<TenantDns>, scheme: seq<TenantDns>, list: seq<TenantDns>, id: string)
    requires |order| == |scheme| && multiset(order) == multiset(list)
    requires forall i | 0 <= i < |order| :: order[i].tenantId == scheme[i].tenantId
    ensures HasId(scheme, id) <==> HasId(list, id)
  {
    if t :| t in list && t.tenantId == id {
      assert t in multiset(order);
      var i :| 0 <= i < |order| && order[i] == t;
      assert scheme[i].tenantId == id;
    }
    if t :| t in scheme && t.tenantId == id {
      var i :| 0 <= i < |scheme| && scheme[i] == t;
      assert order[i] in multiset(order) && order[i].tenantId == id;
      assert order[i] in multiset(list);
    }
  }

  lemma SortedIsScheme(list: seq<TenantDns>, scheme: seq<TenantDns>, routes: seq<Route>)
    requires IsSortOf(scheme, list) && IdsDiffer(list)
    requires forall t <- list :: t == Blank(t.tenantId, GroupedServices(routes, t.tenantId), true)
    requires forall id :: id in TenantIds(routes) <==> HasId(list, id)
    ensures IsSchemeOf(scheme, routes)
  {
    var order: seq<TenantDns> :| IsSortBy(order, scheme, list);
    DifferentIdsAscend(order, list);
    forall i | 0 <= i < |order| ensures scheme[i].tenantId == order[i].tenantId && IsTenantOf(scheme[i], routes) {
      assert order[i] in multiset(order) && order[i] in multiset(list);
      SortedTenant(order[i], scheme[i], routes);
    }
    forall id ensures HasId(scheme, id) <==> HasId(list, id) { SortKeepsIds(order, scheme, list, id); }
  }

  // ---------- which addresses a scheme has, written out ----------

  predicate IsRouteOf(route: Route, tenantId: string, service: string) {
    var annotations := route.metadata.annotations;
    && route.service == service
    && (if "netcracker.cloud/tenant.service.tenant.id" in annotations
        then annotations["netcracker.cloud/tenant.service.tenant.id"] == tenantId else tenantId == "")
  }

  /** The host of the route, with a slash and its URL suffix where it has a suffix that is not empty. */
  predicate ShowsAddress(route: Route, address: Address) {
    var annotations := route.metadata.annotations;
    if "netcracker.cloud/tenant.service.url.suffix" in annotations
       && annotations["netcracker.cloud/tenant.service.url.suffix"] != ""
    then address == route.host + "/" + annotations["netcracker.cloud/tenant.service.url.suffix"]
    else address == route.host
  }

  function CountShowing(routes: seq<Route>, tenantId: string, service: string, address: Address): nat {
    if routes == [] then 0
    else
      CountShowing(routes[..|routes| - 1], tenantId, service, address) +
      (if IsRouteOf(routes[|routes| - 1], tenantId, service) && ShowsAddress(routes[|routes| - 1], address)
          then 1 else 0)
  }

  lemma {:induction false} AddressesCount(routes: seq<Route>, tenantId: string, service: string, address: Address)
    ensures multiset(AddressesOf(routes, tenantId, service))[address] ==
              CountShowing(routes, tenantId, service, address)
  {
    if routes != [] {
      var last := routes[|routes| - 1];
      AddressesCount(routes[..|routes| - 1], tenantId, service, address);
      assert TenantOf(last) == tenantId && last.service == service <==> IsRouteOf(last, tenantId, service);
      assert AddressOf(last) == address <==> ShowsAddress(last, address);
    }
  }

  lemma {:induction false} CountPositive(routes: seq<Route>, tenantId: string, service: string, address: Address)
    ensures CountShowing(routes, tenantId, service, address) > 0
            <==> exists route <- routes :: IsRouteOf(route, tenantId, service) && ShowsAddress(route, address)
  {
    if routes != [] {
      var before, last := routes[..|routes| - 1], routes[|routes| - 1];
      CountPositive(before, tenantId, service, address);
      assert forall route :: route in routes <==> route in before || route == last;
    }
  }

  /** A tenant lists an address for a service as often as there are routes of that tenant and service that show it. */
  lemma SchemeShowsRoutes(scheme: seq<TenantDns>, routes: seq<Route>, t: TenantDns, service: string, address: Address)
    requires IsSchemeOf(scheme, routes) && t in scheme
    ensures var listed := if service in t.sites["default"] then t.sites["default"][service] else [];
            && multiset(listed)[address] == CountShowing(routes, t.tenantId, service, address)
            && (address in listed <==>
                exists route <- routes :: IsRouteOf(route, t.tenantId, service) && ShowsAddress(route, address))
  {
    AddressesCount(routes, t.tenantId, service, address);
    CountPositive(routes, t.tenantId, service, address);
    var listed := if service in t.sites["default"] then t.sites["default"][service] else [];
    assert multiset(listed) == multiset(AddressesOf(routes, t.tenantId, service));
    assert address in listed <==> address in multiset(listed);
  }

  // ---------- no route is lost and none is invented ----------

  ghost function Total(services: Services, names: set<string>): nat
    requires names <= services.Keys
  {
    if names == {} then 0
    else
      var name :| name in names;
      |services[name]| + Total(services, names - {name})
  }

  lemma {:induction false} TotalPick(services: Services, names: set<string>, name: string)
    requires names <= services.Keys && name in names
    ensures Total(services, names) == |services[name]| + Total(services, names - {name})
    decreases |names|
  {
    var first :| first in names && Total(services, names) == |services[first]| + Total(services, names - {first});
    if first != name {
      TotalPick(services, names - {first}, name);
      TotalPick(services, names - {name}, first);
      assert names - {first} - {name} == names - {name} - {first};
    }
  }

  lemma {:induction false} TotalSame(a: Services, b: Services, names: set<string>)
    requires names <= a.Keys && names <= b.Keys && forall name | name in names :: |a[name]| == |b[name]|
    ensures Total(a, names) == Total(b, names)
    decreases |names|
  {
    if names != {} {
      var name :| name in names;
      TotalPick(a, names, name);
      TotalPick(b, names, name);
      TotalSame(a, b, names - {name});
    }
  }

  function CountOf(routes: seq<Route>, tenantId: string): nat {
    if routes == [] then 0 else CountOf(routes[..|routes| - 1], tenantId) + (if TenantOf(routes[|routes| - 1]) ==
        tenantId then 1 else 0)
  }

  /** The addresses of one tenant are as many as its routes. */
  lemma {:induction false} TenantTotal(routes: seq<Route>, tenantId: string)
    ensures Total(GroupedServices(routes, tenantId), GroupedServices(routes, tenantId).Keys) ==
              CountOf(routes, tenantId)
  {
    if routes != [] {
      var before, last := routes[..|routes| - 1], routes[|routes| - 1];
      TenantTotal(before, tenantId);
      GroupedServicesStep(before, last, tenantId);
      assert before + [last] == routes;
      if TenantOf(last) == tenantId {
        TotalOfExtended(GroupedServices(before, tenantId), last.service, AddressOf(last));
      }
    }
  }

  lemma TotalOfExtended(services: Services, service: string, address: Address)
    ensures var more := Extended(services, service, address);
            Total(more, more.Keys) == Total(services, services.Keys) + 1
  {
    var more := Extended(services, service, address);
    TotalPick(more, more.Keys, service);
    TotalSame(more, services, more.Keys - {service});
    if service in services {
      TotalPick(services, services.Keys, service);
      assert services.Keys == more.Keys;
    } else {
      assert more.Keys - {service} == services.Keys;
    }
  }

  ghost function SchemeTotal(scheme: seq<TenantDns>): nat
    requires forall t <- scheme :: DEFAULT_SITE in t.sites
  {
    if scheme == [] then 0
    else
      var services := scheme[|scheme| - 1].sites[DEFAULT_SITE];
      SchemeTotal(scheme[..|scheme| - 1]) + Total(services, services.Keys)
  }

  ghost function CountOfAll(routes: seq<Route>, ids: seq<string>): nat {
    if ids == [] then 0 else CountOfAll(routes, ids[..|ids| - 1]) + CountOf(routes, ids[|ids| - 1])
  }

  lemma {:induction false} CountOfAllStep(routes: seq<Route>, ids: seq<string>)
    requires routes != []
    requires forall i, j | 0 <= i < j < |ids| :: ids[i] != ids[j]
    ensures CountOfAll(routes, ids) ==
              CountOfAll(routes[..|routes| - 1], ids) + (if TenantOf(routes[|routes| - 1]) in ids then 1 else 0)
  {
    if ids != [] {
      CountOfAllStep(routes, ids[..|ids| - 1]);
      assert ids == ids[..|ids| - 1] + [ids[|ids| - 1]];
    }
  }

  lemma {:induction false} CountsAddUp(routes: seq<Route>, ids: seq<string>)
    requires forall i, j | 0 <= i < j < |ids| :: ids[i] != ids[j]
    requires forall route <- routes :: TenantOf(route) in ids
    ensures CountOfAll(routes, ids) == |routes|
  {
    if routes != [] {
      CountOfAllStep(routes, ids);
      CountsAddUp(routes[..|routes| - 1], ids);
      assert routes[|routes| - 1] in routes;
    } else {
      NoneToCount(ids);
    }
  }

  lemma {:induction false} NoneToCount(ids: seq<string>)
    ensures CountOfAll([], ids) == 0
  {
    if ids != [] { NoneToCount(ids[..|ids| - 1]); }
  }

  ghost predicate SameSizes(services: Services, routes: seq<Route>, tenantId: string) {
    && services.Keys == ServiceNames(routes, tenantId)
    && forall service <- services :: |services[service]| == |AddressesOf(routes, tenantId, service)|
  }

  lemma SizesCount(services: Services, routes: seq<Route>, tenantId: string)
    requires SameSizes(services, routes, tenantId)
    ensures Total(services, services.Keys) == CountOf(routes, tenantId)
  {
    var grouped := GroupedServices(routes, tenantId);
    assert grouped.Keys == services.Keys;
    TotalSame(services, grouped, services.Keys);
    TenantTotal(routes, tenantId);
  }

  lemma {:induction false} SchemeTotalIsCount(scheme: seq<TenantDns>, routes: seq<Route>, ids: seq<string>)
    requires |ids| == |scheme| && forall i | 0 <= i < |ids| :: ids[i] == scheme[i].tenantId
    requires forall t <- scheme :: DEFAULT_SITE in t.sites
    requires forall t <- scheme :: SameSizes(t.sites[DEFAULT_SITE], routes, t.tenantId)
    ensures SchemeTotal(scheme) == CountOfAll(routes, ids)
  {
    if scheme != [] {
      var last := scheme[|scheme| - 1];
      assert last in scheme;
      SizesCount(last.sites[DEFAULT_SITE], routes, last.tenantId);
      SchemeTotalIsCount(scheme[..|scheme| - 1], routes, ids[..|ids| - 1]);
    }
  }

  /** A scheme built from routes holds exactly as many addresses as there are routes. */
  lemma SchemeConserves(scheme: seq<TenantDns>, routes: seq<Route>)
    requires IsSchemeOf(scheme, routes)
    ensures forall t <- scheme :: DEFAULT_SITE in t.sites
    ensures SchemeTotal(scheme) == |routes|
  {
    var ids := seq(|scheme|, i requires 0 <= i < |scheme| => scheme[i].tenantId);
    forall i, j | 0 <= i < j < |ids| ensures ids[i] != ids[j] { LessTotal(ids[i], ids[j]); }
    forall t | t in scheme ensures DEFAULT_SITE in t.sites && SameSizes(t.sites[DEFAULT_SITE], routes, t.tenantId) {
      var services := t.sites[DEFAULT_SITE];
      forall service ensures service in services <==> service in ServiceNames(routes, t.tenantId) {
        NoRoutesNoAddresses(routes, t.tenantId, service);
      }
      forall service | service in services ensures |services[service]| == |AddressesOf(routes, t.tenantId, service)| {
        assert |multiset(services[service])| == |multiset(AddressesOf(routes, t.tenantId, service))|;
      }
    }
    forall route | route in routes ensures TenantOf(route) in ids {
      assert TenantOf(route) in TenantIds(routes) && HasId(scheme, TenantOf(route));
      var t :| t in scheme && t.tenantId == TenantOf(route);
      var i :| 0 <= i < |scheme| && scheme[i] == t;
      assert ids[i] == TenantOf(route);
    }
    SchemeTotalIsCount(scheme, routes, ids);
    CountsAddUp(routes, ids);
  }

  // ---------- AppendToRoutes ----------

  function Hosts(addresses: seq<Address>): seq<Address> {
    seq(|addresses|, i requires 0 <= i < |addresses| => Host(addresses[i]))
  }

  function HostsIn(services: Services, service: string): seq<Address> {
    if service in services then Hosts(services[service]) else []
  }

  /** The hosts a tenant lists for a service, site by site in the given order. */
  function Collected(sites: Sites, order: seq<string>, service: string): seq<Address> {
    if order == [] then []
    else
      var last := order[|order| - 1];
      Collected(sites, order[..|order| - 1], service) + (if last in sites then HostsIn(sites[last], service) else [])
  }

  /** `added` are routes of tenant `tenantId` whose addresses per service are `addresses`. */
  ghost predicate AreRoutesFor(added: seq<Route>, tenantId: string, addresses: string -> seq<Address>) {
    && AllOf(added, tenantId)
    && (forall service :: AddressesOf(added, tenantId, service) == addresses(service))
  }

  ghost predicate IsOrderOf(order: seq<string>, names: set<string>) {
    && (forall name :: name in order <==> name in names)
    && (forall i, j | 0 <= i < j < |order| :: order[i] != order[j])
  }

  /** `order` is the order in which the sites were visited. */
  ghost predicate AppendedBy(t: TenantDns, order: seq<string>, added: seq<Route>) {
    IsOrderOf(order, t.sites.Keys) && AreRoutesFor(added, t.tenantId, service => Collected(t.sites, order, service))
  }

  lemma RouteStandsForItself(t: TenantDns, service: string, address: Address)
    ensures var route := t.ToRoute(service, address);
            TenantOf(route) == t.tenantId && route.service == service && AddressOf(route) == Host(address)
  {
    assert |TENANT_ID| != |URL_SUFFIX|;
  }

  method AppendService(t: TenantDns, service: string, addresses: seq<Address>) returns (added: seq<Route>)
    ensures forall route <- added :: TenantOf(route) == t.tenantId
    ensures forall other :: AddressesOf(added, t.tenantId, other) == if other == service then Hosts(addresses) else []
  {
    added := [];
    for i := 0 to |addresses|
      invariant forall route <- added :: TenantOf(route) == t.tenantId
      invariant forall other :: AddressesOf(added, t.tenantId, other) ==
                  if other == service then Hosts(addresses[..i]) else []
    {
      RouteStandsForItself(t, service, addresses[i]);
      var route := t.ToRoute(service, addresses[i]);
      forall other { AddressesStep(added, route, t.tenantId, other); }
      assert Hosts(addresses[..i + 1]) == Hosts(addresses[..i]) + [Host(addresses[i])];
      added := added + [route];
    }
    assert addresses[..|addresses|] == addresses;
  }

  method AppendSite(t: TenantDns, services: Services) returns (added: seq<Route>)
    ensures forall route <- added :: TenantOf(route) == t.tenantId
    ensures forall service :: AddressesOf(added, t.tenantId, service) == HostsIn(services, service)
  {
    added := [];
    var names := services.Keys;
    while names != {}
      invariant names <= services.Keys
      invariant forall route <- added :: TenantOf(route) == t.tenantId
      invariant forall service :: AddressesOf(added, t.tenantId, service) ==
                  if service in names then [] else HostsIn(services, service)
      decreases names
    {
      var name :| name in names;
      var more := AppendService(t, name, services[name]);
      forall service { AddressesOfAppend(added, more, t.tenantId, service); }
      added := added + more;
      names := names - {name};
    }
  }

  /** Appends the routes of every address of the tenant, leaving the ones given in front. */
  method AppendToRoutes(t: TenantDns, routes: seq<Route>) returns (result: seq<Route>)
    ensures routes <= result && exists order :: AppendedBy(t, order, result[|routes|..])
  {
    result := routes;
    ghost var order, added := [], [];
    var sites := t.sites.Keys;
    while sites != {}
      invariant sites <= t.sites.Keys && result == routes + added
      invariant IsOrderOf(order, t.sites.Keys - sites)
      invariant forall route <- added :: TenantOf(route) == t.tenantId
      invariant forall service :: AddressesOf(added, t.tenantId, service) == Collected(t.sites, order, service)
      decreases sites
    {
      var site :| site in sites;
      var more := AppendSite(t, t.sites[site]);
      forall service { AddressesOfAppend(added, more, t.tenantId, service); }
      assert (order + [site])[..|order|] == order;
      result, added, order := result + more, added + more, order + [site];
      sites := sites - {site};
    }
    assert result[|routes|..] == added;
    assert AppendedBy(t, order, added);
  }

  // ---------- there and back ----------

  /** Tenants a scheme of routes can express: one non-empty default site, non-empty lists, host-only addresses. */
  predicate IsExpressible(t: TenantDns) {
    && t.sites.Keys == {DEFAULT_SITE} && t.sites[DEFAULT_SITE] != map[]
    && forall service <- t.sites[DEFAULT_SITE] ::
         t.sites[DEFAULT_SITE][service] != [] && Hosts(t.sites[DEFAULT_SITE][service]) == t.sites[DEFAULT_SITE][service]
  }

  function Joined(batches: seq<seq<Route>>): seq<Route> {
    if batches == [] then [] else Joined(batches[..|batches| - 1]) + batches[|batches| - 1]
  }

  predicate SameUpToOrder(a: Services, b: Services) {
    a.Keys == b.Keys && forall service <- a :: multiset(a[service]) == multiset(b[service])
  }

  predicate AllOf(routes: seq<Route>, tenantId: string) { forall route <- routes :: TenantOf(route) == tenantId }

  lemma {:induction false} ForeignRoutes(routes: seq<Route>, tenantId: string, service: string)
    requires forall route <- routes :: TenantOf(route) != tenantId
    ensures AddressesOf(routes, tenantId, service) == []
  {
    if routes != [] {
      ForeignRoutes(routes[..|routes| - 1], tenantId, service);
      assert routes[|routes| - 1] in routes;
    }
  }

  /** In the joined routes each tenant's addresses are those of its own batch. */
  lemma {:induction false} JoinedAddresses(ids: seq<string>, batches: seq<seq<Route>>, i: nat, service: string)
    requires |ids| == |batches| && i < |ids|
    requires forall j, k | 0 <= j < k < |ids| :: ids[j] != ids[k]
    requires forall j | 0 <= j < |ids| :: AllOf(batches[j], ids[j])
    ensures AddressesOf(Joined(batches), ids[i], service) == AddressesOf(batches[i], ids[i], service)
  {
    var last := |batches| - 1;
    AddressesOfAppend(Joined(batches[..last]), batches[last], ids[i], service);
    if i < last {
      JoinedAddresses(ids[..last], batches[..last], i, service);
      ForeignRoutes(batches[last], ids[i], service);
    } else {
      JoinedTenants(ids[..last], batches[..last]);
      ForeignRoutes(Joined(batches[..last]), ids[i], service);
    }
  }

  lemma {:induction false} JoinedTenants(ids: seq<string>, batches: seq<seq<Route>>)
    requires |ids| == |batches|
    requires forall j | 0 <= j < |ids| :: AllOf(batches[j], ids[j])
    ensures forall route <- Joined(batches) :: TenantOf(route) in ids
  {
    if batches != [] { JoinedTenants(ids[..|ids| - 1], batches[..|ids| - 1]); }
  }

  lemma OnlyDefaultSite(t: TenantDns, order: seq<string>, service: string)
    requires IsExpressible(t) && IsOrderOf(order, t.sites.Keys)
    ensures Collected(t.sites, order, service) ==
              if service in t.sites[DEFAULT_SITE] then t.sites[DEFAULT_SITE][service] else []
  {
    assert DEFAULT_SITE in order;
    assert |order| > 1 ==> order[0] != order[1];
    forall k | 0 <= k < |order| ensures order[k] == DEFAULT_SITE { assert order[k] in order; }
    assert order == [DEFAULT_SITE] && order[..0] == [];
  }

  /** `batches` are the routes of expressible tenants with distinct ids, each appended in some site order. */
  ghost predicate AreBatchesOf(batches: seq<seq<Route>>, tenants: seq<TenantDns>) {
    && |batches| == |tenants|
    && (forall i, j | 0 <= i < j < |tenants| :: tenants[i].tenantId != tenants[j].tenantId)
    && (forall i | 0 <= i < |tenants| ::
         IsExpressible(tenants[i]) && exists order :: AppendedBy(tenants[i], order, batches[i]))
  }

  lemma BatchAddresses(batches: seq<seq<Route>>, tenants: seq<TenantDns>, i: nat, service: string)
    requires AreBatchesOf(batches, tenants) && i < |tenants|
    ensures AddressesOf(Joined(batches), tenants[i].tenantId, service) ==
              if service in tenants[i].sites[DEFAULT_SITE] then tenants[i].sites[DEFAULT_SITE][service] else []
  {
    var ids := seq(|tenants|, j requires 0 <= j < |tenants| => tenants[j].tenantId);
    JoinedAddresses(ids, batches, i, service);
    var order :| AppendedBy(tenants[i], order, batches[i]);
    OnlyDefaultSite(tenants[i], order, service);
  }

  lemma TenantsOfBatches(tenants: seq<TenantDns>, batches: seq<seq<Route>>, id: string)
    requires AreBatchesOf(batches, tenants)
    ensures id in TenantIds(Joined(batches)) ==> HasId(tenants, id)
  {
    var ids := seq(|tenants|, i requires 0 <= i < |tenants| => tenants[i].tenantId);
    JoinedTenants(ids, batches);
    if id in TenantIds(Joined(batches)) {
      var i :| 0 <= i < |tenants| && ids[i] == id;
      assert tenants[i] in tenants;
    }
  }

  lemma BatchesOfTenants(tenants: seq<TenantDns>, batches: seq<seq<Route>>, i: nat)
    requires AreBatchesOf(batches, tenants) && i < |tenants|
    ensures tenants[i].tenantId in TenantIds(Joined(batches))
  {
    var service :| service in tenants[i].sites[DEFAULT_SITE];
    BatchAddresses(batches, tenants, i, service);
    NoRoutesNoAddresses(Joined(batches), tenants[i].tenantId, service);
  }

  /** Converting expressible tenants with distinct ids to routes and back gives tenants with the same ids, ... */
  lemma RoundTripKeepsTenants(tenants: seq<TenantDns>, batches: seq<seq<Route>>, scheme: seq<TenantDns>, id: string)
    requires AreBatchesOf(batches, tenants) && IsSchemeOf(scheme, Joined(batches))
    ensures HasId(scheme, id) <==> HasId(tenants, id)
  {
    TenantsOfBatches(tenants, batches, id);
    if t :| t in tenants && t.tenantId == id {
      var i :| 0 <= i < |tenants| && tenants[i] == t;
      BatchesOfTenants(tenants, batches, i);
    }
  }

  /** ... and each has the same services with the same addresses up to order. */
  lemma RoundTripKeepsSites(tenants: seq<TenantDns>, batches: seq<seq<Route>>, scheme: seq<TenantDns>, i: nat,
                            t: TenantDns)
    requires AreBatchesOf(batches, tenants) && IsSchemeOf(scheme, Joined(batches))
    requires i < |tenants| && t in scheme && t.tenantId == tenants[i].tenantId
    ensures t.sites.Keys == {DEFAULT_SITE} && SameUpToOrder(t.sites[DEFAULT_SITE], tenants[i].sites[DEFAULT_SITE])
  {
    forall service ensures service in t.sites[DEFAULT_SITE] <==> service in tenants[i].sites[DEFAULT_SITE] {
      BatchAddresses(batches, tenants, i, service);
    }
    forall service | service in t.sites[DEFAULT_SITE]
      ensures multiset(t.sites[DEFAULT_SITE][service]) == multiset(tenants[i].sites[DEFAULT_SITE][service])
    {
      BatchAddresses(batches, tenants, i, service);
    }
  }

  // ---------- merging with general routes ----------

  /** The addresses of one site as an object of its own, so that sharing it between sites would show. */
  class SiteServices {
    var services: Services

    constructor (services: Services)
      ensures this.services == services
    {
      this.services := services;
    }
  }

  /** One address per service: of routes to the same service the last one stays. */
  function GeneralServices(routes: seq<Route>): Services {
    if routes == [] then map[]
    else GeneralServices(routes[..|routes| - 1])[routes[|routes| - 1].service := [routes[|routes| - 1].host]]
  }

  lemma {:induction false} LastGeneralRouteStays(routes: seq<Route>, i: nat)
    requires i < |routes| && forall j | i < j < |routes| :: routes[j].service != routes[i].service
    ensures routes[i].service in GeneralServices(routes)
              && GeneralServices(routes)[routes[i].service] == [routes[i].host]
  {
    if i < |routes| - 1 { LastGeneralRouteStays(routes[..|routes| - 1], i); }
  }

  lemma {:induction false} OnlyGeneralServices(routes: seq<Route>, service: string)
    requires forall route <- routes :: route.service != service
    ensures service !in GeneralServices(routes)
  {
    if routes != [] {
      OnlyGeneralServices(routes[..|routes| - 1], service);
      assert routes[|routes| - 1] in routes;
    }
  }

  function Merged(general: Services, own: Services): Services { general + own }

  method RoutesToServices(routes: seq<Route>) returns (services: Services)
    ensures services == GeneralServices(routes)
  {
    services := map[];
    for i := 0 to |routes|
      invariant services == GeneralServices(routes[..i])
    {
      services := services[routes[i].service := [routes[i].host]];
      assert routes[..i + 1][..i] == routes[..i];
    }
    assert routes[..|routes|] == routes;
  }

  /** Every site of the scheme gets a copy of the general services of its own, overridden by its own entries. */
  method MergeDatabaseSchemeWithGeneralRoutes(sites: map<string, SiteServices>, generalRoutes: seq<Route>)
    returns (merged: map<string, SiteServices>)
    ensures merged.Keys == sites.Keys
    ensures forall site | site in sites ::
              fresh(merged[site]) && merged[site].services ==
                  Merged(GeneralServices(generalRoutes), sites[site].services)
    ensures forall a, b | a in merged && b in merged && a != b :: merged[a] != merged[b]
  {
    var general := RoutesToServices(generalRoutes);
    merged := map[];
    var todo := sites.Keys;
    while todo != {}
      invariant todo <= sites.Keys && merged.Keys == sites.Keys - todo
      invariant forall site | site in merged :: fresh(merged[site]) && merged[site].services == general
      invariant forall a, b | a in merged && b in merged && a != b :: merged[a] != merged[b]
      decreases todo
    {
      var site :| site in todo;
      var copy := new SiteServices(general);
      merged := merged[site := copy];
      todo := todo - {site};
    }
    todo := sites.Keys;
    while todo != {}
      invariant todo <= sites.Keys && merged.Keys == sites.Keys
      invariant forall site | site in merged :: fresh(merged[site])
      invariant forall site | site in merged :: merged[site].services ==
                  if site in todo then general else Merged(general, sites[site].services)
      invariant forall a, b | a in merged && b in merged && a != b :: merged[a] != merged[b]
      decreases todo
    {
      var site :| site in todo;
      OverrideServices(merged[site], sites[site].services);
      todo := todo - {site};
    }
  }

  method OverrideServices(target: SiteServices, own: Services)
    modifies target
    ensures target.services == Merged(old(target.services), own)
  {
    var names := own.Keys;
    while names != {}
      invariant names <= own.Keys
      invariant target.services == old(target.services) + map name | name in own && name !in names :: own[name]
      decreases names
    {
      var name :| name in names;
      target.services := target.services[name := own[name]];
      names := names - {name};
    }
  }

  /** Merging again with the same routes changes nothing, and a site's own entries always win. */
  lemma MergeIsIdempotent(routes: seq<Route>, own: Services)
    ensures var general := GeneralServices(routes);
            && Merged(general, Merged(general, own)) == Merged(general, own)
            && (forall service | service in own ::
                 service in Merged(general, own) && Merged(general, own)[service] == own[service])
            && (forall service | service in general && service !in own ::
                 service in Merged(general, own) && Merged(general, own)[service] == general[service])
            && Merged(general, own).Keys == general.Keys + own.Keys
  {
  }

  // ---------- flattening ----------

  function FlattenedServices(services: Services): Services {
    map service | service in services :: Hosts(services[service])
  }

  function Flattened(sites: Sites): Sites { map site | site in sites :: FlattenedServices(sites[site]) }

  class TenantSites {
    var sites: Sites

    constructor (sites: Sites)
      ensures this.sites == sites
    {
      this.sites := sites;
    }

    method FlattenAddressesToHosts()
      modifies this
      ensures sites == Flattened(old(sites))
    {
      ghost var before := sites;
      var todo := sites.Keys;
      while todo != {}
        invariant todo <= before.Keys && sites.Keys == before.Keys
        invariant forall site | site in before :: sites[site] ==
                    if site in todo then before[site] else FlattenedServices(before[site])
        decreases todo
      {
        var site :| site in todo;
        var flat := FlattenServices(sites[site]);
        sites := sites[site := flat];
        todo := todo - {site};
      }
    }

    static method FlattenServices(services: Services) returns (flat: Services)
      ensures flat == FlattenedServices(services)
    {
      flat := services;
      var names := services.Keys;
      while names != {}
        invariant names <= services.Keys && flat.Keys == services.Keys
        invariant forall name | name in services :: flat[name] ==
                    if name in names then services[name] else Hosts(services[name])
        decreases names
      {
        var name :| name in names;
        var hosts := FlattenList(services[name]);
        flat := flat[name := hosts];
        names := names - {name};
      }
    }

    static method FlattenList(addresses: seq<Address>) returns (hosts: seq<Address>)
      ensures hosts == Hosts(addresses)
    {
      hosts := [];
      for i := 0 to |addresses|
        invariant hosts == Hosts(addresses[..i])
      {
        hosts := hosts + [Host(addresses[i])];
      }
      assert addresses[..|addresses|] == addresses;
    }
  }

  lemma HostsIdempotent(addresses: seq<Address>)
    ensures Hosts(Hosts(addresses)) == Hosts(addresses)
  {
    forall i | 0 <= i < |addresses| ensures Host(Host(addresses[i])) == Host(addresses[i]) {
      HostIdempotent(addresses[i]);
    }
  }

  /** Flattening twice is flattening once. */
  lemma FlattenIsIdempotent(sites: Sites)
    ensures Flattened(Flattened(sites)) == Flattened(sites)
  {
    forall site | site in sites
      ensures FlattenedServices(FlattenedServices(sites[site])) == FlattenedServices(sites[site])
    {
      forall service | service in sites[site] { HostsIdempotent(sites[site][service]); }
    }
  }

  /** Flattening a scheme of accepted addresses keeps every address accepted. */
  lemma FlattenKeepsAccepted(sites: Sites, site: string, service: string)
    requires site in sites && service in sites[site]
    requires forall address <- sites[site][service] :: SchemeValidator.Accepts(address)
    ensures site in Flattened(sites) && service in Flattened(sites)[site]
              && |Flattened(sites)[site][service]| == |sites[site][service]|
    ensures forall address <- Flattened(sites)[site][service] :: SchemeValidator.Accepts(address)
  {
    var addresses := sites[site][service];
    forall i | 0 <= i < |addresses| ensures SchemeValidator.Accepts(Host(addresses[i])) {
      SchemeValidator.AcceptedHostStaysAccepted(addresses[i]);
    }
  }
}
